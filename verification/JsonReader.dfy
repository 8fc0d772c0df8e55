/** A reader of JSON texts without blanks, after RFC 8259, and the round trip: what the emitter
    writes reads back as the value it was given. */
module JsonReader {
  import opened Options
  import opened Json

  /** What a reader finds at the front of a text, and what follows it. */
  datatype Found<T> = Nothing | Found(value: T, rest: string)

  // ---------- scalars ----------

  /** The longest front of the text that has no structural character. */
  function Word(text: string): string {
    if text == [] || !Plain(text[0]) then [] else [text[0]] + Word(text[1..])
  }

  function NumberOf(digits: string): int {
    if digits == [] then 0
    else 10 * NumberOf(digits[..|digits| - 1]) + (digits[|digits| - 1] as int - '0' as int)
  }

  /** A keyword, an integer, or else the text of a float. */
  function ScalarOf(word: string): Value {
    if word == "null" then Null
    else if word == "true" then Bool(true)
    else if word == "false" then Bool(false)
    else if word == [] || exists c :: c in word && !DecimalChar(c) then Float(word)
    else if word[0] == '-' then Int(-NumberOf(word[1..]))
    else Int(NumberOf(word))
  }

  function ReadScalar(text: string): (r: Found<Value>)
    ensures r.Found? ==> |r.rest| < |text|
  {
    var word := Word(text);
    WordFits(text);
    if word == [] then Nothing else Found(ScalarOf(word), text[|word|..])
  }

  lemma {:induction false} WordFits(text: string)
    ensures |Word(text)| <= |text| && Word(text) == text[..|Word(text)|]
  {
    if text != [] && Plain(text[0]) {
      WordFits(text[1..]);
      assert text == [text[0]] + text[1..];
    }
  }

  // ---------- strings, arrays and objects ----------

  /** The characters up to the closing quote. */
  function ReadString(text: string): (r: Found<string>)
    ensures r.Found? ==> |r.rest| < |text|
    decreases |text|
  {
    if text == [] then Nothing
    else if text[0] == '\"' then Found("", text[1..])
    else if text[0] == '\\' && (|text| < 2 || (text[1] == 'u' && |text| < 6)) then Nothing
    else
      var (c, n) := Unescape(text);
      var more := ReadString(text[n..]);
      if more.Nothing? then Nothing else Found([c] + more.value, more.rest)
  }

  function ReadValue(text: string): (r: Found<Value>)
    ensures r.Found? ==> |r.rest| < |text|
    decreases |text|, 0
  {
    if text == [] then Nothing
    else if text[0] == '\"' then
      var s := ReadString(text[1..]);
      if s.Nothing? then Nothing else Found(Str(s.value), s.rest)
    else if text[0] == '[' then
      var items := ReadItems(text[1..], true);
      if items.Nothing? then Nothing else Found(Arr(items.value), items.rest)
    else if text[0] == '{' then
      var members := ReadMembers(text[1..], true);
      if members.Nothing? then Nothing else Found(Obj(members.value), members.rest)
    else ReadScalar(text)
  }

  /** The items up to the closing bracket, a comma before every one but the first. */
  function ReadItems(text: string, first: bool): (r: Found<Items>)
    ensures r.Found? ==> |r.rest| < |text|
    decreases |text|, 1
  {
    if text == [] then Nothing
    else if text[0] == ']' then Found(NoItems, text[1..])
    else if !first && text[0] != ',' then Nothing
    else
      var head := ReadValue(if first then text else text[1..]);
      if head.Nothing? then Nothing
      else
        var tail := ReadItems(head.rest, false);
        if tail.Nothing? then Nothing else Found(Item(head.value, tail.value), tail.rest)
  }

  function ReadMembers(text: string, first: bool): (r: Found<Members>)
    ensures r.Found? ==> |r.rest| < |text|
    decreases |text|, 1
  {
    if text == [] then Nothing
    else if text[0] == '}' then Found(NoMembers, text[1..])
    else
      var body := if first then text else if text[0] == ',' then text[1..] else "";
      if body == [] || body[0] != '\"' then Nothing
      else
        var key := ReadString(body[1..]);
        if key.Nothing? || key.rest == [] || key.rest[0] != ':' then Nothing
        else
          var value := ReadValue(key.rest[1..]);
          if value.Nothing? then Nothing
          else
            var more := ReadMembers(value.rest, false);
            if more.Nothing? then Nothing else Found(Member(key.value, value.value, more.value), more.rest)
  }

  // ---------- the round trip ----------

  lemma {:induction false} WordOf(a: string, rest: string)
    requires (forall c :: c in a ==> Plain(c)) && Closed(rest)
    ensures Word(a + rest) == a && (a + rest)[|a|..] == rest
  {
    if a == [] {
      assert a + rest == rest;
    } else {
      assert (a + rest)[1..] == a[1..] + rest;
      WordOf(a[1..], rest);
      assert a == [a[0]] + a[1..];
    }
  }

  lemma {:induction false} NumberOfDigits(n: nat)
    ensures NumberOf(Digits(n)) == n
  {
    var digits := Digits(n);
    assert digits[|digits| - 1] as int - '0' as int == n % 10;
    if n < 10 {
      assert digits[..0] == [];
    } else {
      assert digits[..|digits| - 1] == Digits(n / 10);
      NumberOfDigits(n / 10);
    }
  }

  lemma DecimalReads(i: int)
    ensures ScalarOf(Decimal(i)) == Int(i)
  {
    DecimalShape(i);
    NumberOfDigits(if i < 0 then -i else i);
    var text := Decimal(i);
    hide Digits, NumberOf;
    assert forall word :: word in ["null", "true", "false"] ==> word[0] in word && !DecimalChar(word[0]);
    assert text !in ["null", "true", "false"] by {
      assert text[0] in text;
    }
    if i < 0 {
      assert text[1..] == Digits(-i);
    }
  }

  lemma LiteralReads(v: Value)
    requires Scalar(v) && WellFormed(v)
    ensures ScalarOf(Literal(v)) == v
  {
    match v
    case Int(i) => DecimalReads(i);
    case Float(text) =>
      LiteralKind(v);
      assert "null"[0] == 'n' && "true"[0] == 't' && "false"[0] == 'f';
    case _ =>
  }

  lemma ScalarReads(v: Value, rest: string)
    requires Scalar(v) && WellFormed(v) && Closed(rest)
    ensures ReadValue(Emit(v, rest)) == Found(v, rest)
  {
    LiteralPlain(v);
    EmitHead(v, rest);
    WordOf(Literal(v), rest);
    LiteralReads(v);
    hide Literal, ScalarOf, Word;
    assert Emit(v, rest) == Literal(v) + rest;
  }

  lemma {:induction false} EscapedReads(s: string, rest: string)
    ensures ReadString(EmitEscaped(s, ['\"'] + rest)) == Found(s, rest)
    decreases |s|
  {
    if s == [] {
      assert (['\"'] + rest)[1..] == rest;
    } else {
      var more := EmitEscaped(s[1..], ['\"'] + rest);
      var e := EscapeChar(s[0]);
      UnescapeRoundTrip(s[0], more);
      EscapedReads(s[1..], rest);
      assert (e + more)[|e|..] == more;
      assert e[0] != '\"';
      assert (e + more)[0] == e[0];
      hide EscapeChar, Unescape;
      assert s == [s[0]] + s[1..];
    }
  }

  lemma {:induction false} EmitReads(v: Value, rest: string)
    requires WellFormed(v) && Closed(rest)
    ensures ReadValue(Emit(v, rest)) == Found(v, rest)
  {
    match v
    case Str(s) =>
      EscapedReads(s, rest);
      assert EmitString(s, rest)[1..] == EmitEscaped(s, ['\"'] + rest);
    case Arr(items) =>
      ItemsRead(items, true, rest);
      assert Emit(v, rest)[1..] == EmitItems(items, true, [']'] + rest);
    case Obj(members) =>
      MembersRead(members, true, rest);
      assert Emit(v, rest)[1..] == EmitMembers(members, true, ['}'] + rest);
    case _ => ScalarReads(v, rest);
  }

  lemma ItemsClosed(items: Items, rest: string)
    ensures Closed(EmitItems(items, false, [']'] + rest))
  {
  }

  lemma MembersClosed(m: Members, rest: string)
    ensures Closed(EmitMembers(m, false, ['}'] + rest))
  {
  }

  lemma {:induction false} ItemsRead(items: Items, first: bool, rest: string)
    requires WellFormedItems(items)
    ensures ReadItems(EmitItems(items, first, [']'] + rest), first) == Found(items, rest)
  {
    if items.NoItems? {
      assert ([']'] + rest)[1..] == rest;
    } else {
      var more := EmitItems(items.tail, false, [']'] + rest);
      var text := Emit(items.head, more);
      ItemsClosed(items.tail, rest);
      EmitReads(items.head, more);
      ItemsRead(items.tail, false, rest);
      EmitHead(items.head, more);
      assert ([','] + text)[1..] == text;
      hide Emit, ReadValue;
    }
  }

  lemma {:induction false} MembersRead(m: Members, first: bool, rest: string)
    requires WellFormedMembers(m)
    ensures ReadMembers(EmitMembers(m, first, ['}'] + rest), first) == Found(m, rest)
  {
    if m.NoMembers? {
      assert (['}'] + rest)[1..] == rest;
    } else {
      var more := EmitMembers(m.rest, false, ['}'] + rest);
      var value := Emit(m.value, more);
      var text := EmitString(m.key, [':'] + value);
      MembersClosed(m.rest, rest);
      EmitReads(m.value, more);
      EscapedReads(m.key, [':'] + value);
      MembersRead(m.rest, false, rest);
      hide Emit, ReadValue, ReadString, EmitEscaped;
      assert text[0] == '\"' && text[1..] == EmitEscaped(m.key, ['\"'] + ([':'] + value));
      assert ([':'] + value)[0] == ':' && ([':'] + value)[1..] == value;
      assert ([','] + text)[1..] == text;
    }
  }

  /** The canonical text of a value reads back as the value, its keys in order, with nothing
      left over. */
  lemma CanonicalReadsBack(v: Value)
    requires WellFormed(v)
    ensures ReadValue(Canonical(v)) == Found(Normal(v), "")
    ensures v.Obj? ==> Normal(v).Obj? && Ordered(Normal(v).members)
    ensures v.Obj? ==> forall key :: Lookup(Normal(v).members, key) == NormalAt(v.members, key)
  {
    NormalWellFormed(v);
    if v.Obj? {
      NormalMembersWellFormed(v.members);
      SortWellFormed(NormalMembers(v.members));
      forall key ensures Lookup(Normal(v).members, key) == NormalAt(v.members, key) {
        SortExact(NormalMembers(v.members), key);
        NormalLookup(v.members, key);
      }
    }
    EmitReads(Normal(v), "");
  }

  /** An escape is as short as JSON has it: two characters for the seven that have a short form,
      six for any other control character, and every other character stands for itself. */
  lemma EscapesAreShort(c: char)
    ensures var n := c as int;
            |EscapeChar(c)| == if c in ['\"', '\\', '\n', '\r', '\t'] || n == 8 || n == 12 then 2 else if n < 32 then 6 else 1
    ensures 32 <= c as int && c != '\"' && c != '\\' ==> EscapeChar(c) == [c]
    ensures |EscapeChar(c)| == 6 ==> EscapeChar(c)[..4] == "\\u00"
  {
  }

  /** Integers are written without leading zeros. */
  lemma {:induction false} NoLeadingZero(n: nat)
    ensures Digits(n) != [] && (Digits(n)[0] == '0' ==> n == 0 && |Digits(n)| == 1)
  {
    if 10 <= n {
      NoLeadingZero(n / 10);
    }
  }
}
