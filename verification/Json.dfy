/** JSON values and the one canonical text every hash is taken over: keys sorted, no spaces,
    non-ASCII characters kept as they are. */
module Json {
  import opened Options
  import Text

  /** `Float` holds the shortest text the runtime prints for the number. `Obj` keeps the
      members in insertion order. */
  datatype Value =
    | Null
    | Bool(b: bool)
    | Int(i: int)
    | Float(text: string)
    | Str(s: string)
    | Arr(items: Items)
    | Obj(members: Members)

  datatype Items = NoItems | Item(head: Value, tail: Items)

  datatype Members = NoMembers | Member(key: string, value: Value, rest: Members)

  // ---------- well-formed values ----------

  /** Characters that may stand in a literal: none of those that structure a text. */
  predicate Plain(c: char) {
    c !in ",]}|:\"[{"
  }

  predicate DecimalChar(c: char) {
    '0' <= c <= '9' || c == '-'
  }

  /** What separates the text of a float from that of every other literal: it starts like a
      number, NaN or an infinity, and has a character no integer has. */
  predicate FloatText(text: string) {
    && text != []
    && (DecimalChar(text[0]) || text[0] in "NI")
    && (forall c :: c in text ==> Plain(c))
    && (exists c :: c in text && !DecimalChar(c))
  }

  predicate HasKey(m: Members, key: string) {
    m.Member? && (m.key == key || HasKey(m.rest, key))
  }

  ghost predicate WellFormed(v: Value) {
    match v
    case Float(text) => FloatText(text)
    case Arr(items) => WellFormedItems(items)
    case Obj(members) => WellFormedMembers(members)
    case _ => true
  }

  ghost predicate WellFormedItems(items: Items) {
    items.Item? ==> WellFormed(items.head) && WellFormedItems(items.tail)
  }

  /** A dictionary has each key once. */
  ghost predicate WellFormedMembers(m: Members) {
    m.Member? ==> WellFormed(m.value) && !HasKey(m.rest, m.key) && WellFormedMembers(m.rest)
  }

  // ---------- the emitter ----------

  function HexDigit(n: nat): char
    requires n < 16
  {
    "0123456789abcdef"[n]
  }

  function EscapeChar(c: char): string {
    if c == '\"' then "\\\""
    else if c == '\\' then "\\\\"
    else if c == '\n' then "\\n"
    else if c == '\r' then "\\r"
    else if c == '\t' then "\\t"
    else if c as int == 8 then "\\b"
    else if c as int == 12 then "\\f"
    else if c as int < 32 then "\\u00" + [HexDigit(c as int / 16), HexDigit(c as int % 16)]
    else [c]
  }

  function Digits(n: nat): string {
    var last := ['0' + (n % 10) as char];
    if n < 10 then last else Digits(n / 10) + last
  }

  function Decimal(i: int): string {
    if i < 0 then "-" + Digits(-i) else Digits(i)
  }

  predicate Scalar(v: Value) {
    v.Null? || v.Bool? || v.Int? || v.Float?
  }

  function Literal(v: Value): string
    requires Scalar(v)
  {
    match v
    case Null => "null"
    case Bool(b) => if b then "true" else "false"
    case Int(i) => Decimal(i)
    case Float(text) => text
  }

  function EmitEscaped(s: string, rest: string): string {
    if s == [] then rest else EscapeChar(s[0]) + EmitEscaped(s[1..], rest)
  }

  function EmitString(s: string, rest: string): string {
    ['\"'] + EmitEscaped(s, ['\"'] + rest)
  }

  /** The text of `v` in the order its parts stand, in front of `rest`. */
  function Emit(v: Value, rest: string): string {
    match v
    case Str(s) => EmitString(s, rest)
    case Arr(items) => ['['] + EmitItems(items, true, [']'] + rest)
    case Obj(members) => ['{'] + EmitMembers(members, true, ['}'] + rest)
    case _ => Literal(v) + rest
  }

  function EmitItems(items: Items, first: bool, rest: string): string {
    match items
    case NoItems => rest
    case Item(head, tail) =>
      var text := Emit(head, EmitItems(tail, false, rest));
      if first then text else [','] + text
  }

  function EmitMembers(m: Members, first: bool, rest: string): string {
    match m
    case NoMembers => rest
    case Member(key, value, more) =>
      var text := EmitString(key, [':'] + Emit(value, EmitMembers(more, false, rest)));
      if first then text else [','] + text
  }

  // ---------- sorted keys ----------

  function Insert(key: string, value: Value, m: Members): Members {
    if m.NoMembers? || Text.LessEq(key, m.key) then Member(key, value, m)
    else Member(m.key, m.value, Insert(key, value, m.rest))
  }

  function SortMembers(m: Members): Members {
    match m
    case NoMembers => NoMembers
    case Member(key, value, rest) => Insert(key, value, SortMembers(rest))
  }

  /** The value with the members of every object, at every depth, in key order. */
  function Normal(v: Value): Value {
    match v
    case Arr(items) => Arr(NormalItems(items))
    case Obj(members) => Obj(SortMembers(NormalMembers(members)))
    case _ => v
  }

  function NormalItems(items: Items): Items {
    match items
    case NoItems => NoItems
    case Item(head, tail) => Item(Normal(head), NormalItems(tail))
  }

  function NormalMembers(m: Members): Members {
    match m
    case NoMembers => NoMembers
    case Member(key, value, rest) => Member(key, Normal(value), NormalMembers(rest))
  }

  function Canonical(v: Value): string {
    Emit(Normal(v), "")
  }

  // ---------- the emitter puts the text in front and nothing else ----------

  lemma {:induction false} EscapedAppends(s: string, rest: string, more: string)
    ensures EmitEscaped(s, rest + more) == EmitEscaped(s, rest) + more
  {
    if s != [] {
      EscapedAppends(s[1..], rest, more);
    }
  }

  lemma StringAppends(s: string, rest: string, more: string)
    ensures EmitString(s, rest + more) == EmitString(s, rest) + more
  {
    EscapedAppends(s, ['\"'] + rest, more);
    assert ['\"'] + rest + more == ['\"'] + (rest + more);
  }

  lemma {:induction false} EmitAppends(v: Value, rest: string, more: string)
    ensures Emit(v, rest + more) == Emit(v, rest) + more
  {
    match v
    case Str(s) => StringAppends(s, rest, more);
    case Arr(items) =>
      assert [']'] + rest + more == [']'] + (rest + more);
      ItemsAppend(items, true, [']'] + rest, more);
    case Obj(members) =>
      assert ['}'] + rest + more == ['}'] + (rest + more);
      MembersAppend(members, true, ['}'] + rest, more);
    case _ =>
  }

  lemma {:induction false} ItemsAppend(items: Items, first: bool, rest: string, more: string)
    ensures EmitItems(items, first, rest + more) == EmitItems(items, first, rest) + more
  {
    if items.Item? {
      ItemsAppend(items.tail, false, rest, more);
      EmitAppends(items.head, EmitItems(items.tail, false, rest), more);
    }
  }

  lemma {:induction false} MembersAppend(m: Members, first: bool, rest: string, more: string)
    ensures EmitMembers(m, first, rest + more) == EmitMembers(m, first, rest) + more
  {
    if m.Member? {
      MembersAppend(m.rest, false, rest, more);
      var tail := EmitMembers(m.rest, false, rest);
      EmitAppends(m.value, tail, more);
      assert [':'] + Emit(m.value, tail) + more == [':'] + (Emit(m.value, tail) + more);
      StringAppends(m.key, [':'] + Emit(m.value, tail), more);
    }
  }

  // ---------- reading a text back is unambiguous ----------

  /** Nothing follows, or what follows cannot be part of a literal. */
  predicate Closed(rest: string) {
    rest == [] || !Plain(rest[0])
  }

  lemma SameHead(c: char, rest: string, d: char, other: string)
    requires [c] + rest == [d] + other
    ensures c == d && rest == other
  {
    assert ([c] + rest)[0] == ([d] + other)[0];
    assert ([c] + rest)[1..] == rest && ([d] + other)[1..] == other;
  }

  function HexValue(c: char): nat {
    if '0' <= c <= '9' then c as int - '0' as int else if 'a' <= c <= 'f' then c as int - 'a' as int + 10 else 0
  }

  /** The character an escaped text starts with, and how many characters spell it. */
  function Unescape(text: string): (char, nat)
    requires text != [] && (text[0] == '\\' ==> 2 <= |text| && (text[1] == 'u' ==> 6 <= |text|))
  {
    if text[0] != '\\' then (text[0], 1)
    else match text[1]
      case 'n' => ('\n', 2)
      case 'r' => ('\r', 2)
      case 't' => ('\t', 2)
      case 'b' => (8 as char, 2)
      case 'f' => (12 as char, 2)
      case 'u' => ((HexValue(text[4]) * 16 + HexValue(text[5])) as char, 6)
      case other => (other, 2)
  }

  lemma HexRoundTrip(n: nat)
    requires n < 16
    ensures HexValue(HexDigit(n)) == n
  {
  }

  lemma UnescapeRoundTrip(c: char, rest: string)
    ensures var text := EscapeChar(c) + rest;
            && text != [] && (text[0] == '\\' ==> 2 <= |text| && (text[1] == 'u' ==> 6 <= |text|))
            && Unescape(text) == (c, |EscapeChar(c)|)
  {
    var e, n := EscapeChar(c), c as int;
    var text := e + rest;
    assert forall i :: 0 <= i < |e| ==> text[i] == e[i];
    if |e| == 6 {
      HexRoundTrip(n / 16);
      HexRoundTrip(n % 16);
      assert text[4] == HexDigit(n / 16) && text[5] == HexDigit(n % 16);
    }
  }

  lemma EscapeUnique(c: char, rest: string, d: char, other: string)
    requires EscapeChar(c) + rest == EscapeChar(d) + other
    ensures c == d && rest == other
  {
    UnescapeRoundTrip(c, rest);
    UnescapeRoundTrip(d, other);
    assert (EscapeChar(c) + rest)[|EscapeChar(c)|..] == rest;
    assert (EscapeChar(d) + other)[|EscapeChar(d)|..] == other;
  }

  lemma EscapedHead(s: string, rest: string)
    ensures var text := EmitEscaped(s, ['\"'] + rest);
            text != [] && (text[0] == '\"' <==> s == [])
  {
  }

  lemma {:induction false} EscapedUnique(s: string, rest: string, t: string, other: string)
    requires EmitEscaped(s, ['\"'] + rest) == EmitEscaped(t, ['\"'] + other)
    ensures s == t && rest == other
  {
    EscapedHead(s, rest);
    EscapedHead(t, other);
    if s == [] {
      SameHead('\"', rest, '\"', other);
    } else {
      EscapeUnique(s[0], EmitEscaped(s[1..], ['\"'] + rest), t[0], EmitEscaped(t[1..], ['\"'] + other));
      EscapedUnique(s[1..], rest, t[1..], other);
      assert s == [s[0]] + s[1..] && t == [t[0]] + t[1..];
    }
  }

  lemma StringUnique(s: string, rest: string, t: string, other: string)
    requires EmitString(s, rest) == EmitString(t, other)
    ensures s == t && rest == other
  {
    SameHead('\"', EmitEscaped(s, ['\"'] + rest), '\"', EmitEscaped(t, ['\"'] + other));
    EscapedUnique(s, rest, t, other);
  }

  lemma {:induction false} DigitsShape(n: nat)
    ensures Digits(n) != [] && forall c :: c in Digits(n) ==> '0' <= c <= '9'
  {
    if 10 <= n {
      DigitsShape(n / 10);
    }
  }

  lemma {:induction false} DigitsInjective(m: nat, n: nat)
    requires Digits(m) == Digits(n)
    ensures m == n
  {
    var a, b := Digits(m), Digits(n);
    assert a[|a| - 1] == b[|b| - 1];
    assert m % 10 == n % 10;
    if 10 <= m && 10 <= n {
      assert Digits(m / 10) == a[..|a| - 1] && Digits(n / 10) == b[..|b| - 1];
      DigitsInjective(m / 10, n / 10);
    } else if 10 <= m {
      DigitsShape(m / 10);
    } else if 10 <= n {
      DigitsShape(n / 10);
    }
  }

  lemma DecimalShape(i: int)
    ensures Decimal(i) != [] && forall c :: c in Decimal(i) ==> DecimalChar(c)
    ensures Decimal(i)[0] == '-' <==> i < 0
  {
    var digits := Digits(if i < 0 then -i else i);
    DigitsShape(if i < 0 then -i else i);
    assert digits[0] in digits;
  }

  lemma DecimalInjective(i: int, j: int)
    requires Decimal(i) == Decimal(j)
    ensures i == j
  {
    DecimalShape(i);
    DecimalShape(j);
    if i < 0 {
      SameHead('-', Digits(-i), '-', Digits(-j));
      DigitsInjective(-i, -j);
    } else {
      DigitsInjective(i, j);
    }
  }

  lemma LiteralPlain(v: Value)
    requires Scalar(v) && WellFormed(v)
    ensures Literal(v) != [] && forall c :: c in Literal(v) ==> Plain(c)
  {
    if v.Int? {
      DecimalShape(v.i);
    }
  }

  /** Integers are all digits, floats are not, and neither starts like a keyword. */
  lemma LiteralKind(v: Value)
    requires Scalar(v) && WellFormed(v)
    ensures var text := Literal(v);
            && text != []
            && (v.Int? <==> forall c :: c in text ==> DecimalChar(c))
            && (v.Null? <==> text[0] == 'n') && (v == Bool(true) <==> text[0] == 't')
            && (v == Bool(false) <==> text[0] == 'f')
  {
    var text := Literal(v);
    if v.Int? {
      DecimalShape(v.i);
    }
    assert text[0] in text;
  }

  lemma LiteralInjective(v: Value, w: Value)
    requires Scalar(v) && WellFormed(v) && Scalar(w) && WellFormed(w)
    requires Literal(v) == Literal(w)
    ensures v == w
  {
    if v.Int? && w.Int? {
      DecimalInjective(v.i, w.i);
    } else {
      LiteralKind(v);
      LiteralKind(w);
    }
  }

  lemma {:induction false} PlainPrefixUnique(a: string, rest: string, b: string, other: string)
    requires (forall c :: c in a ==> Plain(c)) && (forall c :: c in b ==> Plain(c))
    requires Closed(rest) && Closed(other) && a + rest == b + other
    ensures a == b && rest == other
  {
    if a == [] || b == [] {
      assert (a + rest == []) == (b + other == []);
      if a + rest != [] {
        assert (a + rest)[0] == (b + other)[0];
      }
      assert a == [] && b == [];
      assert a + rest == rest && b + other == other;
    } else {
      assert a + rest == [a[0]] + (a[1..] + rest) && b + other == [b[0]] + (b[1..] + other);
      SameHead(a[0], a[1..] + rest, b[0], b[1..] + other);
      PlainPrefixUnique(a[1..], rest, b[1..], other);
      assert a == [a[0]] + a[1..] && b == [b[0]] + b[1..];
    }
  }

  /** The first character of a text tells what kind of value it is. */
  lemma EmitHead(v: Value, rest: string)
    requires WellFormed(v)
    ensures Emit(v, rest) != []
    ensures Emit(v, rest)[0] == '\"' <==> v.Str?
    ensures Emit(v, rest)[0] == '[' <==> v.Arr?
    ensures Emit(v, rest)[0] == '{' <==> v.Obj?
    ensures Emit(v, rest)[0] !in ",]}:"
  {
    if Scalar(v) {
      LiteralPlain(v);
      assert Literal(v)[0] in Literal(v);
    }
  }

  /** A text and what follows it determine the value: no well-formed value's text is a proper
      prefix of another's, and two values never share one. */
  lemma {:induction false} EmitUnique(v: Value, rest: string, w: Value, other: string)
    requires WellFormed(v) && WellFormed(w) && Closed(rest) && Closed(other)
    requires Emit(v, rest) == Emit(w, other)
    ensures v == w && rest == other
  {
    EmitHead(v, rest);
    EmitHead(w, other);
    match v
    case Str(s) => StringUnique(s, rest, w.s, other);
    case Arr(items) =>
      var mine, yours := EmitItems(items, true, [']'] + rest), EmitItems(w.items, true, [']'] + other);
      SameHead('[', mine, '[', yours);
      ItemsUnique(items, w.items, true, rest, other);
    case Obj(members) =>
      var mine, yours := EmitMembers(members, true, ['}'] + rest), EmitMembers(w.members, true, ['}'] + other);
      SameHead('{', mine, '{', yours);
      MembersUnique(members, w.members, true, rest, other);
    case _ =>
      LiteralPlain(v);
      LiteralPlain(w);
      PlainPrefixUnique(Literal(v), rest, Literal(w), other);
      LiteralInjective(v, w);
  }

  lemma {:induction false} ItemsUnique(a: Items, b: Items, first: bool, rest: string, other: string)
    requires WellFormedItems(a) && WellFormedItems(b)
    requires EmitItems(a, first, [']'] + rest) == EmitItems(b, first, [']'] + other)
    ensures a == b && rest == other
  {
    var after, otherAfter := [']'] + rest, [']'] + other;
    if a.Item? {
      EmitHead(a.head, EmitItems(a.tail, false, after));
    }
    if b.Item? {
      EmitHead(b.head, EmitItems(b.tail, false, otherAfter));
    }
    assert EmitItems(a, first, after)[0] == EmitItems(b, first, otherAfter)[0];
    if a.Item? && b.Item? {
      var x, y := EmitItems(a.tail, false, after), EmitItems(b.tail, false, otherAfter);
      if !first {
        SameHead(',', Emit(a.head, x), ',', Emit(b.head, y));
      }
      EmitUnique(a.head, x, b.head, y);
      ItemsUnique(a.tail, b.tail, false, rest, other);
    } else {
      SameHead(']', rest, ']', other);
    }
  }

  lemma {:induction false} MembersUnique(a: Members, b: Members, first: bool, rest: string, other: string)
    requires WellFormedMembers(a) && WellFormedMembers(b)
    requires EmitMembers(a, first, ['}'] + rest) == EmitMembers(b, first, ['}'] + other)
    ensures a == b && rest == other
  {
    var after, otherAfter := ['}'] + rest, ['}'] + other;
    assert EmitMembers(a, first, after)[0] == EmitMembers(b, first, otherAfter)[0];
    if a.Member? && b.Member? {
      var x, y := EmitMembers(a.rest, false, after), EmitMembers(b.rest, false, otherAfter);
      var u, v := Emit(a.value, x), Emit(b.value, y);
      if !first {
        SameHead(',', EmitString(a.key, [':'] + u), ',', EmitString(b.key, [':'] + v));
      }
      StringUnique(a.key, [':'] + u, b.key, [':'] + v);
      SameHead(':', u, ':', v);
      EmitUnique(a.value, x, b.value, y);
      MembersUnique(a.rest, b.rest, false, rest, other);
    } else {
      SameHead('}', rest, '}', other);
    }
  }

  // ---------- sorting forgets insertion order and nothing else ----------

  function Lookup(m: Members, key: string): Option<Value> {
    match m
    case NoMembers => None
    case Member(k, value, rest) => if k == key then Some(value) else Lookup(rest, key)
  }

  predicate Below(a: string, b: string) {
    Text.LessEq(a, b) && a != b
  }

  predicate Ordered(m: Members) {
    m.Member? && m.rest.Member? ==> Below(m.key, m.rest.key) && Ordered(m.rest)
  }

  lemma {:induction false} LookupFinds(m: Members, key: string)
    ensures Lookup(m, key).Some? <==> HasKey(m, key)
  {
    if m.Member? {
      LookupFinds(m.rest, key);
    }
  }

  lemma {:induction false} InsertExact(key: string, value: Value, m: Members, probe: string)
    ensures Lookup(Insert(key, value, m), probe) == if probe == key then Some(value) else Lookup(m, probe)
  {
    if m.Member? && !Text.LessEq(key, m.key) {
      Text.LessEqTotal(key, m.key);
      InsertExact(key, value, m.rest, probe);
    }
  }

  lemma {:induction false} InsertOrdered(key: string, value: Value, m: Members)
    requires Ordered(m) && !HasKey(m, key)
    ensures Ordered(Insert(key, value, m))
  {
    if m.Member? && !Text.LessEq(key, m.key) {
      Text.LessEqTotal(key, m.key);
      InsertOrdered(key, value, m.rest);
    }
  }

  lemma {:induction false} SortExact(m: Members, probe: string)
    ensures Lookup(SortMembers(m), probe) == Lookup(m, probe)
  {
    if m.Member? {
      SortExact(m.rest, probe);
      InsertExact(m.key, m.value, SortMembers(m.rest), probe);
    }
  }

  lemma SortKeys(m: Members, probe: string)
    ensures HasKey(SortMembers(m), probe) <==> HasKey(m, probe)
  {
    SortExact(m, probe);
    LookupFinds(m, probe);
    LookupFinds(SortMembers(m), probe);
  }

  lemma {:induction false} InsertWellFormed(key: string, value: Value, m: Members)
    requires WellFormed(value) && WellFormedMembers(m) && !HasKey(m, key)
    ensures WellFormedMembers(Insert(key, value, m))
  {
    if m.Member? && !Text.LessEq(key, m.key) {
      InsertWellFormed(key, value, m.rest);
      InsertExact(key, value, m.rest, m.key);
      LookupFinds(m.rest, m.key);
      LookupFinds(Insert(key, value, m.rest), m.key);
    }
  }

  lemma {:induction false} SortWellFormed(m: Members)
    requires WellFormedMembers(m)
    ensures WellFormedMembers(SortMembers(m)) && Ordered(SortMembers(m))
  {
    if m.Member? {
      SortWellFormed(m.rest);
      SortKeys(m.rest, m.key);
      InsertWellFormed(m.key, m.value, SortMembers(m.rest));
      InsertOrdered(m.key, m.value, SortMembers(m.rest));
    }
  }

  lemma {:induction false} NormalWellFormed(v: Value)
    requires WellFormed(v)
    ensures WellFormed(Normal(v))
  {
    match v
    case Arr(items) => NormalItemsWellFormed(items);
    case Obj(members) =>
      NormalMembersWellFormed(members);
      SortWellFormed(NormalMembers(members));
    case _ =>
  }

  lemma {:induction false} NormalItemsWellFormed(items: Items)
    requires WellFormedItems(items)
    ensures WellFormedItems(NormalItems(items))
  {
    if items.Item? {
      NormalWellFormed(items.head);
      NormalItemsWellFormed(items.tail);
    }
  }

  lemma {:induction false} NormalMembersWellFormed(m: Members)
    requires WellFormedMembers(m)
    ensures WellFormedMembers(NormalMembers(m))
  {
    if m.Member? {
      NormalWellFormed(m.value);
      NormalMembersWellFormed(m.rest);
      NormalLookup(m.rest, m.key);
      LookupFinds(m.rest, m.key);
      LookupFinds(NormalMembers(m.rest), m.key);
    }
  }

  /** The member under a key, its own objects sorted too. */
  function NormalAt(m: Members, key: string): Option<Value> {
    var found := Lookup(m, key);
    if found.Some? then Some(Normal(found.value)) else None
  }

  lemma {:induction false} NormalLookup(m: Members, key: string)
    ensures Lookup(NormalMembers(m), key) == NormalAt(m, key)
  {
    if m.Member? {
      NormalLookup(m.rest, key);
    }
  }

  lemma {:induction false} AbsentBelow(key: string, m: Members)
    requires Ordered(m) && (m.Member? ==> Below(key, m.key))
    ensures Lookup(m, key).None?
  {
    if m.Member? {
      if m.rest.Member? {
        Text.LessEqTransitive(key, m.key, m.rest.key);
        if key == m.rest.key {
          Text.LessEqAntisymmetric(key, m.key);
        }
      }
      AbsentBelow(key, m.rest);
    }
  }

  lemma {:induction false} OrderedUnique(a: Members, b: Members)
    requires Ordered(a) && Ordered(b) && forall key :: Lookup(a, key) == Lookup(b, key)
    ensures a == b
  {
    if a.Member? {
      assert Lookup(a, a.key).Some?;
    }
    if b.Member? {
      assert Lookup(b, b.key).Some?;
    }
    if a.Member? && b.Member? {
      Text.LessEqTotal(a.key, b.key);
      if Below(a.key, b.key) {
        AbsentBelow(a.key, b);
      } else if Below(b.key, a.key) {
        AbsentBelow(b.key, a);
      }
      assert a.key == b.key && a.value == b.value;
      AbsentBelow(a.key, a.rest);
      AbsentBelow(b.key, b.rest);
      forall key ensures Lookup(a.rest, key) == Lookup(b.rest, key) {
        assert Lookup(a, key) == Lookup(b, key);
      }
      OrderedUnique(a.rest, b.rest);
    }
  }

  /** Two dictionaries have the same normal form exactly when they hold the same keys with
      values of the same normal form, whatever the order the keys were put in. */
  lemma NormalForgetsOrder(a: Members, b: Members)
    requires WellFormed(Obj(a)) && WellFormed(Obj(b))
    ensures Normal(Obj(a)) == Normal(Obj(b)) <==> forall key :: NormalAt(a, key) == NormalAt(b, key)
  {
    var x, y := NormalMembers(a), NormalMembers(b);
    forall key
      ensures Lookup(SortMembers(x), key) == NormalAt(a, key) && Lookup(SortMembers(y), key) == NormalAt(b, key)
    {
      SortExact(x, key);
      SortExact(y, key);
      NormalLookup(a, key);
      NormalLookup(b, key);
    }
    NormalMembersWellFormed(a);
    NormalMembersWellFormed(b);
    SortWellFormed(x);
    SortWellFormed(y);
    if forall key :: NormalAt(a, key) == NormalAt(b, key) {
      OrderedUnique(SortMembers(x), SortMembers(y));
    }
  }

  /** The canonical text identifies the value up to key order, and no canonical text followed
      by a character that structures a text is ambiguous about where it ends. */
  lemma CanonicalUnambiguous(v: Value, rest: string, w: Value, other: string)
    requires WellFormed(v) && WellFormed(w) && Closed(rest) && Closed(other)
    ensures Canonical(v) + rest == Canonical(w) + other <==> Normal(v) == Normal(w) && rest == other
  {
    NormalWellFormed(v);
    NormalWellFormed(w);
    EmitAppends(Normal(v), "", rest);
    EmitAppends(Normal(w), "", other);
    assert "" + rest == rest && "" + other == other;
    if Canonical(v) + rest == Canonical(w) + other {
      EmitUnique(Normal(v), rest, Normal(w), other);
    }
  }
}
