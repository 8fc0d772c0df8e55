/** The std_v1 mailbox: one slot per sub-game or step key, a slot for messages that name no
    sub-game, and a slot of its own for the consensus envelope. */
module Exchange {
  import opened Options
  import Json

  // ---------- keys ----------

  /** What a JSON message may hold where a number is expected. */
  datatype Key = Absent | Number(n: int) | Word(text: string)

  /** The runtime refuses to read the text as an integer. */
  datatype Error = InvalidLiteral | MissingKey

  function WithoutDashes(s: string): string {
    if s != [] && s[0] == '-' then WithoutDashes(s[1..]) else s
  }

  predicate AllDigits(s: string) {
    forall c :: c in s ==> '0' <= c <= '9'
  }

  function Magnitude(digits: string): int {
    if digits == [] then 0 else 10 * Magnitude(digits[..|digits| - 1]) + (digits[|digits| - 1] as int - '0' as int)
  }

  /** A numeric string becomes its number; anything else stays as it is. Several dashes before
      digits pass the test for a number but are not one. */
  function Coerce(key: Key): Result<Key, Error> {
    if key.Word? then
      var digits := WithoutDashes(key.text);
      if digits == [] || !AllDigits(digits) then Ok(key)
      else if |digits| == |key.text| then Ok(Number(Magnitude(digits)))
      else if |digits| == |key.text| - 1 then Ok(Number(-Magnitude(digits)))
      else Err(InvalidLiteral)
    else Ok(key)
  }

  lemma {:induction false} MagnitudeOfDigits(n: nat)
    ensures Magnitude(Json.Digits(n)) == n
  {
    var digits := Json.Digits(n);
    assert digits[|digits| - 1] as int - '0' as int == n % 10;
    if n < 10 {
      assert digits[..0] == [];
    } else {
      assert digits[..|digits| - 1] == Json.Digits(n / 10);
      MagnitudeOfDigits(n / 10);
    }
  }

  lemma DigitsCoerce(n: nat)
    ensures var digits := Json.Digits(n);
            digits != [] && digits[0] != '-' && AllDigits(digits) && WithoutDashes(digits) == digits && Magnitude(digits) == n
  {
    var digits := Json.Digits(n);
    Json.DigitsShape(n);
    MagnitudeOfDigits(n);
    hide Json.Digits, Magnitude;
    assert digits[0] in digits;
  }

  /** A number sent as a number and the same number sent as text take one slot. */
  lemma TextTakesTheNumbersSlot(i: int)
    ensures Coerce(Word(Json.Decimal(i))) == Coerce(Number(i))
  {
    var n := if i < 0 then -i else i;
    var digits := Json.Digits(n);
    DigitsCoerce(n);
    hide Json.Digits, Magnitude, AllDigits;
    if i < 0 {
      assert ("-" + digits)[1..] == digits;
      assert WithoutDashes("-" + digits) == digits;
    }
  }

  /** The text is the number `n` in digits, after at most one dash. */
  ghost predicate Spells(text: string, n: int, digits: string) {
    && digits != [] && AllDigits(digits)
    && ((text == digits && n == Magnitude(digits)) || (text == "-" + digits && n == -Magnitude(digits)))
  }

  lemma {:induction false} DashesAndRest(s: string)
    ensures |WithoutDashes(s)| <= |s| && s[|s| - |WithoutDashes(s)|..] == WithoutDashes(s)
    ensures forall i :: 0 <= i < |s| - |WithoutDashes(s)| ==> s[i] == '-'
    ensures WithoutDashes(s) == [] || WithoutDashes(s)[0] != '-'
  {
    if s != [] && s[0] == '-' {
      var t, rest := s[1..], WithoutDashes(s[1..]);
      DashesAndRest(t);
      assert WithoutDashes(s) == rest;
      hide WithoutDashes;
      assert s[|s| - |rest|..] == t[|t| - |rest|..];
      assert forall i :: 0 < i < |s| ==> s[i] == t[i - 1];
    }
  }

  lemma SpelledIsRead(text: string, n: int, digits: string)
    requires Spells(text, n, digits)
    ensures Coerce(Word(text)) == Ok(Number(n))
  {
    assert digits[0] in digits;
    assert WithoutDashes(digits) == digits;
    assert ("-" + digits)[1..] == digits;
    hide Magnitude;
  }

  /** A text becomes a number exactly when it spells one; it is refused exactly when it is
      several dashes before digits; any other text stays a text, and what is no text stays as it
      is. */
  lemma CoerceExactly(key: Key, n: int)
    requires key.Word?
    ensures Coerce(key) == Ok(Number(n)) <==> exists digits :: Spells(key.text, n, digits)
    ensures Coerce(key).Err? <==>
            var digits := WithoutDashes(key.text); digits != [] && AllDigits(digits) && |digits| + 2 <= |key.text|
    ensures Coerce(key).Ok? && Coerce(key).value.Word? ==> Coerce(key).value == key
  {
    var text := key.text;
    var digits := WithoutDashes(text);
    DashesAndRest(text);
    if Coerce(key) == Ok(Number(n)) {
      assert text == text[..|text| - |digits|] + digits;
      if |digits| == |text| - 1 {
        assert text[..1] == "-";
      }
      assert Spells(text, n, digits);
    }
    if some :| Spells(text, n, some) {
      SpelledIsRead(text, n, some);
    }
    hide Magnitude;
  }

  // ---------- audit envelopes ----------

  const CONSENSUS := "series_consensus"

  /** The three places where a disclosed record may name its sub-game. */
  datatype Record = Record(top: Key, inPayload: Key, short: Key)

  datatype Envelope = Envelope(claim: Option<string>, declared: Key, records: seq<Record>, body: string)

  predicate IsConsensus(e: Envelope) {
    e.claim == Some(CONSENSUS)
  }

  function RecordNumber(r: Record): Result<Key, Error> {
    if r.top != Absent then Coerce(r.top)
    else if r.inPayload != Absent then Coerce(r.inPayload)
    else Coerce(r.short)
  }

  function AnyNames(records: seq<Record>, n: int): Result<bool, Error> {
    if records == [] then Ok(false)
    else match RecordNumber(records[0])
      case Err(e) => Err(e)
      case Ok(key) => if key == Number(n) then Ok(true) else AnyNames(records[1..], n)
  }

  function BelongsTo(e: Envelope, n: int): Result<bool, Error> {
    if IsConsensus(e) then Ok(false)
    else match Coerce(e.declared)
      case Err(error) => Err(error)
      case Ok(Absent) => if e.records == [] then Ok(true) else AnyNames(e.records, n)
      case Ok(key) => Ok(key == Number(n))
  }

  type Audits = map<Key, Envelope>

  /** One look into the mailbox for sub-game `n`: its own slot, else the unnumbered one. */
  function Look(audits: Audits, n: int): Result<Option<Envelope>, Error> {
    var candidate :=
      if Number(n) in audits then Some(audits[Number(n)])
      else if Absent in audits then Some(audits[Absent])
      else None;
    if candidate.None? then Ok(None)
    else match BelongsTo(candidate.value, n)
      case Err(error) => Err(error)
      case Ok(yes) => Ok(if yes then candidate else None)
  }

  // ---------- the mailbox ----------

  datatype Offer = Offer(game: Key, body: string)

  datatype Turn = Turn(step: Option<Key>, body: string)

  datatype Boxes = Boxes(offers: map<Key, Offer>, turns: map<Key, Turn>, audits: Audits, consensus: Option<Envelope>)

  function PutOffer(b: Boxes, o: Offer): Boxes {
    match Coerce(o.game)
    case Ok(key) => b.(offers := b.offers[key := o])
    case Err(_) => b
  }

  function PutTurn(b: Boxes, t: Turn): Boxes {
    if t.step.None? then b
    else match Coerce(t.step.value)
      case Ok(key) => b.(turns := b.turns[key := t])
      case Err(_) => b
  }

  function PutAudit(b: Boxes, e: Envelope): Boxes {
    if IsConsensus(e) then b.(consensus := Some(e))
    else match Coerce(e.declared)
      case Ok(key) => b.(audits := b.audits[key := e])
      case Err(_) => b
  }

  class StdExchange {
    var offers: map<Key, Offer>
    var turns: map<Key, Turn>
    var audits: Audits
    var consensus: Option<Envelope>

    function View(): Boxes
      reads this
    {
      Boxes(offers, turns, audits, consensus)
    }

    constructor ()
      ensures View() == Boxes(map[], map[], map[], None)
    {
      offers, turns, audits, consensus := map[], map[], map[], None;
    }

    /** A message whose key cannot be read raises and leaves the mailbox as it was. */
    method RecordOffer(o: Offer) returns (raised: Option<Error>)
      modifies this
      ensures View() == PutOffer(old(View()), o)
      ensures raised.Some? <==> Coerce(o.game).Err?
    {
      var key := Coerce(o.game);
      if key.Err? {
        return Some(key.error);
      }
      offers := offers[key.value := o];
      raised := None;
    }

    method RecordTurn(t: Turn) returns (raised: Option<Error>)
      modifies this
      ensures View() == PutTurn(old(View()), t)
      ensures raised.Some? <==> t.step.None? || Coerce(t.step.value).Err?
    {
      if t.step.None? {
        return Some(MissingKey);
      }
      var key := Coerce(t.step.value);
      if key.Err? {
        return Some(key.error);
      }
      turns := turns[key.value := t];
      raised := None;
    }

    method ResetTurns()
      modifies this
      ensures View() == old(View()).(turns := map[])
    {
      turns := map[];
    }

    method RecordAudit(e: Envelope) returns (raised: Option<Error>)
      modifies this
      ensures View() == PutAudit(old(View()), e)
      ensures raised.Some? <==> !IsConsensus(e) && Coerce(e.declared).Err?
    {
      if IsConsensus(e) {
        consensus := Some(e);
        return None;
      }
      var key := Coerce(e.declared);
      if key.Err? {
        return Some(key.error);
      }
      audits := audits[key.value := e];
      raised := None;
    }
  }

  // ---------- waiting ----------

  /** The `i`-th look is the first that returns or raises, and this is what it does. */
  predicate SettledAt(looks: seq<Audits>, n: int, i: nat, out: Result<Option<Envelope>, Error>)
    requires i < |looks|
  {
    && (forall j :: 0 <= j < i ==> Look(looks[j], n) == Ok(None))
    && out == Look(looks[i], n) && out != Ok(None)
  }

  /** Polls the mailbox contents seen before the deadline; `Ok(None)` is the missed deadline.
      What it returns is never a consensus envelope and never names another sub-game. */
  method WaitForAudit(looks: seq<Audits>, n: int) returns (out: Result<Option<Envelope>, Error>)
    ensures out == Ok(None) <==> forall i :: 0 <= i < |looks| ==> Look(looks[i], n) == Ok(None)
    ensures out != Ok(None) ==> exists i :: 0 <= i < |looks| && SettledAt(looks, n, i, out)
    ensures out.Ok? && out.value.Some? ==> Acceptable(out.value.value, n)
  {
    for i := 0 to |looks|
      invariant forall j :: 0 <= j < i ==> Look(looks[j], n) == Ok(None)
    {
      var candidate: Option<Envelope> := None;
      if Number(n) in looks[i] {
        candidate := Some(looks[i][Number(n)]);
      }
      if candidate == None && Absent in looks[i] {
        candidate := Some(looks[i][Absent]);
      }
      if candidate.Some? {
        var belongs := BelongsTo(candidate.value, n);
        if belongs.Err? {
          out := Err(belongs.error);
          assert SettledAt(looks, n, i, out);
          return;
        }
        if belongs.value {
          out := Ok(candidate);
          assert SettledAt(looks, n, i, out);
          AnyNamesMeans(candidate.value.records, n);
          return;
        }
      }
    }
    out := Ok(None);
  }

  predicate NamesGame(r: Record, n: int) {
    RecordNumber(r) == Ok(Number(n))
  }

  /** Not a consensus envelope; declares sub-game `n`, or declares none and has no records or a
      record of sub-game `n`. */
  predicate Acceptable(e: Envelope, n: int) {
    && !IsConsensus(e)
    && (|| Coerce(e.declared) == Ok(Number(n))
        || (Coerce(e.declared) == Ok(Absent) && (e.records == [] || exists r :: r in e.records && NamesGame(r, n))))
  }

  lemma {:induction false} AnyNamesMeans(records: seq<Record>, n: int)
    ensures AnyNames(records, n) == Ok(true) ==> exists r :: r in records && NamesGame(r, n)
    ensures AnyNames(records, n) == Ok(false) ==> !exists r :: r in records && NamesGame(r, n)
  {
    if records != [] {
      AnyNamesMeans(records[1..], n);
      assert records == [records[0]] + records[1..];
      assert records[0] in records;
      if AnyNames(records, n) == Ok(true) && RecordNumber(records[0]) == Ok(Number(n)) {
        assert NamesGame(records[0], n);
      }
    }
  }

  /** Offers fall back to the unnumbered slot; turns do not. */
  method WaitForEitherKey<M>(looks: seq<map<Key, M>>, n: int) returns (out: Option<M>)
    ensures out.None? <==> forall i :: 0 <= i < |looks| ==> Number(n) !in looks[i] && Absent !in looks[i]
    ensures out.Some? ==> exists i :: 0 <= i < |looks| && EitherAt(looks, n, i, out.value)
  {
    for i := 0 to |looks|
      invariant forall j :: 0 <= j < i ==> Number(n) !in looks[j] && Absent !in looks[j]
    {
      if Number(n) in looks[i] {
        assert EitherAt(looks, n, i, looks[i][Number(n)]);
        return Some(looks[i][Number(n)]);
      }
      if Absent in looks[i] {
        assert EitherAt(looks, n, i, looks[i][Absent]);
        return Some(looks[i][Absent]);
      }
    }
    out := None;
  }

  ghost predicate EitherAt<M>(looks: seq<map<Key, M>>, n: int, i: nat, m: M)
    requires i < |looks|
  {
    && (forall j :: 0 <= j < i ==> Number(n) !in looks[j] && Absent !in looks[j])
    && (Number(n) in looks[i] || Absent in looks[i])
    && m == if Number(n) in looks[i] then looks[i][Number(n)] else looks[i][Absent]
  }

  // ---------- every history ----------

  const EMPTY := Boxes(map[], map[], map[], None)

  function AfterAudits(history: seq<Envelope>): Boxes {
    if history == [] then EMPTY else PutAudit(AfterAudits(history[..|history| - 1]), history[|history| - 1])
  }

  predicate FiledUnder(e: Envelope, key: Key) {
    !IsConsensus(e) && Coerce(e.declared) == Ok(key)
  }

  /** `e` is the latest of the history with property `P`. */
  ghost predicate Latest(history: seq<Envelope>, i: nat, matches: Envelope -> bool)
    requires i < |history|
  {
    matches(history[i]) && forall j :: i < j < |history| ==> !matches(history[j])
  }

  ghost predicate HoldsLatest(history: seq<Envelope>, slot: Option<Envelope>, matches: Envelope -> bool) {
    && (slot.None? <==> forall i :: 0 <= i < |history| ==> !matches(history[i]))
    && (slot.Some? ==> exists i :: 0 <= i < |history| && history[i] == slot.value && Latest(history, i, matches))
  }

  function SlotOf(audits: Audits, key: Key): Option<Envelope> {
    if key in audits then Some(audits[key]) else None
  }

  lemma HoldsLatestGrows(history: seq<Envelope>, slot: Option<Envelope>, matches: Envelope -> bool, e: Envelope)
    requires HoldsLatest(history, slot, matches)
    ensures HoldsLatest(history + [e], if matches(e) then Some(e) else slot, matches)
  {
    var longer := history + [e];
    if matches(e) {
      assert longer[|history|] == e && Latest(longer, |history|, matches);
    } else if slot.Some? {
      var i :| 0 <= i < |history| && history[i] == slot.value && Latest(history, i, matches);
      assert longer[i] == slot.value && Latest(longer, i, matches);
    } else {
      assert forall i :: 0 <= i < |longer| ==> longer[i] == if i < |history| then history[i] else e;
    }
  }

  /** After any history the mailbox holds the latest envelope for every key and, apart from
      them all, the latest consensus envelope: neither kind ever displaces the other. */
  lemma {:induction false} AuditsHoldTheLatest(history: seq<Envelope>, key: Key)
    ensures HoldsLatest(history, SlotOf(AfterAudits(history).audits, key), e => FiledUnder(e, key))
    ensures HoldsLatest(history, AfterAudits(history).consensus, e => IsConsensus(e))
  {
    if history != [] {
      var front, e := history[..|history| - 1], history[|history| - 1];
      AuditsHoldTheLatest(front, key);
      HoldsLatestGrows(front, SlotOf(AfterAudits(front).audits, key), e => FiledUnder(e, key), e);
      HoldsLatestGrows(front, AfterAudits(front).consensus, e => IsConsensus(e), e);
      assert history == front + [e];
    }
  }

  /** What is filed under a sub-game belongs to it, so the unnumbered slot is looked at only
      when the exact one is empty, never because it holds something else. */
  lemma {:induction false} ExactEntriesBelong(history: seq<Envelope>, n: int)
    ensures var audits := AfterAudits(history).audits;
            && (forall key :: key in audits ==> FiledUnder(audits[key], key))
            && (Number(n) in audits ==>
                  BelongsTo(audits[Number(n)], n) == Ok(true) && Look(audits, n) == Ok(Some(audits[Number(n)])))
  {
    if history != [] {
      ExactEntriesBelong(history[..|history| - 1], n);
    }
  }

  /** An envelope that declares its sub-game, as a number or as text, is found by the wait for
      it as long as nothing later was filed for the same sub-game: no consensus envelope and
      no unnumbered one in between can hide it. */
  lemma DeclaredEnvelopeIsFound(history: seq<Envelope>, i: nat, n: int)
    requires i < |history| && FiledUnder(history[i], Number(n))
    requires forall j :: i < j < |history| ==> !FiledUnder(history[j], Number(n))
    ensures Look(AfterAudits(history).audits, n) == Ok(Some(history[i]))
  {
    AuditsHoldTheLatest(history, Number(n));
    ExactEntriesBelong(history, n);
    var slot, matches := SlotOf(AfterAudits(history).audits, Number(n)), (e: Envelope) => FiledUnder(e, Number(n));
    assert matches(history[i]);
    var k :| 0 <= k < |history| && history[k] == slot.value && Latest(history, k, matches);
    assert matches(history[k]);
    assert k == i;
  }

  /** An envelope that names no sub-game is returned exactly when none is filed for the one
      waited for and its records are empty or one of them names it. */
  lemma UnnumberedIsReturnedExactly(history: seq<Envelope>, n: int, e: Envelope)
    requires Coerce(e.declared) == Ok(Absent)
    requires Absent in AfterAudits(history).audits && AfterAudits(history).audits[Absent] == e
    requires AnyNames(e.records, n).Ok?
    ensures Look(AfterAudits(history).audits, n) == Ok(Some(e)) <==>
            Number(n) !in AfterAudits(history).audits &&
            (e.records == [] || exists r :: r in e.records && NamesGame(r, n))
  {
    ExactEntriesBelong(history, n);
    AnyNamesMeans(e.records, n);
  }

  // ---------- offers and turns ----------

  /** Everything that can happen to the mailbox. */
  datatype Post = OfferPost(offer: Offer) | TurnPost(turn: Turn) | TurnsReset | AuditPost(envelope: Envelope)

  function AfterPost(b: Boxes, p: Post): Boxes {
    match p
    case OfferPost(offer) => PutOffer(b, offer)
    case TurnPost(turn) => PutTurn(b, turn)
    case TurnsReset => b.(turns := map[])
    case AuditPost(envelope) => PutAudit(b, envelope)
  }

  function AfterPosts(history: seq<Post>): Boxes {
    if history == [] then EMPTY else AfterPost(AfterPosts(history[..|history| - 1]), history[|history| - 1])
  }

  /** The `i`-th post matches, and none after it matches or wipes. */
  ghost predicate Current(history: seq<Post>, i: nat, matches: Post -> bool, wipes: Post -> bool)
    requires i < |history|
  {
    matches(history[i]) && forall j :: i < j < |history| ==> !matches(history[j]) && !wipes(history[j])
  }

  ghost predicate HoldsCurrent(history: seq<Post>, slot: Option<Post>, matches: Post -> bool, wipes: Post -> bool) {
    && (slot.None? <==> forall i :: 0 <= i < |history| ==> !Current(history, i, matches, wipes))
    && (slot.Some? ==> exists i :: 0 <= i < |history| && history[i] == slot.value && Current(history, i, matches, wipes))
  }

  lemma CurrentGrows(history: seq<Post>, i: nat, matches: Post -> bool, wipes: Post -> bool, p: Post)
    requires i < |history|
    ensures Current(history + [p], i, matches, wipes) <==> Current(history, i, matches, wipes) && !matches(p) && !wipes(p)
  {
    var longer := history + [p];
    assert longer[|history|] == p && forall j :: 0 <= j < |history| ==> longer[j] == history[j];
  }

  lemma HoldsCurrentGrows(history: seq<Post>, slot: Option<Post>, matches: Post -> bool, wipes: Post -> bool, p: Post)
    requires HoldsCurrent(history, slot, matches, wipes) && !(matches(p) && wipes(p))
    ensures HoldsCurrent(history + [p], if matches(p) then Some(p) else if wipes(p) then None else slot, matches, wipes)
  {
    var longer := history + [p];
    assert longer[|history|] == p;
    assert Current(longer, |history|, matches, wipes) <==> matches(p);
    forall i | 0 <= i < |history|
      ensures Current(longer, i, matches, wipes) <==> Current(history, i, matches, wipes) && !matches(p) && !wipes(p)
      ensures longer[i] == history[i]
    {
      CurrentGrows(history, i, matches, wipes, p);
    }
    hide Current;
    if !matches(p) && !wipes(p) && slot.Some? {
      var i :| 0 <= i < |history| && history[i] == slot.value && Current(history, i, matches, wipes);
      assert longer[i] == slot.value;
    }
  }

  predicate OfferFor(p: Post, key: Key) {
    p.OfferPost? && Coerce(p.offer.game) == Ok(key)
  }

  predicate TurnFor(p: Post, key: Key) {
    p.TurnPost? && p.turn.step.Some? && Coerce(p.turn.step.value) == Ok(key)
  }

  function OfferSlot(b: Boxes, key: Key): Option<Post> {
    if key in b.offers then Some(OfferPost(b.offers[key])) else None
  }

  function TurnSlot(b: Boxes, key: Key): Option<Post> {
    if key in b.turns then Some(TurnPost(b.turns[key])) else None
  }

  lemma SlotAfter(b: Boxes, p: Post, key: Key)
    ensures OfferSlot(AfterPost(b, p), key) == if OfferFor(p, key) then Some(p) else OfferSlot(b, key)
    ensures TurnSlot(AfterPost(b, p), key) == if TurnFor(p, key) then Some(p) else if p.TurnsReset? then None else TurnSlot(b, key)
  {
    hide Coerce;
  }

  /** After any history each sub-game key holds its latest offer, which nothing else removes, and
      each step key the latest turn recorded for it since the turns were last reset. */
  lemma {:induction false} SlotsHoldTheLatest(history: seq<Post>, key: Key)
    ensures HoldsCurrent(history, OfferSlot(AfterPosts(history), key), p => OfferFor(p, key), p => false)
    ensures HoldsCurrent(history, TurnSlot(AfterPosts(history), key), p => TurnFor(p, key), (p: Post) => p.TurnsReset?)
  {
    if history != [] {
      var front, p := history[..|history| - 1], history[|history| - 1];
      SlotsHoldTheLatest(front, key);
      SlotAfter(AfterPosts(front), p, key);
      hide AfterPost, OfferFor, TurnFor, OfferSlot, TurnSlot, HoldsCurrent;
      assert !(TurnFor(p, key) && p.TurnsReset?) by { TurnIsNoReset(p, key); }
      HoldsCurrentGrows(front, OfferSlot(AfterPosts(front), key), p => OfferFor(p, key), p => false, p);
      HoldsCurrentGrows(front, TurnSlot(AfterPosts(front), key), p => TurnFor(p, key), (p: Post) => p.TurnsReset?, p);
      assert history == front + [p];
    }
  }

  lemma TurnIsNoReset(p: Post, key: Key)
    ensures TurnFor(p, key) ==> !p.TurnsReset?
  {
  }

  /** Where a record may name its sub-game, the first place that does decides. */
  lemma FirstNameDecides(r: Record, inPayload: Key, short: Key)
    ensures r.top != Absent ==> RecordNumber(r) == RecordNumber(Record(r.top, inPayload, short))
    ensures r.top == Absent && r.inPayload != Absent ==> RecordNumber(r) == RecordNumber(Record(Absent, r.inPayload, short))
    ensures RecordNumber(Record(short, Absent, Absent)) == RecordNumber(Record(Absent, short, Absent))
         == RecordNumber(Record(Absent, Absent, short)) == Coerce(short)
  {
    hide Coerce;
  }
}
