/** The commitment over canonical JSON: what is hashed, why it binds payload and nonce, and
    what a clean audit says about the records disclosed. The hash itself is any injective
    function. */
module Crypto {
  import opened Options
  import opened Geometry
  import opened Turns
  import opened Json
  import Audit

  /** The hashed text: the canonical payload, one pipe, the raw nonce. */
  function Preimage(payload: Value, nonce: string): string {
    Canonical(payload) + "|" + nonce
  }

  /** No two pairs of payload and nonce share a preimage, whatever the nonces contain; key
      order is all the preimage forgets. */
  lemma PreimageUnambiguous(p1: Value, n1: string, p2: Value, n2: string)
    requires WellFormed(p1) && WellFormed(p2)
    ensures Preimage(p1, n1) == Preimage(p2, n2) <==> Normal(p1) == Normal(p2) && n1 == n2
  {
    assert Preimage(p1, n1) == Canonical(p1) + ("|" + n1) && Preimage(p2, n2) == Canonical(p2) + ("|" + n2);
    CanonicalUnambiguous(p1, "|" + n1, p2, "|" + n2);
    assert ("|" + n1)[1..] == n1 && ("|" + n2)[1..] == n2;
  }

  ghost predicate Injective<D(!new)>(hash: string -> D) {
    forall s, t :: hash(s) == hash(t) ==> s == t
  }

  function CommitOf<D>(hash: string -> D, payload: Value, nonce: string): D {
    hash(Preimage(payload, nonce))
  }

  function SchemeFor<K, D>(hash: string -> D, stepOf: Value -> Option<K>, isDeclaration: Value -> bool)
    : Audit.Scheme<Value, K, D>
  {
    Audit.Scheme((p, n) => CommitOf(hash, p, n), stepOf, isDeclaration)
  }

  /** The disclosed record is what was sealed live for the step it names. */
  ghost predicate AsSealed<K, D>(stepOf: Value -> Option<K>, live: Audit.Live<Value, K>, r: Audit.Record<Value, D>) {
    && r.payload.Some?
    && stepOf(r.payload.value).Some?
    && var step := stepOf(r.payload.value).value;
    && step in live
    && Normal(r.payload.value) == Normal(live[step].0)
    && r.nonce == Some(live[step].1)
  }

  /** The audit over hashed JSON is clean exactly when every disclosed record is, up to key
      order, the payload and the nonce committed to live for the step it names. */
  lemma CleanAuditMeansAsSealed<K, D(!new)>(hash: string -> D, stepOf: Value -> Option<K>, isDeclaration: Value -> bool,
                                      live: Audit.Live<Value, K>, commits: map<K, D>,
                                      records: seq<Audit.Record<Value, D>>)
    requires Injective(hash)
    requires commits.Keys == live.Keys
    requires forall s :: s in live ==> WellFormed(live[s].0) && commits[s] == CommitOf(hash, live[s].0, live[s].1)
    requires forall r :: r in records && r.payload.Some? ==> WellFormed(r.payload.value)
    ensures Audit.Mismatched(SchemeFor(hash, stepOf, isDeclaration), commits, records) == [] <==>
            forall r :: r in records ==> AsSealed(stepOf, live, r)
  {
    var scheme := SchemeFor(hash, stepOf, isDeclaration);
    Audit.CleanExactly(scheme, commits, records);
    forall r | r in records
      ensures Audit.Matches(scheme, commits, r) <==> AsSealed(stepOf, live, r)
    {
      var step := Audit.StepOf(scheme, r);
      if step.Some? && step.value in live && r.nonce.Some? {
        var sealed := live[step.value];
        PreimageUnambiguous(r.payload.value, r.nonce.value, sealed.0, sealed.1);
        assert scheme.commitOf(r.payload.value, r.nonce.value) == hash(Preimage(r.payload.value, r.nonce.value));
      }
    }
  }

  // ---------- the payloads of this program ----------

  type Field = (string, Value)

  function Dict(fields: seq<Field>): Members {
    if fields == [] then NoMembers else Member(fields[0].0, fields[0].1, Dict(fields[1..]))
  }

  predicate DistinctKeys(fields: seq<Field>) {
    forall i, j :: 0 <= i < j < |fields| ==> fields[i].0 != fields[j].0
  }

  lemma {:induction false} DictKeys(fields: seq<Field>, key: string)
    ensures HasKey(Dict(fields), key) <==> exists i :: 0 <= i < |fields| && fields[i].0 == key
  {
    if fields != [] {
      DictKeys(fields[1..], key);
      assert forall i :: 0 < i < |fields| ==> fields[i] == fields[1..][i - 1];
    }
  }

  lemma {:induction false} DictWellFormed(fields: seq<Field>)
    requires DistinctKeys(fields) && forall i :: 0 <= i < |fields| ==> WellFormed(fields[i].1)
    ensures WellFormedMembers(Dict(fields))
  {
    if fields != [] {
      DictWellFormed(fields[1..]);
      DictKeys(fields[1..], fields[0].0);
    }
  }

  lemma {:induction false} DictAt(fields: seq<Field>, i: nat)
    requires DistinctKeys(fields) && i < |fields|
    ensures Lookup(Dict(fields), fields[i].0) == Some(fields[i].1)
  {
    if 0 < i {
      DictAt(fields[1..], i - 1);
    }
  }

  /** Dictionaries over the same distinct keys have one normal form only if each field has. */
  lemma SameFields(a: seq<Field>, b: seq<Field>, i: nat)
    requires |a| == |b| && i < |a| && DistinctKeys(a) && DistinctKeys(b) && a[i].0 == b[i].0
    requires forall j :: 0 <= j < |a| ==> WellFormed(a[j].1) && WellFormed(b[j].1)
    requires Normal(Obj(Dict(a))) == Normal(Obj(Dict(b)))
    ensures Normal(a[i].1) == Normal(b[i].1)
  {
    DictWellFormed(a);
    DictWellFormed(b);
    NormalForgetsOrder(Dict(a), Dict(b));
    DictAt(a, i);
    DictAt(b, i);
    assert NormalAt(Dict(a), a[i].0) == NormalAt(Dict(b), a[i].0);
  }

  function RoleJson(role: Role): Value {
    Str(if role.Thief? then "thief" else "police")
  }

  function MoveJson(move: Option<Direction>): Value {
    Str(match move
        case None => "STAY"
        case Some(d) => match d case N => "N" case S => "S" case E => "E" case W => "W")
  }

  function CellJson(cell: Cell): Value {
    Arr(Item(Int(cell.0), Item(Int(cell.1), NoItems)))
  }

  function OptionalCell(cell: Option<Cell>): Value {
    if cell.None? then Null else CellJson(cell.value)
  }

  function ResponseFields(r: ClaimResponse): seq<Field> {
    [("claim", CellJson(r.claim)), ("caught", Bool(r.caught))]
  }

  function ResponseJson(r: Option<ClaimResponse>): Value {
    if r.None? then Null else Obj(Dict(ResponseFields(r.value)))
  }

  const SURVIVAL: seq<Field> := [("type", Str("survival"))]

  function WinJson(win: bool): Value {
    if win then Obj(Dict(SURVIVAL)) else Null
  }

  type Snapshot = map<Cell, real>

  /** How a scent snapshot becomes JSON. */
  type GridJson = Snapshot -> Value

  /** Snapshots in `shown` become well-formed values that keep them apart from one another. No
      encoding does so for all snapshots, of which there are more than texts; the ones shown
      are those whose values the runtime can print. */
  ghost predicate Faithful(grid: GridJson, shown: iset<Snapshot>) {
    && (forall smell :: smell in shown ==> WellFormed(grid(smell)))
    && (forall a, b :: a in shown && b in shown && Normal(grid(a)) == Normal(grid(b)) ==> a == b)
  }

  ghost predicate Printable(shown: iset<Snapshot>, p: Payload) {
    p.Turn? ==> p.smell in shown
  }

  function PayloadFields(grid: GridJson, p: Payload): seq<Field> {
    match p
    case Declaration(declarer, commit) =>
      [("type", Str("system_spec")), ("sender", RoleJson(declarer)),
       ("github_commit", if commit.None? then Null else Str(commit.value))]
    case Turn(step, sender, move, hint, smell, barrier, claim, response, win) =>
      [("step", Int(step)), ("sender", RoleJson(sender)), ("move", MoveJson(move)), ("hint", Str(hint)),
       ("smell_grid", grid(smell)), ("barrier_placed", OptionalCell(barrier)), ("capture_claim", OptionalCell(claim)),
       ("claim_response", ResponseJson(response)), ("win_claim", WinJson(win))]
  }

  function PayloadJson(grid: GridJson, p: Payload): Value {
    Obj(Dict(PayloadFields(grid, p)))
  }

  lemma CellIsNormal(c: Cell)
    ensures WellFormed(CellJson(c)) && Normal(CellJson(c)) == CellJson(c)
  {
    var column := Item(Int(c.1), NoItems);
    assert WellFormedItems(NoItems) && NormalItems(NoItems) == NoItems;
    assert WellFormed(Int(c.1)) && WellFormedItems(column) && NormalItems(column) == column;
    var cell := Item(Int(c.0), column);
    assert WellFormed(Int(c.0)) && WellFormedItems(cell);
    assert NormalItems(cell) == Item(Normal(Int(c.0)), NormalItems(column));
    assert NormalItems(cell) == cell;
  }

  lemma CellInjective(c: Cell, d: Cell)
    ensures WellFormed(CellJson(c))
    ensures Normal(CellJson(c)) == Normal(CellJson(d)) ==> c == d
  {
    CellIsNormal(c);
    CellIsNormal(d);
  }

  lemma OptionalCellInjective(c: Option<Cell>, d: Option<Cell>)
    ensures WellFormed(OptionalCell(c))
    ensures Normal(OptionalCell(c)) == Normal(OptionalCell(d)) ==> c == d
  {
    if c.Some? {
      CellInjective(c.value, c.value);
    }
    if c.Some? && d.Some? {
      CellInjective(c.value, d.value);
    }
  }

  lemma MoveInjective(m: Option<Direction>, n: Option<Direction>)
    requires MoveJson(m) == MoveJson(n)
    ensures m == n
  {
  }

  lemma ResponseFieldsWellFormed(r: ClaimResponse)
    ensures DistinctKeys(ResponseFields(r)) && WellFormedMembers(Dict(ResponseFields(r)))
    ensures forall i :: 0 <= i < 2 ==> WellFormed(ResponseFields(r)[i].1)
  {
    CellInjective(r.claim, r.claim);
    DictWellFormed(ResponseFields(r));
  }

  lemma ResponseInjective(r: Option<ClaimResponse>, s: Option<ClaimResponse>)
    ensures WellFormed(ResponseJson(r))
    ensures Normal(ResponseJson(r)) == Normal(ResponseJson(s)) ==> r == s
  {
    if r.Some? {
      ResponseFieldsWellFormed(r.value);
    }
    if r.Some? && s.Some? && Normal(ResponseJson(r)) == Normal(ResponseJson(s)) {
      ResponseFieldsWellFormed(s.value);
      SameFields(ResponseFields(r.value), ResponseFields(s.value), 0);
      SameFields(ResponseFields(r.value), ResponseFields(s.value), 1);
      CellInjective(r.value.claim, s.value.claim);
    }
  }

  lemma WinWellFormed(win: bool)
    ensures WellFormed(WinJson(win))
  {
    DictWellFormed(SURVIVAL);
  }

  lemma PayloadKeys(grid: GridJson, p: Payload)
    ensures var fields := PayloadFields(grid, p);
            && DistinctKeys(fields) && |fields| == (if p.Turn? then 9 else 3)
            && (p.Turn? ==> forall i :: 0 <= i < |fields| ==> fields[i].0 != "type")
  {
    hide OptionalCell, ResponseJson, WinJson, MoveJson, RoleJson;
  }

  lemma PayloadFieldsWellFormed(grid: GridJson, shown: iset<Snapshot>, p: Payload)
    requires Faithful(grid, shown) && Printable(shown, p)
    ensures var fields := PayloadFields(grid, p);
            DistinctKeys(fields) && (forall i :: 0 <= i < |fields| ==> WellFormed(fields[i].1))
    ensures WellFormed(PayloadJson(grid, p))
  {
    hide OptionalCell, ResponseJson, DistinctKeys, Dict;
    PayloadKeys(grid, p);
    if p.Turn? {
      OptionalCellInjective(p.barrier, p.barrier);
      OptionalCellInjective(p.claim, p.claim);
      ResponseInjective(p.response, p.response);
      assert WellFormed(WinJson(p.win)) by {
        WinWellFormed(p.win);
      }
    }
    DictWellFormed(PayloadFields(grid, p));
  }

  /** Only a declaration has a `type`, so the two kinds of payload never share a normal form. */
  lemma KindsDiffer(grid: GridJson, shown: iset<Snapshot>, p: Payload, q: Payload)
    requires Faithful(grid, shown) && Printable(shown, p) && Printable(shown, q) && p.Declaration? && q.Turn?
    ensures Normal(PayloadJson(grid, p)) != Normal(PayloadJson(grid, q))
  {
    hide Normal, DistinctKeys;
    var a, b := PayloadFields(grid, p), PayloadFields(grid, q);
    PayloadKeys(grid, q);
    PayloadFieldsWellFormed(grid, shown, p);
    PayloadFieldsWellFormed(grid, shown, q);
    NormalForgetsOrder(Dict(a), Dict(b));
    DictAt(a, 0);
    DictKeys(b, "type");
    LookupFinds(Dict(b), "type");
    assert NormalAt(Dict(a), "type").Some? && NormalAt(Dict(b), "type").None?;
  }

  lemma TurnFieldAgrees(grid: GridJson, shown: iset<Snapshot>, p: Payload, q: Payload, i: nat)
    requires Faithful(grid, shown) && Printable(shown, p) && Printable(shown, q) && p.Turn? && q.Turn? && i < 9
    requires Normal(PayloadJson(grid, p)) == Normal(PayloadJson(grid, q))
    ensures Normal(PayloadFields(grid, p)[i].1) == Normal(PayloadFields(grid, q)[i].1)
  {
    hide Dict, DistinctKeys, Normal;
    var a, b := PayloadFields(grid, p), PayloadFields(grid, q);
    PayloadFieldsWellFormed(grid, shown, p);
    PayloadFieldsWellFormed(grid, shown, q);
    assert a[i].0 == b[i].0;
    SameFields(a, b, i);
  }

  lemma TurnScalarsInjective(grid: GridJson, shown: iset<Snapshot>, p: Payload, q: Payload)
    requires Faithful(grid, shown) && Printable(shown, p) && Printable(shown, q) && p.Turn? && q.Turn?
    requires Normal(PayloadJson(grid, p)) == Normal(PayloadJson(grid, q))
    ensures p.step == q.step && p.sender == q.sender && p.hint == q.hint && p.smell == q.smell && p.win == q.win
  {
    hide OptionalCell, ResponseJson, MoveJson, PayloadJson;
    assert p.step == q.step by { TurnFieldAgrees(grid, shown, p, q, 0); }
    assert p.sender == q.sender by { TurnFieldAgrees(grid, shown, p, q, 1); }
    assert p.hint == q.hint by { TurnFieldAgrees(grid, shown, p, q, 3); }
    assert p.smell == q.smell by { TurnFieldAgrees(grid, shown, p, q, 4); }
    assert p.win == q.win by { TurnFieldAgrees(grid, shown, p, q, 8); }
  }

  lemma TurnInjective(grid: GridJson, shown: iset<Snapshot>, p: Payload, q: Payload)
    requires Faithful(grid, shown) && Printable(shown, p) && Printable(shown, q) && p.Turn? && q.Turn?
    requires Normal(PayloadJson(grid, p)) == Normal(PayloadJson(grid, q))
    ensures p == q
  {
    hide OptionalCell, ResponseJson, WinJson, PayloadJson;
    TurnScalarsInjective(grid, shown, p, q);
    assert p.move == q.move by {
      TurnFieldAgrees(grid, shown, p, q, 2);
      MoveInjective(p.move, q.move);
    }
    assert p.barrier == q.barrier by {
      TurnFieldAgrees(grid, shown, p, q, 5);
      OptionalCellInjective(p.barrier, q.barrier);
    }
    assert p.claim == q.claim by {
      TurnFieldAgrees(grid, shown, p, q, 6);
      OptionalCellInjective(p.claim, q.claim);
    }
    assert p.response == q.response by {
      TurnFieldAgrees(grid, shown, p, q, 7);
      ResponseInjective(p.response, q.response);
    }
  }

  lemma PayloadInjective(grid: GridJson, shown: iset<Snapshot>, p: Payload, q: Payload)
    requires Faithful(grid, shown) && Printable(shown, p) && Printable(shown, q)
    ensures Normal(PayloadJson(grid, p)) == Normal(PayloadJson(grid, q)) <==> p == q
  {
    if p.Declaration? && q.Turn? {
      KindsDiffer(grid, shown, p, q);
    } else if p.Turn? && q.Declaration? {
      KindsDiffer(grid, shown, q, p);
    } else if Normal(PayloadJson(grid, p)) == Normal(PayloadJson(grid, q)) {
      if p.Turn? {
        TurnInjective(grid, shown, p, q);
      } else {
        var a, b := PayloadFields(grid, p), PayloadFields(grid, q);
        PayloadFieldsWellFormed(grid, shown, p);
        PayloadFieldsWellFormed(grid, shown, q);
        SameFields(a, b, 1);
        SameFields(a, b, 2);
      }
    }
  }

  /** The hex commit of what one turn seals. */
  function SealedCommit<D>(hash: string -> D, grid: GridJson, s: Sealed): D {
    CommitOf(hash, PayloadJson(grid, s.payload), s.nonce)
  }

  /** The hashed commit identifies every field of the payload, the hidden move among them,
      and the nonce: what the protocol modules take a commit to be. */
  lemma SealedCommitBinds<D(!new)>(hash: string -> D, grid: GridJson, shown: iset<Snapshot>, s: Sealed, t: Sealed)
    requires Injective(hash) && Faithful(grid, shown)
    requires Printable(shown, s.payload) && Printable(shown, t.payload)
    ensures SealedCommit(hash, grid, s) == SealedCommit(hash, grid, t) <==> Commit(s) == Commit(t)
  {
    PayloadFieldsWellFormed(grid, shown, s.payload);
    PayloadFieldsWellFormed(grid, shown, t.payload);
    PreimageUnambiguous(PayloadJson(grid, s.payload), s.nonce, PayloadJson(grid, t.payload), t.nonce);
    PayloadInjective(grid, shown, s.payload, t.payload);
  }

  // ---------- the payloads as a reader finds them ----------

  const TURN_KEYS: seq<string> := [
    "step", "sender", "move", "hint", "smell_grid", "barrier_placed", "capture_claim", "claim_response", "win_claim"]

  /** A cell as a pair of numbers, or null. */
  predicate ReadsAsCell(v: Option<Value>, cell: Option<Cell>) {
    v == Some(match cell
              case None => Null
              case Some(at) => Arr(Item(Int(at.0), Item(Int(at.1), NoItems))))
  }

  predicate ReadsAsResponse(v: Option<Value>, response: Option<ClaimResponse>) {
    match response
    case None => v == Some(Null)
    case Some(r) =>
      && v.Some? && v.value.Obj?
      && ReadsAsCell(Lookup(v.value.members, "claim"), Some(r.claim))
      && Lookup(v.value.members, "caught") == Some(Bool(r.caught))
  }

  lemma ResponseReads(response: Option<ClaimResponse>)
    ensures ReadsAsResponse(Some(ResponseJson(response)), response)
  {
    if response.Some? {
      DictAt(ResponseFields(response.value), 0);
      DictAt(ResponseFields(response.value), 1);
    }
  }

  /** What the hashed dictionary of a turn holds, key by key, and that it holds nothing else. */
  lemma TurnReads(grid: GridJson, p: Payload)
    requires p.Turn?
    ensures PayloadJson(grid, p).Obj?
    ensures var m := PayloadJson(grid, p).members;
            && (forall key :: HasKey(m, key) <==> key in TURN_KEYS)
            && Lookup(m, "step") == Some(Int(p.step))
            && Lookup(m, "sender") == Some(Str(if p.sender.Thief? then "thief" else "police"))
            && Lookup(m, "move") == Some(Str(match p.move
                                             case None => "STAY"
                                             case Some(N) => "N" case Some(S) => "S" case Some(E) => "E" case Some(W) => "W"))
            && Lookup(m, "hint") == Some(Str(p.hint)) && Lookup(m, "smell_grid") == Some(grid(p.smell))
            && ReadsAsCell(Lookup(m, "barrier_placed"), p.barrier) && ReadsAsCell(Lookup(m, "capture_claim"), p.claim)
            && ReadsAsResponse(Lookup(m, "claim_response"), p.response)
            && (if p.win then Lookup(m, "win_claim") == Some(Obj(Member("type", Str("survival"), NoMembers)))
                else Lookup(m, "win_claim") == Some(Null))
  {
    var fields := PayloadFields(grid, p);
    PayloadKeys(grid, p);
    ResponseReads(p.response);
    assert p.win ==> WinJson(p.win) == Obj(Member("type", Str("survival"), NoMembers)) by {
      assert SURVIVAL[1..] == [];
    }
    hide ResponseJson, Dict, WinJson, DistinctKeys, ReadsAsResponse;
    forall i | 0 <= i < 9 ensures Lookup(Dict(fields), fields[i].0) == Some(fields[i].1) && fields[i].0 == TURN_KEYS[i] {
      DictAt(fields, i);
    }
    forall key ensures HasKey(Dict(fields), key) <==> key in TURN_KEYS {
      DictKeys(fields, key);
      assert forall i :: 0 <= i < 9 ==> fields[i].0 == TURN_KEYS[i];
    }
    assert fields[0].0 == "step" && fields[1].0 == "sender" && fields[2].0 == "move" && fields[3].0 == "hint";
    assert fields[4].0 == "smell_grid" && fields[5].0 == "barrier_placed" && fields[6].0 == "capture_claim";
    assert fields[7].0 == "claim_response" && fields[8].0 == "win_claim";
  }

  lemma OneLetter(c: char, rest: string)
    requires 32 <= c as int && c != '\"' && c != '\\'
    ensures EmitString([c], rest) == ['\"', c, '\"'] + rest
  {
    assert [c][1..] == [];
    assert EmitEscaped([], ['\"'] + rest) == ['\"'] + rest;
    assert EmitEscaped([c], ['\"'] + rest) == [c] + (['\"'] + rest);
  }

  /** What is hashed, spelled out: the canonical text without blanks, a pipe, the nonce. */
  lemma PreimageSpelledOut()
    ensures Preimage(Obj(Member("a", Int(-7), NoMembers)), "n|1") == "{\"a\":-7}|n|1"
  {
    var a := Member("a", Int(-7), NoMembers);
    assert Normal(Obj(a)) == Obj(a);
    var end := ['}'] + "";
    var seven := Emit(Int(-7), EmitMembers(NoMembers, false, end));
    assert seven == "-7}" by {
      assert Digits(7) == "7";
    }
    OneLetter('a', [':'] + seven);
    assert "a" == ['a'];
    assert EmitMembers(a, true, end) == ['\"', 'a', '\"'] + ([':'] + seven);
  }
}
