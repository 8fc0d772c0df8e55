/** The record a Thief keeps of a Cop peer's commit and reveal stream, and the audit that
    replays it: every commit must be the seal of the state the revealed moves lead to, and
    every capture claim must name the position replayed there. */
module CopTrace {
  import opened Options

  const BARRIER := "place_barrier"

  /** A revealed move. `direction` and the coordinates are read only for the kind they belong to. */
  datatype CopMove = CopMove(kind: string, direction: Option<string>, col: int, row: int)

  /** One step of the peer; every part arrives in its own message and may be missing. */
  datatype Entry = Entry(hCommit: Option<string>, move: Option<CopMove>, hint: Option<string>, nonce: Option<string>,
                         intent: Option<bool>)

  const BLANK := Entry(None, None, None, None, None)

  datatype Claim = Claim(step: int, thiefRow: int, thiefCol: int, copRow: int, copCol: int, confirmed: bool)

  /** Where the peer stands and what it has placed. The audited state lists its barriers in
      sorted order, so only how often each was placed matters. */
  datatype Site = Site(col: int, row: int, barriers: multiset<(int, int)>)

  /** What the peer seals at one step. */
  datatype Sealed = Sealed(site: Site, step: int, move: CopMove, intent: bool, hint: string, nonce: string)

  /** The commitment function: canonical JSON with the nonce inside, hashed. */
  type Seal = Sealed -> string

  // ---------- replay ----------

  function Delta(direction: string): (int, int) {
    if direction == "N" then (0, -1)
    else if direction == "S" then (0, 1)
    else if direction == "E" then (1, 0)
    else if direction == "W" then (-1, 0)
    else (0, 0)
  }

  predicate InGrid(size: int, site: Site) {
    0 <= site.col < size && 0 <= site.row < size
  }

  function Apply(size: int, site: Site, move: CopMove): Site {
    if move.kind == BARRIER then site.(barriers := site.barriers + multiset{(move.col, move.row)})
    else
      var d := Delta(move.direction.GetOr("STAY"));
      var there := site.(col := site.col + d.0, row := site.row + d.1);
      if InGrid(size, there) then there else site
  }

  type Entries = map<int, Entry>

  predicate Complete(e: Entry) {
    e.hCommit.Some? && e.move.Some? && e.nonce.Some?
  }

  predicate HoldsAll(entries: Entries, steps: seq<int>) {
    forall i :: 0 <= i < |steps| ==> steps[i] in entries
  }

  /** The site after the complete entries of `steps`, in that order. */
  function Replay(size: int, start: Site, entries: Entries, steps: seq<int>): Site
    requires HoldsAll(entries, steps)
  {
    if steps == [] then start
    else
      var before := Replay(size, start, entries, steps[..|steps| - 1]);
      var e := entries[steps[|steps| - 1]];
      if Complete(e) then Apply(size, before, e.move.value) else before
  }

  lemma {:induction false} ReplayStaysInGrid(size: int, start: Site, entries: Entries, steps: seq<int>)
    requires HoldsAll(entries, steps) && InGrid(size, start)
    ensures InGrid(size, Replay(size, start, entries, steps))
  {
    if steps != [] {
      ReplayStaysInGrid(size, start, entries, steps[..|steps| - 1]);
    }
  }

  // ---------- where the moves lead ----------

  /** The moves of the complete entries, in the order replayed. */
  function MovesOf(entries: Entries, steps: seq<int>): seq<CopMove>
    requires HoldsAll(entries, steps)
  {
    if steps == [] then []
    else
      var before, e := MovesOf(entries, steps[..|steps| - 1]), entries[steps[|steps| - 1]];
      if Complete(e) then before + [e.move.value] else before
  }

  /** How many of the moves are steps in one direction. */
  function Heading(moves: seq<CopMove>, direction: string): nat {
    if moves == [] then 0
    else
      var last := moves[|moves| - 1];
      Heading(moves[..|moves| - 1], direction) + (if last.kind != BARRIER && last.direction == Some(direction) then 1 else 0)
  }

  /** The coordinates barriers were placed at. */
  function Placed(moves: seq<CopMove>): multiset<(int, int)> {
    if moves == [] then multiset{}
    else
      var last := moves[|moves| - 1];
      Placed(moves[..|moves| - 1]) + (if last.kind == BARRIER then multiset{(last.col, last.row)} else multiset{})
  }

  /** Columns grow to the east and rows to the south. */
  function NetSite(start: Site, moves: seq<CopMove>): Site {
    Site(start.col + Heading(moves, "E") - Heading(moves, "W"), start.row + Heading(moves, "S") - Heading(moves, "N"),
         start.barriers + Placed(moves))
  }

  /** Counting the moves never leads off the grid. */
  ghost predicate NeverLeaves(size: int, start: Site, moves: seq<CopMove>) {
    forall n :: 0 <= n <= |moves| ==> InGrid(size, NetSite(start, moves[..n]))
  }

  /** One step away from a border moves by one cell, a step off the grid leaves the position, and
      so do a barrier and any other direction. */
  lemma MoveExactly(size: int, site: Site, move: CopMove)
    requires InGrid(size, site)
    ensures var after := Apply(size, site, move);
            if move.kind == BARRIER then after == Site(site.col, site.row, site.barriers + multiset{(move.col, move.row)})
            else if move.direction == Some("N") then after == site.(row := if 0 < site.row then site.row - 1 else 0)
            else if move.direction == Some("S") then after == site.(row := if site.row < size - 1 then site.row + 1 else size - 1)
            else if move.direction == Some("E") then after == site.(col := if site.col < size - 1 then site.col + 1 else size - 1)
            else if move.direction == Some("W") then after == site.(col := if 0 < site.col then site.col - 1 else 0)
            else after == site
  {
  }

  lemma NeverLeavesBefore(size: int, start: Site, moves: seq<CopMove>)
    requires NeverLeaves(size, start, moves) && moves != []
    ensures NeverLeaves(size, start, moves[..|moves| - 1])
  {
    hide NetSite, InGrid;
    var front := moves[..|moves| - 1];
    assert forall n :: 0 <= n <= |front| ==> front[..n] == moves[..n];
  }

  lemma NetStep(size: int, start: Site, moves: seq<CopMove>)
    requires moves != [] && InGrid(size, NetSite(start, moves[..|moves| - 1])) && InGrid(size, NetSite(start, moves))
    ensures Apply(size, NetSite(start, moves[..|moves| - 1]), moves[|moves| - 1]) == NetSite(start, moves)
  {
    var front, last := moves[..|moves| - 1], moves[|moves| - 1];
    MoveExactly(size, NetSite(start, front), last);
    assert start.barriers + Placed(moves) ==
           start.barriers + Placed(front) + (if last.kind == BARRIER then multiset{(last.col, last.row)} else multiset{});
    hide Apply;
  }

  lemma NetInside(size: int, start: Site, moves: seq<CopMove>)
    requires NeverLeaves(size, start, moves) && moves != []
    ensures InGrid(size, NetSite(start, moves[..|moves| - 1])) && InGrid(size, NetSite(start, moves))
  {
    hide NetSite, InGrid;
    assert moves[..|moves|] == moves;
  }

  function Walk(size: int, start: Site, moves: seq<CopMove>): Site {
    if moves == [] then start else Apply(size, Walk(size, start, moves[..|moves| - 1]), moves[|moves| - 1])
  }

  lemma {:induction false} ReplayIsWalk(size: int, start: Site, entries: Entries, steps: seq<int>)
    requires HoldsAll(entries, steps)
    ensures Replay(size, start, entries, steps) == Walk(size, start, MovesOf(entries, steps))
  {
    if steps != [] {
      hide Apply;
      var front, e := steps[..|steps| - 1], entries[steps[|steps| - 1]];
      ReplayIsWalk(size, start, entries, front);
      if Complete(e) {
        assert (MovesOf(entries, front) + [e.move.value])[..|MovesOf(entries, front)|] == MovesOf(entries, front);
      }
    }
  }

  lemma {:induction false} WalkPlaces(size: int, start: Site, moves: seq<CopMove>)
    ensures Walk(size, start, moves).barriers == start.barriers + Placed(moves)
  {
    if moves == [] {
      assert start.barriers + multiset{} == start.barriers;
    } else {
      WalkPlaces(size, start, moves[..|moves| - 1]);
    }
  }

  lemma {:induction false} WalkByCounts(size: int, start: Site, moves: seq<CopMove>)
    requires NeverLeaves(size, start, moves)
    ensures Walk(size, start, moves) == NetSite(start, moves)
  {
    if moves == [] {
      assert start.barriers + multiset{} == start.barriers;
    } else {
      NeverLeavesBefore(size, start, moves);
      NetInside(size, start, moves);
      WalkByCounts(size, start, moves[..|moves| - 1]);
      NetStep(size, start, moves);
      hide NetSite, NeverLeaves, Apply;
    }
  }

  lemma {:induction false} WalkStaysInGrid(size: int, start: Site, moves: seq<CopMove>)
    requires InGrid(size, start)
    ensures InGrid(size, Walk(size, start, moves))
  {
    if moves != [] {
      WalkStaysInGrid(size, start, moves[..|moves| - 1]);
      hide Delta;
    }
  }

  /** Where revealed moves lead, from the moves alone. From a start inside the grid the position
      after every prefix of the moves is the start plus the count of steps each way exactly if
      counting never leads off the grid. */
  lemma WalkFollowsCountsExactly(size: int, start: Site, moves: seq<CopMove>)
    requires InGrid(size, start)
    ensures NeverLeaves(size, start, moves) <==>
            forall n :: 0 <= n <= |moves| ==> Walk(size, start, moves[..n]) == NetSite(start, moves[..n])
  {
    hide NetSite, Walk, InGrid;
    forall n | 0 <= n <= |moves|
      ensures InGrid(size, Walk(size, start, moves[..n]))
      ensures NeverLeaves(size, start, moves) ==> Walk(size, start, moves[..n]) == NetSite(start, moves[..n])
    {
      WalkStaysInGrid(size, start, moves[..n]);
      if NeverLeaves(size, start, moves) {
        assert forall m :: 0 <= m <= n ==> moves[..n][..m] == moves[..m];
        WalkByCounts(size, start, moves[..n]);
      }
    }
  }

  /** The replayed site from the disclosed moves alone: along moves that never lead off the grid
      it is the start plus the count of steps each way; and the barriers are those placed,
      whatever else was revealed. */
  lemma ReplayByMoves(size: int, start: Site, entries: Entries, steps: seq<int>)
    requires HoldsAll(entries, steps)
    ensures Replay(size, start, entries, steps).barriers == start.barriers + Placed(MovesOf(entries, steps))
    ensures NeverLeaves(size, start, MovesOf(entries, steps)) ==>
              Replay(size, start, entries, steps) == NetSite(start, MovesOf(entries, steps))
  {
    hide Replay, Walk, NetSite, NeverLeaves, MovesOf, Placed;
    ReplayIsWalk(size, start, entries, steps);
    WalkPlaces(size, start, MovesOf(entries, steps));
    if NeverLeaves(size, start, MovesOf(entries, steps)) {
      WalkByCounts(size, start, MovesOf(entries, steps));
    }
  }

  function SealedBy(site: Site, step: int, e: Entry): Sealed
    requires Complete(e)
  {
    Sealed(site, step, e.move.value, e.intent.GetOr(false), e.hint.GetOr(""), e.nonce.value)
  }

  predicate Authentic(seal: Seal, site: Site, step: int, e: Entry) {
    Complete(e) && e.hCommit.value == seal(SealedBy(site, step, e))
  }

  /** Of several claims for one step only the last is kept. */
  function LastClaim(claims: seq<Claim>, step: int): Option<Claim> {
    if claims == [] then None
    else if claims[|claims| - 1].step == step then Some(claims[|claims| - 1])
    else LastClaim(claims[..|claims| - 1], step)
  }

  predicate Truthful(claim: Claim, site: Site) {
    claim.copCol == site.col && claim.copRow == site.row
  }

  // ---------- ascending order ----------

  predicate Sorted(steps: seq<int>) {
    forall i, j :: 0 <= i < j < |steps| ==> steps[i] < steps[j]
  }

  ghost predicate Lists(steps: seq<int>, keys: set<int>) {
    Sorted(steps) && forall s :: s in steps <==> s in keys
  }

  ghost predicate IsLeast(least: int, keys: set<int>) {
    least in keys && forall t :: t in keys ==> least <= t
  }

  lemma Inhabitant<T>(keys: set<T>) returns (x: T)
    requires keys != {}
    ensures x in keys
  {
    x :| x in keys;
  }

  lemma SameSet<T(!new)>(a: set<T>, b: set<T>)
    requires forall x :: x in a <==> x in b
    ensures a == b
  {
  }

  lemma {:induction false} LeastExists(keys: set<int>)
    requires keys != {}
    ensures exists least :: IsLeast(least, keys)
    decreases |keys|
  {
    var x := Inhabitant(keys);
    var others := keys - {x};
    if others == {} {
      assert keys == {x};
      assert IsLeast(x, keys);
    } else {
      LeastExists(others);
      var least :| IsLeast(least, others);
      assert keys == others + {x};
      assert IsLeast(if x < least then x else least, keys);
    }
  }

  ghost function Least(keys: set<int>): (least: int)
    requires keys != {}
    ensures IsLeast(least, keys)
  {
    LeastExists(keys);
    var least :| IsLeast(least, keys);
    least
  }

  ghost function Ascending(keys: set<int>): (steps: seq<int>)
    ensures Lists(steps, keys) && |steps| == |keys|
  {
    if keys == {} then []
    else
      var rest := Ascending(keys - {Least(keys)});
      var steps := [Least(keys)] + rest;
      assert forall i :: 0 < i < |steps| ==> steps[i] == rest[i - 1] && rest[i - 1] in rest;
      steps
  }

  lemma {:induction false} ListsUnique(a: seq<int>, b: seq<int>, keys: set<int>)
    requires Lists(a, keys) && Lists(b, keys)
    ensures a == b
  {
    assert a != [] ==> a[0] in a && a[0] in b;
    assert b != [] ==> b[0] in b && b[0] in a;
    if a != [] {
      assert a[0] == b[0];
      forall s ensures s in a[1..] <==> s in keys - {a[0]} {
        assert a == [a[0]] + a[1..];
      }
      forall s ensures s in b[1..] <==> s in keys - {a[0]} {
        assert b == [b[0]] + b[1..];
      }
      ListsUnique(a[1..], b[1..], keys - {a[0]});
      assert a == [a[0]] + a[1..] && b == [b[0]] + b[1..];
    }
  }

  method LeastKey(keys: set<int>) returns (least: int)
    requires keys != {}
    ensures least == Least(keys)
  {
    ghost var some := Inhabitant(keys);
    least :| least in keys;
    var others := keys - {least};
    while others != {}
      invariant least in keys && others <= keys
      invariant forall t :: t in keys && t !in others ==> least <= t
      decreases |others|
    {
      ghost var another := Inhabitant(others);
      var other :| other in others;
      if other < least {
        least := other;
      }
      others := others - {other};
    }
  }

  lemma AscendingUnfolds(keys: set<int>)
    requires keys != {}
    ensures Ascending(keys) == [Least(keys)] + Ascending(keys - {Least(keys)})
    ensures |keys - {Least(keys)}| < |keys|
  {
  }

  method SortedKeys(keys: set<int>) returns (steps: seq<int>)
    ensures steps == Ascending(keys)
  {
    steps := [];
    var left := keys;
    assert Ascending({}) == [];
    hide Ascending, Least, IsLeast, Lists, Sorted;
    while left != {}
      invariant steps + Ascending(left) == Ascending(keys)
      decreases |left|
    {
      AscendingUnfolds(left);
      var least := LeastKey(left);
      var rest := left - {least};
      assert steps + Ascending(left) == steps + [least] + Ascending(rest);
      steps, left := steps + [least], rest;
    }
    assert steps + [] == steps;
  }

  // ---------- the audit ----------

  datatype Report = Report(passed: bool, verifiedSteps: nat, failedSteps: seq<int>, failedClaims: seq<int>)

  function Prefix(steps: seq<int>): seq<int>
    requires steps != []
  {
    steps[..|steps| - 1]
  }

  function Checked(entries: Entries, steps: seq<int>): nat
    requires HoldsAll(entries, steps)
  {
    if steps == [] then 0
    else Checked(entries, Prefix(steps)) + (if Complete(entries[steps[|steps| - 1]]) then 1 else 0)
  }

  /** The steps that are incomplete or whose commit is not the seal of what was replayed. */
  function Failed(seal: Seal, size: int, start: Site, entries: Entries, steps: seq<int>): seq<int>
    requires HoldsAll(entries, steps)
  {
    if steps == [] then []
    else
      var step := steps[|steps| - 1];
      var before := Failed(seal, size, start, entries, Prefix(steps));
      if Authentic(seal, Replay(size, start, entries, steps), step, entries[step]) then before else before + [step]
  }

  /** The claim kept for a step is the position replayed at it, or there is none. */
  predicate ClaimHolds(claims: seq<Claim>, step: int, site: Site) {
    var claim := LastClaim(claims, step);
    claim.Some? ==> Truthful(claim.value, site)
  }

  /** The steps replayed completely whose claim names another position. */
  function FalseClaims(size: int, start: Site, entries: Entries, claims: seq<Claim>, steps: seq<int>): seq<int>
    requires HoldsAll(entries, steps)
  {
    if steps == [] then []
    else
      var step := steps[|steps| - 1];
      var before := FalseClaims(size, start, entries, claims, Prefix(steps));
      if Complete(entries[step]) && !ClaimHolds(claims, step, Replay(size, start, entries, steps)) then before + [step]
      else before
  }

  function ClaimedSteps(claims: seq<Claim>): set<int> {
    set c | c in claims :: c.step
  }

  /** The steps claimed that no complete entry covers. */
  function Unmatched(entries: Entries, claims: seq<Claim>): set<int> {
    set s | s in ClaimedSteps(claims) && !(s in entries && Complete(entries[s]))
  }

  ghost function AuditReport(seal: Seal, entries: Entries, claims: seq<Claim>, size: int, start: Site): Report {
    var steps := Ascending(entries.Keys);
    var failed := Failed(seal, size, start, entries, steps);
    var failedClaims := FalseClaims(size, start, entries, claims, steps) + Ascending(Unmatched(entries, claims));
    var checked := Checked(entries, steps);
    Report(failed == [] && failedClaims == [] && checked > 0, checked, failed, failedClaims)
  }

  lemma {:induction false} LastClaimIsOne(claims: seq<Claim>, step: int)
    ensures LastClaim(claims, step).Some? <==> step in ClaimedSteps(claims)
    ensures LastClaim(claims, step).Some? ==>
              LastClaim(claims, step).value in claims && LastClaim(claims, step).value.step == step
  {
    if claims != [] {
      var front, last := claims[..|claims| - 1], claims[|claims| - 1];
      LastClaimIsOne(front, step);
      assert claims == front + [last];
    }
  }

  /** What one more step adds to each part of the report. */
  lemma OneMoreStep(seal: Seal, size: int, start: Site, entries: Entries, claims: seq<Claim>, steps: seq<int>, n: nat)
    requires HoldsAll(entries, steps) && n < |steps|
    ensures HoldsAll(entries, steps[..n]) && HoldsAll(entries, steps[..n + 1]) && steps[n] in entries
    ensures var before, step := Replay(size, start, entries, steps[..n]), steps[n];
            var entry := entries[step];
            var after := if Complete(entry) then Apply(size, before, entry.move.value) else before;
            && Replay(size, start, entries, steps[..n + 1]) == after
            && Checked(entries, steps[..n + 1]) == Checked(entries, steps[..n]) + (if Complete(entry) then 1 else 0) &&
            var failed := Failed(seal, size, start, entries, steps[..n]);
            var falseClaims := FalseClaims(size, start, entries, claims, steps[..n]);
            && Failed(seal, size, start, entries, steps[..n + 1]) ==
               (if Authentic(seal, after, step, entry) then failed else failed + [step])
            && FalseClaims(size, start, entries, claims, steps[..n + 1]) ==
               (if Complete(entry) && !ClaimHolds(claims, step, after) then falseClaims + [step] else falseClaims)
  {
    hide Apply, ClaimHolds, Authentic;
    assert Prefix(steps[..n + 1]) == steps[..n] && steps[..n + 1][n] == steps[n];
  }

  lemma NothingAudited(seal: Seal, size: int, start: Site, entries: Entries, claims: seq<Claim>)
    ensures HoldsAll(entries, Ascending(entries.Keys))
    ensures Replay(size, start, entries, []) == start && Checked(entries, []) == 0
    ensures Failed(seal, size, start, entries, []) == [] && FalseClaims(size, start, entries, claims, []) == []
  {
    var steps := Ascending(entries.Keys);
    forall i | 0 <= i < |steps| ensures steps[i] in entries {
      assert steps[i] in steps;
    }
  }

  /** The audit loop: replays every step in ascending order, collecting what fails. */
  method AuditCopPeerTrace(seal: Seal, entries: Entries, claims: seq<Claim>, size: int, start: Site)
    returns (report: Report)
    ensures report == AuditReport(seal, entries, claims, size, start)
  {
    hide Replay, Checked, Failed, FalseClaims, Apply, Ascending, LastClaim, Sorted, Truthful;
    var failed: seq<int> := [];
    var failedClaims: seq<int> := [];
    var site := start;
    var checked := 0;
    var steps := SortedKeys(entries.Keys);
    var unmatched := ClaimedSteps(claims);
    NothingAudited(seal, size, start, entries, claims);
    assert steps[..0] == [];
    for n := 0 to |steps|
      invariant HoldsAll(entries, steps[..n]) && site == Replay(size, start, entries, steps[..n])
      invariant checked == Checked(entries, steps[..n])
      invariant failed == Failed(seal, size, start, entries, steps[..n])
      invariant failedClaims == FalseClaims(size, start, entries, claims, steps[..n])
      invariant forall s :: s in unmatched <==>
                  s in ClaimedSteps(claims) && !(s in steps[..n] && Complete(entries[s]))
    {
      var step := steps[n];
      var entry := entries[step];
      OneMoreStep(seal, size, start, entries, claims, steps, n);
      assert steps[..n + 1] == steps[..n] + [step];
      if !Complete(entry) {
        failed := failed + [step];
      } else {
        site := Apply(size, site, entry.move.value);
        checked := checked + 1;
        if !Authentic(seal, site, step, entry) {
          failed := failed + [step];
        }
        var claim := LastClaim(claims, step);
        LastClaimIsOne(claims, step);
        if claim.Some? {
          unmatched := unmatched - {step};
          if !Truthful(claim.value, site) {
            failedClaims := failedClaims + [step];
          }
        }
      }
    }
    assert steps[..|steps|] == steps;
    forall s ensures s in unmatched <==> s in Unmatched(entries, claims) {
      assert s in steps <==> s in entries;
    }
    SameSet(unmatched, Unmatched(entries, claims));
    var missing := SortedKeys(unmatched);
    failedClaims := failedClaims + missing;
    report := Report(|failed| == 0 && |failedClaims| == 0 && checked > 0, checked, failed, failedClaims);
  }

  // ---------- what a passing audit means ----------

  /** Everything that must hold of the i-th audited step. */
  predicate StepHolds(seal: Seal, size: int, start: Site, entries: Entries, claims: seq<Claim>, steps: seq<int>, i: nat)
    requires HoldsAll(entries, steps) && i < |steps|
  {
    var site := Replay(size, start, entries, steps[..i + 1]);
    Authentic(seal, site, steps[i], entries[steps[i]]) && ClaimHolds(claims, steps[i], site)
  }

  lemma {:induction false} StepsHoldExactly(seal: Seal, size: int, start: Site, entries: Entries, claims: seq<Claim>,
                                            steps: seq<int>)
    requires HoldsAll(entries, steps)
    ensures Failed(seal, size, start, entries, steps) == [] && FalseClaims(size, start, entries, claims, steps) == [] <==>
            forall i :: 0 <= i < |steps| ==> StepHolds(seal, size, start, entries, claims, steps, i)
  {
    if steps != [] {
      hide Replay, Checked, Failed, FalseClaims, Apply, ClaimHolds;
      var front, n := Prefix(steps), |steps| - 1;
      StepsHoldExactly(seal, size, start, entries, claims, front);
      OneMoreStep(seal, size, start, entries, claims, steps, n);
      assert steps[..n + 1] == steps && steps[..n] == front;
      var site, entry := Replay(size, start, entries, steps), entries[steps[n]];
      assert StepHolds(seal, size, start, entries, claims, steps, n) <==>
             Authentic(seal, site, steps[n], entry) && ClaimHolds(claims, steps[n], site);
      hide StepHolds, Authentic;
      forall i | 0 <= i < n
        ensures StepHolds(seal, size, start, entries, claims, steps, i) <==>
                StepHolds(seal, size, start, entries, claims, front, i)
      {
        SameStep(seal, size, start, entries, claims, steps, i);
      }
    }
  }

  lemma SameStep(seal: Seal, size: int, start: Site, entries: Entries, claims: seq<Claim>, steps: seq<int>, i: nat)
    requires HoldsAll(entries, steps) && i < |steps| - 1
    ensures StepHolds(seal, size, start, entries, claims, steps, i) <==>
            StepHolds(seal, size, start, entries, claims, Prefix(steps), i)
  {
    assert Prefix(steps)[..i + 1] == steps[..i + 1];
  }

  lemma {:induction false} AllChecked(seal: Seal, size: int, start: Site, entries: Entries, steps: seq<int>)
    requires HoldsAll(entries, steps) && Failed(seal, size, start, entries, steps) == []
    ensures Checked(entries, steps) == |steps| && forall i :: 0 <= i < |steps| ==> Complete(entries[steps[i]])
  {
    if steps != [] {
      hide Replay, Apply;
      AllChecked(seal, size, start, entries, Prefix(steps));
      forall i | 0 <= i < |steps| ensures Complete(entries[steps[i]]) {
        assert i < |steps| - 1 ==> steps[i] == Prefix(steps)[i];
      }
    }
  }

  lemma UnmatchedExactly(entries: Entries, claims: seq<Claim>, steps: seq<int>)
    requires HoldsAll(entries, steps) && (forall s :: s in entries ==> s in steps)
    requires forall i :: 0 <= i < |steps| ==> Complete(entries[steps[i]])
    ensures Ascending(Unmatched(entries, claims)) == [] <==> forall c :: c in claims ==> c.step in entries
  {
    var unmatched := Unmatched(entries, claims);
    assert |Ascending(unmatched)| == |unmatched|;
    forall s | s in entries ensures Complete(entries[s]) {
      var i :| 0 <= i < |steps| && steps[i] == s;
    }
    if c :| c in claims && c.step !in entries {
      assert c.step in ClaimedSteps(claims);
      assert c.step in unmatched;
    }
  }

  /** The position the audit reaches at step `s`: all complete entries up to it, in order. */
  ghost function SiteAt(size: int, start: Site, entries: Entries, s: int): Site {
    var steps := Ascending(set k | k in entries && k <= s);
    AscendingCovers(entries, s);
    Replay(size, start, entries, steps)
  }

  lemma AscendingCovers(entries: Entries, s: int)
    ensures HoldsAll(entries, Ascending(set k | k in entries && k <= s))
  {
    var steps := Ascending(set k | k in entries && k <= s);
    forall i | 0 <= i < |steps| ensures steps[i] in entries {
      assert steps[i] in steps;
    }
  }

  lemma PrefixLists(steps: seq<int>, keys: set<int>, i: nat)
    requires Lists(steps, keys) && i < |steps|
    ensures Lists(steps[..i + 1], set k | k in keys && k <= steps[i])
  {
    forall k | k in keys && k <= steps[i] ensures k in steps[..i + 1] {
      assert k in steps;
      var j :| 0 <= j < |steps| && steps[j] == k;
      assert j <= i;
      assert steps[..i + 1][j] == k;
    }
    forall k | k in steps[..i + 1] ensures k in keys && k <= steps[i] {
      var j :| 0 <= j < i + 1 && steps[..i + 1][j] == k;
      assert steps[j] == k && k in steps;
    }
  }

  lemma PrefixIsUpTo(size: int, start: Site, entries: Entries, i: nat)
    requires i < |Ascending(entries.Keys)| && HoldsAll(entries, Ascending(entries.Keys))
    ensures var steps := Ascending(entries.Keys);
            Replay(size, start, entries, steps[..i + 1]) == SiteAt(size, start, entries, steps[i])
  {
    hide Ascending, Sorted, Replay;
    var steps := Ascending(entries.Keys);
    var keys := set k | k in entries && k <= steps[i];
    PrefixLists(steps, entries.Keys, i);
    assert keys == set k | k in entries.Keys && k <= steps[i];
    ListsUnique(steps[..i + 1], Ascending(keys), keys);
  }

  /** The step is complete and its commit seals the state replayed there. */
  ghost predicate AuthenticAt(seal: Seal, entries: Entries, size: int, start: Site, s: int)
    requires s in entries
  {
    Authentic(seal, SiteAt(size, start, entries, s), s, entries[s])
  }

  ghost predicate AllAuthentic(seal: Seal, entries: Entries, size: int, start: Site) {
    forall s :: s in entries ==> AuthenticAt(seal, entries, size, start, s)
  }

  /** The claim kept for each step is true. */
  ghost predicate KeptClaimsTrue(entries: Entries, claims: seq<Claim>, size: int, start: Site) {
    forall s :: s in entries ==> ClaimHolds(claims, s, SiteAt(size, start, entries, s))
  }

  ghost predicate AllClaimsCovered(entries: Entries, claims: seq<Claim>) {
    forall c :: c in claims ==> c.step in entries
  }

  lemma StepsHoldByKey(seal: Seal, entries: Entries, claims: seq<Claim>, size: int, start: Site)
    requires HoldsAll(entries, Ascending(entries.Keys))
    ensures (forall i :: 0 <= i < |Ascending(entries.Keys)| ==>
               StepHolds(seal, size, start, entries, claims, Ascending(entries.Keys), i)) <==>
            AllAuthentic(seal, entries, size, start) && KeptClaimsTrue(entries, claims, size, start)
  {
    hide Ascending, Replay, SiteAt, Authentic, ClaimHolds, Sorted;
    var steps := Ascending(entries.Keys);
    forall i | 0 <= i < |steps|
      ensures StepHolds(seal, size, start, entries, claims, steps, i) <==>
              AuthenticAt(seal, entries, size, start, steps[i]) &&
              ClaimHolds(claims, steps[i], SiteAt(size, start, entries, steps[i]))
    {
      PrefixIsUpTo(size, start, entries, i);
    }
    forall s | s in entries ensures exists i :: 0 <= i < |steps| && steps[i] == s {
      assert s in steps;
    }
  }

  /** The audit passes exactly when there is an audited step, each is complete and committed to
      the state its moves lead to, each claimed step is an audited one, and the last claim made
      for a step names the position replayed there. */
  lemma PassesExactly(seal: Seal, entries: Entries, claims: seq<Claim>, size: int, start: Site)
    ensures AuditReport(seal, entries, claims, size, start).passed <==>
              && entries != map[]
              && AllAuthentic(seal, entries, size, start)
              && KeptClaimsTrue(entries, claims, size, start)
              && AllClaimsCovered(entries, claims)
    ensures AuditReport(seal, entries, claims, size, start).passed ==>
              AuditReport(seal, entries, claims, size, start).verifiedSteps == |entries|
  {
    var steps := Ascending(entries.Keys);
    NothingAudited(seal, size, start, entries, claims);
    StepsHoldExactly(seal, size, start, entries, claims, steps);
    StepsHoldByKey(seal, entries, claims, size, start);
    hide AllAuthentic, KeptClaimsTrue, StepHolds, Failed, FalseClaims, Checked, Ascending, Sorted;
    var falseClaims, unmatched := FalseClaims(size, start, entries, claims, steps), Ascending(Unmatched(entries, claims));
    assert |falseClaims + unmatched| == |falseClaims| + |unmatched|;
    assert |steps| == |entries.Keys| == |entries|;
    if |steps| == 0 {
      assert entries == map[];
    }
    if Failed(seal, size, start, entries, steps) == [] {
      AllChecked(seal, size, start, entries, steps);
      UnmatchedExactly(entries, claims, steps);
    }
  }

  ghost predicate OneClaimPerStep(claims: seq<Claim>) {
    forall i, j :: 0 <= i < j < |claims| ==> claims[i].step != claims[j].step
  }

  lemma {:induction false} OnlyClaimIsLast(claims: seq<Claim>, c: Claim)
    requires OneClaimPerStep(claims) && c in claims
    ensures LastClaim(claims, c.step) == Some(c)
  {
    var front, last := claims[..|claims| - 1], claims[|claims| - 1];
    assert claims == front + [last];
    if c != last {
      OnlyClaimIsLast(front, c);
    }
  }

  /** With at most one claim for each step, no false claim survives a passing audit. */
  lemma PassingClaimsAreTrue(seal: Seal, entries: Entries, claims: seq<Claim>, size: int, start: Site)
    requires OneClaimPerStep(claims)
    ensures AuditReport(seal, entries, claims, size, start).passed <==>
              && entries != map[]
              && AllAuthentic(seal, entries, size, start)
              && (forall c :: c in claims ==>
                    c.step in entries && Truthful(c, SiteAt(size, start, entries, c.step)))
  {
    hide AuditReport, AllAuthentic, SiteAt, LastClaim, Truthful, OneClaimPerStep;
    PassesExactly(seal, entries, claims, size, start);
    forall c | c in claims ensures LastClaim(claims, c.step) == Some(c) {
      OnlyClaimIsLast(claims, c);
    }
    forall s | s in entries
      ensures ClaimHolds(claims, s, SiteAt(size, start, entries, s)) <==>
              forall c :: c in claims && c.step == s ==> Truthful(c, SiteAt(size, start, entries, s))
    {
      LastClaimIsOne(claims, s);
    }
  }

  /** Claims for one step all name one position; whoever holds the claims can check it. */
  predicate ClaimsAgree(claims: seq<Claim>) {
    forall c, d :: c in claims && d in claims && c.step == d.step ==> c.copCol == d.copCol && c.copRow == d.copRow
  }

  ghost predicate AllClaimsTrue(entries: Entries, claims: seq<Claim>, size: int, start: Site) {
    forall c :: c in claims ==> c.step in entries && Truthful(c, SiteAt(size, start, entries, c.step))
  }

  /** A passing audit vouches for every claim, not only for the last one for its step, exactly
      when the claims for each step agree. */
  lemma PassingVouchesExactly(seal: Seal, entries: Entries, claims: seq<Claim>, size: int, start: Site)
    requires AuditReport(seal, entries, claims, size, start).passed
    ensures AllClaimsTrue(entries, claims, size, start) <==> ClaimsAgree(claims)
  {
    hide AuditReport, AllAuthentic, SiteAt, LastClaim;
    PassesExactly(seal, entries, claims, size, start);
    if ClaimsAgree(claims) {
      forall c | c in claims ensures Truthful(c, SiteAt(size, start, entries, c.step)) {
        LastClaimIsOne(claims, c.step);
        assert c.step in ClaimedSteps(claims);
        var kept := LastClaim(claims, c.step).value;
        assert ClaimHolds(claims, c.step, SiteAt(size, start, entries, c.step));
        assert kept in claims && kept.step == c.step;
      }
    }
  }

  /** The same in one statement: every claim is true of an authentic trace exactly when the
      audit passes and the claims for each step agree. */
  lemma AllTrueExactly(seal: Seal, entries: Entries, claims: seq<Claim>, size: int, start: Site)
    requires entries != map[] && AllAuthentic(seal, entries, size, start)
    ensures AllClaimsTrue(entries, claims, size, start) <==>
            AuditReport(seal, entries, claims, size, start).passed && ClaimsAgree(claims)
  {
    hide AuditReport, AllAuthentic, SiteAt, LastClaim;
    PassesExactly(seal, entries, claims, size, start);
    if AllClaimsTrue(entries, claims, size, start) {
      forall s | s in entries ensures ClaimHolds(claims, s, SiteAt(size, start, entries, s)) {
        LastClaimIsOne(claims, s);
      }
    }
    if AuditReport(seal, entries, claims, size, start).passed {
      PassingVouchesExactly(seal, entries, claims, size, start);
    }
  }

  /** Two claims for one step: a later true one hides an earlier false one from the audit. */
  lemma ShadowedClaimPasses(seal: Seal, entries: Entries, size: int, start: Site, lie: Claim, truth: Claim)
    requires entries != map[] && AllAuthentic(seal, entries, size, start)
    requires truth.step == lie.step && lie.step in entries
    requires Truthful(truth, SiteAt(size, start, entries, truth.step))
    requires !Truthful(lie, SiteAt(size, start, entries, lie.step))
    ensures AuditReport(seal, entries, [lie, truth], size, start).passed
    ensures !AuditReport(seal, entries, [truth, lie], size, start).passed
  {
    hide AuditReport, AllAuthentic, SiteAt, Truthful;
    PassesExactly(seal, entries, [lie, truth], size, start);
    PassesExactly(seal, entries, [truth, lie], size, start);
    var step := lie.step;
    assert LastClaim([truth, lie], step) == Some(lie) && LastClaim([lie, truth], step) == Some(truth);
    assert !ClaimHolds([truth, lie], step, SiteAt(size, start, entries, step));
    forall s | s in entries ensures ClaimHolds([lie, truth], s, SiteAt(size, start, entries, s)) {
      LastClaimIsOne([lie, truth], s);
      if s == step {
        assert LastClaim([lie, truth], s) == Some(truth);
      }
    }
  }

  lemma SiteStaysInGrid(size: int, start: Site, entries: Entries, s: int)
    requires InGrid(size, start)
    ensures InGrid(size, SiteAt(size, start, entries, s))
  {
    AscendingCovers(entries, s);
    ReplayStaysInGrid(size, start, entries, Ascending(set k | k in entries && k <= s));
  }

  // ---------- the commits bind ----------

  ghost predicate Binding(seal: Seal) {
    forall a, b :: seal(a) == seal(b) ==> a == b
  }

  /** The two disclosures reveal, at step `s`, the same position, move, intent, hint and nonce. */
  ghost predicate SameAt(size: int, start: Site, a: Entries, b: Entries, s: int) {
    && s in a && s in b && Complete(a[s]) && Complete(b[s])
    && SealedBy(SiteAt(size, start, a, s), s, a[s]) == SealedBy(SiteAt(size, start, b, s), s, b[s])
  }

  /** Under a binding seal the commits alone fix the whole trajectory: two disclosures that
      both pass against the same commits are the same at every step. */
  lemma PassingDisclosureIsUnique(seal: Seal, a: Entries, b: Entries, size: int, start: Site)
    requires Binding(seal)
    requires a.Keys == b.Keys && forall s :: s in a ==> a[s].hCommit == b[s].hCommit
    requires AuditReport(seal, a, [], size, start).passed && AuditReport(seal, b, [], size, start).passed
    ensures forall s :: s in a ==> SameAt(size, start, a, b, s)
  {
    hide AuditReport, SiteAt;
    PassesExactly(seal, a, [], size, start);
    PassesExactly(seal, b, [], size, start);
    forall s | s in a ensures SameAt(size, start, a, b, s) {
      assert s in b.Keys;
      assert AuthenticAt(seal, a, size, start, s) && AuthenticAt(seal, b, size, start, s);
    }
  }

  // ---------- what the report lists ----------

  /** The `i`-th step audited is `s`, and it fails. */
  predicate FailsAt(seal: Seal, size: int, start: Site, entries: Entries, steps: seq<int>, i: nat, s: int)
    requires HoldsAll(entries, steps) && i < |steps|
  {
    steps[i] == s && !Authentic(seal, Replay(size, start, entries, steps[..i + 1]), s, entries[steps[i]])
  }

  /** The `i`-th step audited is `s`, and the claim for it is false. */
  predicate ClaimFailsAt(size: int, start: Site, entries: Entries, claims: seq<Claim>, steps: seq<int>, i: nat, s: int)
    requires HoldsAll(entries, steps) && i < |steps|
  {
    steps[i] == s && Complete(entries[steps[i]]) && !ClaimHolds(claims, s, Replay(size, start, entries, steps[..i + 1]))
  }

  lemma AtPrefix(seal: Seal, size: int, start: Site, entries: Entries, claims: seq<Claim>, steps: seq<int>, i: nat, s: int)
    requires HoldsAll(entries, steps) && i < |steps| - 1
    ensures HoldsAll(entries, steps[..|steps| - 1])
    ensures FailsAt(seal, size, start, entries, steps, i, s)
       <==> FailsAt(seal, size, start, entries, steps[..|steps| - 1], i, s)
    ensures ClaimFailsAt(size, start, entries, claims, steps, i, s)
       <==> ClaimFailsAt(size, start, entries, claims, steps[..|steps| - 1], i, s)
  {
    hide Replay, Authentic, ClaimHolds;
    assert steps[..|steps| - 1][..i + 1] == steps[..i + 1];
  }

  lemma AtLast(seal: Seal, size: int, start: Site, entries: Entries, claims: seq<Claim>, steps: seq<int>, s: int)
    requires HoldsAll(entries, steps) && steps != []
    ensures var n := |steps| - 1;
            && HoldsAll(entries, steps[..n])
            && (s in Failed(seal, size, start, entries, steps) <==>
                  s in Failed(seal, size, start, entries, steps[..n]) || FailsAt(seal, size, start, entries, steps, n, s))
            && (s in FalseClaims(size, start, entries, claims, steps) <==>
                  s in FalseClaims(size, start, entries, claims, steps[..n]) || ClaimFailsAt(size, start, entries, claims, steps, n, s))
  {
    OneMoreStep(seal, size, start, entries, claims, steps, |steps| - 1);
    assert steps[..|steps|] == steps;
    hide Replay, Failed, FalseClaims, Authentic, ClaimHolds, Apply;
  }

  lemma {:induction false} ListedExactly(seal: Seal, size: int, start: Site, entries: Entries, claims: seq<Claim>, steps: seq<int>, s: int)
    requires HoldsAll(entries, steps)
    ensures s in Failed(seal, size, start, entries, steps) <==>
            exists i :: 0 <= i < |steps| && FailsAt(seal, size, start, entries, steps, i, s)
    ensures s in FalseClaims(size, start, entries, claims, steps) <==>
            exists i :: 0 <= i < |steps| && ClaimFailsAt(size, start, entries, claims, steps, i, s)
  {
    if steps != [] {
      var n := |steps| - 1;
      AtLast(seal, size, start, entries, claims, steps, s);
      hide FailsAt, ClaimFailsAt, Failed, FalseClaims;
      ListedExactly(seal, size, start, entries, claims, steps[..n], s);
      forall i | 0 <= i < n
        ensures FailsAt(seal, size, start, entries, steps, i, s) <==> FailsAt(seal, size, start, entries, steps[..n], i, s)
        ensures ClaimFailsAt(size, start, entries, claims, steps, i, s)
           <==> ClaimFailsAt(size, start, entries, claims, steps[..n], i, s)
      {
        AtPrefix(seal, size, start, entries, claims, steps, i, s);
      }
    }
  }

  lemma ListedByKey(seal: Seal, size: int, start: Site, entries: Entries, claims: seq<Claim>, s: int)
    requires HoldsAll(entries, Ascending(entries.Keys))
    ensures s in Failed(seal, size, start, entries, Ascending(entries.Keys)) <==>
            s in entries && !AuthenticAt(seal, entries, size, start, s)
    ensures s in FalseClaims(size, start, entries, claims, Ascending(entries.Keys)) <==>
            s in entries && Complete(entries[s]) && !ClaimHolds(claims, s, SiteAt(size, start, entries, s))
  {
    var steps := Ascending(entries.Keys);
    ListedExactly(seal, size, start, entries, claims, steps, s);
    assert s in entries <==> s in steps;
    hide Ascending, Replay, SiteAt, Authentic, ClaimHolds, Sorted, Failed, FalseClaims;
    forall i | 0 <= i < |steps| && steps[i] == s
      ensures FailsAt(seal, size, start, entries, steps, i, s) <==> !AuthenticAt(seal, entries, size, start, s)
      ensures ClaimFailsAt(size, start, entries, claims, steps, i, s) <==>
              Complete(entries[s]) && !ClaimHolds(claims, s, SiteAt(size, start, entries, s))
    {
      PrefixIsUpTo(size, start, entries, i);
    }
    hide FailsAt, ClaimFailsAt, AuthenticAt;
    if s in entries {
      var i :| 0 <= i < |steps| && steps[i] == s;
    }
  }

  /** What the report blames, exactly: the steps that are incomplete or whose commit is not the
      seal of the state replayed there; and the claims that name another position than the one
      replayed at their step, or a step that no complete entry covers. */
  lemma BlamesExactly(seal: Seal, entries: Entries, claims: seq<Claim>, size: int, start: Site, s: int)
    ensures var report := AuditReport(seal, entries, claims, size, start);
            && (s in report.failedSteps <==> s in entries && !AuthenticAt(seal, entries, size, start, s))
            && (s in report.failedClaims <==>
                  if s in entries && Complete(entries[s]) then !ClaimHolds(claims, s, SiteAt(size, start, entries, s))
                  else exists c :: c in claims && c.step == s)
  {
    NothingAudited(seal, size, start, entries, claims);
    ListedByKey(seal, size, start, entries, claims, s);
    assert s in Ascending(Unmatched(entries, claims)) <==> s in Unmatched(entries, claims);
    hide Ascending, Failed, FalseClaims, ClaimHolds, SiteAt, AuthenticAt, Checked;
  }
}
