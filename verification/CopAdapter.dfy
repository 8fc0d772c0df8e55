/** The handlers that receive a Cop peer's commits and reveals. Its transport may deliver any
    message again; the handlers re-acknowledge an echo without advancing. */
module CopAdapter {
  import opened Options
  import opened CopTrace

  // ---------- the trace ----------

  datatype Trace = Trace(entries: Entries, claims: seq<Claim>, nextCommit: int, nextReveal: int)

  const NO_TRACE := Trace(map[], [], 1, 1)

  function EntryAt(entries: Entries, step: int): Entry {
    if step in entries then entries[step] else BLANK
  }

  function Committed(t: Trace, h: string): Trace {
    t.(entries := t.entries[t.nextCommit := EntryAt(t.entries, t.nextCommit).(hCommit := Some(h))],
       nextCommit := t.nextCommit + 1)
  }

  function Revealed(t: Trace, move: CopMove, hint: string): Trace {
    t.(entries := t.entries[t.nextReveal := EntryAt(t.entries, t.nextReveal).(move := Some(move), hint := Some(hint))],
       nextReveal := t.nextReveal + 1)
  }

  function WithNonces(entries: Entries, nonces: seq<(int, string)>): Entries {
    if nonces == [] then entries
    else
      var before, last := WithNonces(entries, nonces[..|nonces| - 1]), nonces[|nonces| - 1];
      before[last.0 := EntryAt(before, last.0).(nonce := Some(last.1))]
  }

  function WithIntents(entries: Entries, intents: seq<(int, bool)>): Entries {
    if intents == [] then entries
    else
      var before, last := WithIntents(entries, intents[..|intents| - 1]), intents[|intents| - 1];
      before[last.0 := EntryAt(before, last.0).(intent := Some(last.1))]
  }

  class CopPeerTrace {
    var entries: Entries
    var claims: seq<Claim>
    var nextCommit: int
    var nextReveal: int

    function View(): Trace
      reads this
    {
      Trace(entries, claims, nextCommit, nextReveal)
    }

    constructor ()
      ensures View() == NO_TRACE
    {
      entries, claims, nextCommit, nextReveal := map[], [], 1, 1;
    }

    method RecordCommit(h: string)
      modifies this
      ensures View() == Committed(old(View()), h)
    {
      var step := nextCommit;
      if step !in entries {
        entries := entries[step := BLANK];
      }
      entries := entries[step := entries[step].(hCommit := Some(h))];
      nextCommit := nextCommit + 1;
      assert entries == old(View()).entries[step := EntryAt(old(entries), step).(hCommit := Some(h))];
    }

    method RecordReveal(move: CopMove, hint: string)
      modifies this
      ensures View() == Revealed(old(View()), move, hint)
    {
      var step := nextReveal;
      if step !in entries {
        entries := entries[step := BLANK];
      }
      entries := entries[step := entries[step].(move := Some(move))];
      entries := entries[step := entries[step].(hint := Some(hint))];
      nextReveal := nextReveal + 1;
      assert entries == old(View()).entries[step := EntryAt(old(entries), step).(move := Some(move), hint := Some(hint))];
    }

    method RecordFinalReveal(nonces: seq<(int, string)>, intents: seq<(int, bool)>)
      modifies this
      ensures View() == old(View()).(entries := WithIntents(WithNonces(old(entries), nonces), intents))
    {
      for i := 0 to |nonces|
        invariant View() == old(View()).(entries := WithNonces(old(entries), nonces[..i]))
      {
        assert nonces[..i + 1][..i] == nonces[..i];
        entries := entries[nonces[i].0 := EntryAt(entries, nonces[i].0).(nonce := Some(nonces[i].1))];
      }
      assert nonces[..|nonces|] == nonces;
      ghost var before := entries;
      for i := 0 to |intents|
        invariant View() == old(View()).(entries := WithIntents(before, intents[..i]))
      {
        assert intents[..i + 1][..i] == intents[..i];
        entries := entries[intents[i].0 := EntryAt(entries, intents[i].0).(intent := Some(intents[i].1))];
      }
      assert intents[..|intents|] == intents;
    }

    method RecordCaptureClaim(claim: Claim)
      modifies this
      ensures View() == old(View()).(claims := old(claims) + [claim])
    {
      claims := claims + [claim];
    }
  }

  // ---------- the handlers ----------

  datatype Message = Commit(h: string) | Reveal(move: CopMove, hint: string)

  /** What is handed on to the round mailbox. */
  datatype Forwarded = CommitMove(step: int, h: string) | RevealMove(step: int, hint: string, direction: string)

  datatype Adapter = Adapter(trace: Trace, commitStep: int, revealStep: int, last: Option<string>, revealDone: bool,
                             forwarded: seq<Forwarded>)

  const FRESH := Adapter(NO_TRACE, 1, 1, None, false, [])

  function ShownDirection(move: CopMove): string {
    if move.kind == "move" then move.direction.GetOr("STAY") else "STAY"
  }

  predicate IsEcho(a: Adapter, m: Message) {
    match m
    case Commit(h) => a.last == Some(h) && !a.revealDone
    case Reveal(_, _) => a.revealDone
  }

  function Handle(a: Adapter, m: Message): Adapter {
    if IsEcho(a, m) then a
    else match m
      case Commit(h) =>
        Adapter(Committed(a.trace, h), a.commitStep + 1, a.revealStep, Some(h), false,
                a.forwarded + [CommitMove(a.commitStep, h)])
      case Reveal(move, hint) =>
        Adapter(Revealed(a.trace, move, hint), a.commitStep, a.revealStep + 1, a.last, true,
                a.forwarded + [RevealMove(a.revealStep, hint, ShownDirection(move))])
  }

  function HandleAll(a: Adapter, ms: seq<Message>): Adapter {
    if ms == [] then a else Handle(HandleAll(a, ms[..|ms| - 1]), ms[|ms| - 1])
  }

  class CopContextAdapter {
    const peerTrace: CopPeerTrace
    var commitStep: int
    var revealStep: int
    var lastCommitHash: Option<string>
    var revealDoneForCurrentStep: bool
    var forwarded: seq<Forwarded>
    var opponentAudit: Option<Report>
    var finalRevealReceived: bool

    function View(): Adapter
      reads this, peerTrace
    {
      Adapter(peerTrace.View(), commitStep, revealStep, lastCommitHash, revealDoneForCurrentStep, forwarded)
    }

    constructor ()
      ensures View() == FRESH && opponentAudit == None && !finalRevealReceived
      ensures fresh(peerTrace)
    {
      peerTrace := new CopPeerTrace();
      commitStep, revealStep, lastCommitHash := 1, 1, None;
      revealDoneForCurrentStep, forwarded := false, [];
      opponentAudit, finalRevealReceived := None, false;
    }

    method HandleReceiveCommit(h: string)
      modifies this, peerTrace
      ensures View() == Handle(old(View()), Commit(h))
      ensures opponentAudit == old(opponentAudit) && finalRevealReceived == old(finalRevealReceived)
    {
      if lastCommitHash == Some(h) && !revealDoneForCurrentStep {
        return;
      }
      forwarded := forwarded + [CommitMove(commitStep, h)];
      peerTrace.RecordCommit(h);
      commitStep := commitStep + 1;
      lastCommitHash := Some(h);
      revealDoneForCurrentStep := false;
    }

    method HandleReceiveReveal(move: CopMove, hint: string)
      modifies this, peerTrace
      ensures View() == Handle(old(View()), Reveal(move, hint))
      ensures opponentAudit == old(opponentAudit) && finalRevealReceived == old(finalRevealReceived)
    {
      if revealDoneForCurrentStep {
        return;
      }
      forwarded := forwarded + [RevealMove(revealStep, hint, ShownDirection(move))];
      peerTrace.RecordReveal(move, hint);
      revealStep := revealStep + 1;
      revealDoneForCurrentStep := true;
    }

    /** Stores nonces and intents, audits, and wakes whoever waits for the end of the match. */
    method HandleReceiveFinalReveal(nonces: seq<(int, string)>, intents: seq<(int, bool)>, seal: Seal, size: int,
                                    start: Site)
      returns (report: Report)
      modifies this, peerTrace
      ensures View() == old(View()).(trace := Finished(old(View()).trace, nonces, intents))
      ensures report == AuditReport(seal, peerTrace.entries, peerTrace.claims, size, start)
      ensures opponentAudit == Some(report) && finalRevealReceived
    {
      peerTrace.RecordFinalReveal(nonces, intents);
      report := AuditCopPeerTrace(seal, peerTrace.entries, peerTrace.claims, size, start);
      opponentAudit := Some(report);
      finalRevealReceived := true;
    }
  }

  function Finished(t: Trace, nonces: seq<(int, string)>, intents: seq<(int, bool)>): Trace {
    t.(entries := WithIntents(WithNonces(t.entries, nonces), intents))
  }

  // ---------- retries are invisible ----------

  function Repeated(m: Message, times: nat): seq<Message> {
    seq(times, _ => m)
  }

  predicate Counts(ms: seq<Message>, times: seq<nat>) {
    |times| == |ms| && forall i :: 0 <= i < |ms| ==> 1 <= times[i]
  }

  /** Every message delivered `times[i]` times before the next one. */
  function Stuttered(ms: seq<Message>, times: seq<nat>): seq<Message>
    requires |times| == |ms|
  {
    if ms == [] then []
    else Stuttered(ms[..|ms| - 1], times[..|ms| - 1]) + Repeated(ms[|ms| - 1], times[|ms| - 1])
  }

  lemma {:induction false} HandleAllSplits(a: Adapter, xs: seq<Message>, ys: seq<Message>)
    ensures HandleAll(a, xs + ys) == HandleAll(HandleAll(a, xs), ys)
  {
    if ys == [] {
      assert xs + ys == xs;
    } else {
      HandleAllSplits(a, xs, ys[..|ys| - 1]);
      assert (xs + ys)[..|xs + ys| - 1] == xs + ys[..|ys| - 1];
    }
  }

  lemma EchoAfterHandling(a: Adapter, m: Message)
    ensures IsEcho(Handle(a, m), m)
  {
  }

  lemma {:induction false} RepeatsAreEchoes(a: Adapter, m: Message, times: nat)
    requires 1 <= times
    ensures HandleAll(a, Repeated(m, times)) == Handle(a, m)
  {
    var all := Repeated(m, times);
    assert all[..times - 1] == Repeated(m, times - 1);
    if times == 1 {
      assert HandleAll(a, []) == a;
    } else {
      RepeatsAreEchoes(a, m, times - 1);
      EchoAfterHandling(a, m);
    }
  }

  /** However often each message arrives, the adapter ends as if each had arrived once; this
      holds of any stream, honest or not, from any state. */
  lemma {:induction false} RetriesAreInvisible(a: Adapter, ms: seq<Message>, times: seq<nat>)
    requires Counts(ms, times)
    ensures HandleAll(a, Stuttered(ms, times)) == HandleAll(a, ms)
  {
    if ms != [] {
      var n := |ms| - 1;
      var front := Stuttered(ms[..n], times[..n]);
      RetriesAreInvisible(a, ms[..n], times[..n]);
      HandleAllSplits(a, front, Repeated(ms[n], times[n]));
      RepeatsAreEchoes(HandleAll(a, front), ms[n], times[n]);
    }
  }

  /** Every moment of a stuttered delivery looks like some moment of the plain one. */
  lemma {:induction false} MomentsAreTheSame(a: Adapter, ms: seq<Message>, times: seq<nat>, j: nat) returns (m: nat)
    requires Counts(ms, times) && j <= |Stuttered(ms, times)|
    ensures m <= |ms| && HandleAll(a, Stuttered(ms, times)[..j]) == HandleAll(a, ms[..m])
  {
    var all := Stuttered(ms, times);
    if ms == [] {
      m := 0;
    } else {
      var n := |ms| - 1;
      var front, echoes := Stuttered(ms[..n], times[..n]), Repeated(ms[n], times[n]);
      if j <= |front| {
        m := MomentsAreTheSame(a, ms[..n], times[..n], j);
        assert all[..j] == front[..j] && ms[..n][..m] == ms[..m];
      } else {
        m := |ms|;
        var k := j - |front|;
        assert all[..j] == front + Repeated(ms[n], k);
        RetriesAreInvisible(a, ms[..n], times[..n]);
        HandleAllSplits(a, front, Repeated(ms[n], k));
        RepeatsAreEchoes(HandleAll(a, front), ms[n], k);
        assert ms[..m] == ms;
      }
    }
  }

  // ---------- an honest stream ----------

  datatype Round = Round(move: CopMove, hint: string, intent: bool, nonce: string)

  /** Where an honest Cop stands after `rounds`: one cell on for each step that stays on the
      grid, every barrier placed kept in mind. */
  function HonestSite(size: int, start: Site, rounds: seq<Round>): Site {
    if rounds == [] then start
    else
      var at, move := HonestSite(size, start, rounds[..|rounds| - 1]), rounds[|rounds| - 1].move;
      if move.kind == BARRIER then Site(at.col, at.row, at.barriers + multiset{(move.col, move.row)})
      else match move.direction
        case Some("N") => Stepped(size, at, at.col, at.row - 1)
        case Some("S") => Stepped(size, at, at.col, at.row + 1)
        case Some("E") => Stepped(size, at, at.col + 1, at.row)
        case Some("W") => Stepped(size, at, at.col - 1, at.row)
        case _ => at
  }

  function Stepped(size: int, at: Site, col: int, row: int): Site {
    if 0 <= col < size && 0 <= row < size then Site(col, row, at.barriers) else at
  }

  /** The honest Cop stands where the audit replays it. */
  lemma HonestStep(size: int, start: Site, rounds: seq<Round>)
    requires rounds != []
    ensures HonestSite(size, start, rounds) == Apply(size, HonestSite(size, start, rounds[..|rounds| - 1]), rounds[|rounds| - 1].move)
  {
  }

  /** The commit of the last of `rounds`, played after the others. */
  function HonestCommit(seal: Seal, size: int, start: Site, rounds: seq<Round>): string
    requires rounds != []
  {
    var r := rounds[|rounds| - 1];
    seal(Sealed(HonestSite(size, start, rounds), |rounds|, r.move, r.intent, r.hint, r.nonce))
  }

  function Stream(seal: Seal, size: int, start: Site, rounds: seq<Round>): (ms: seq<Message>)
    ensures |ms| == 2 * |rounds|
  {
    if rounds == [] then []
    else
      var r := rounds[|rounds| - 1];
      Stream(seal, size, start, rounds[..|rounds| - 1]) +
        [Commit(HonestCommit(seal, size, start, rounds)), Reveal(r.move, r.hint)]
  }

  function NoncesOf(rounds: seq<Round>): seq<(int, string)> {
    seq(|rounds|, i requires 0 <= i < |rounds| => (i + 1, rounds[i].nonce))
  }

  function IntentsOf(rounds: seq<Round>): seq<(int, bool)> {
    seq(|rounds|, i requires 0 <= i < |rounds| => (i + 1, rounds[i].intent))
  }

  /** The adapter between two honest rounds, `k` of them done. */
  predicate Between(a: Adapter, k: nat) {
    && a.commitStep == a.revealStep == a.trace.nextCommit == a.trace.nextReveal == k + 1
    && (if k == 0 then a.last.None? && !a.revealDone else a.revealDone)
    && a.trace.claims == []
  }

  /** Entry `i` holds round `i`'s commit, move and hint, and no nonce or intent yet. */
  ghost predicate Recorded(seal: Seal, size: int, start: Site, rounds: seq<Round>, entries: Entries) {
    && (forall s :: s in entries <==> 1 <= s <= |rounds|)
    && (forall s :: 1 <= s <= |rounds| ==>
          entries[s] == Entry(Some(HonestCommit(seal, size, start, rounds[..s])), Some(rounds[s - 1].move),
                              Some(rounds[s - 1].hint), None, None))
  }

  lemma OneRound(a: Adapter, k: nat, h: string, move: CopMove, hint: string)
    requires Between(a, k) && k + 1 !in a.trace.entries
    ensures var after := Handle(Handle(a, Commit(h)), Reveal(move, hint));
            && Between(after, k + 1)
            && after.trace.entries == a.trace.entries[k + 1 := Entry(Some(h), Some(move), Some(hint), None, None)]
  {
  }

  lemma RecordedGrows(seal: Seal, size: int, start: Site, rounds: seq<Round>, entries: Entries)
    requires rounds != [] && Recorded(seal, size, start, rounds[..|rounds| - 1], entries)
    ensures var r := rounds[|rounds| - 1];
            Recorded(seal, size, start, rounds,
                     entries[|rounds| := Entry(Some(HonestCommit(seal, size, start, rounds)), Some(r.move), Some(r.hint), None, None)])
  {
    hide HonestCommit;
    var front := rounds[..|rounds| - 1];
    assert rounds[..|rounds|] == rounds;
    forall s | 1 <= s < |rounds| ensures rounds[..s] == front[..s] {
    }
  }

  lemma {:induction false} StreamRecorded(seal: Seal, size: int, start: Site, rounds: seq<Round>)
    ensures var a := HandleAll(FRESH, Stream(seal, size, start, rounds));
            Between(a, |rounds|) && Recorded(seal, size, start, rounds, a.trace.entries)
  {
    if rounds != [] {
      hide HonestCommit, Handle, HandleAll;
      var n := |rounds| - 1;
      var front, r := rounds[..n], rounds[n];
      StreamRecorded(seal, size, start, front);
      var before := HandleAll(FRESH, Stream(seal, size, start, front));
      var h := HonestCommit(seal, size, start, rounds);
      HandleAllSplits(FRESH, Stream(seal, size, start, front), [Commit(h), Reveal(r.move, r.hint)]);
      TwoMessages(before, Commit(h), Reveal(r.move, r.hint));
      OneRound(before, n, h, r.move, r.hint);
      RecordedGrows(seal, size, start, rounds, before.trace.entries);
    }
  }

  lemma TwoMessages(a: Adapter, m: Message, n: Message)
    ensures HandleAll(a, [m, n]) == Handle(Handle(a, m), n)
  {
    assert [m, n][..1] == [m] && [m][..0] == [];
    assert HandleAll(a, [m]) == Handle(a, m);
  }

  /** At every moment of an honest delivery, retried or not, the reveals are at most one
      behind the commits. */
  lemma CountersStayTogether(seal: Seal, size: int, start: Site, rounds: seq<Round>, times: seq<nat>, j: nat)
    requires Counts(Stream(seal, size, start, rounds), times)
    requires j <= |Stuttered(Stream(seal, size, start, rounds), times)|
    ensures var a := HandleAll(FRESH, Stuttered(Stream(seal, size, start, rounds), times)[..j]);
            0 <= a.commitStep - a.revealStep <= 1
  {
    var m := MomentsAreTheSame(FRESH, Stream(seal, size, start, rounds), times, j);
    PrefixCounters(seal, size, start, rounds, m);
  }

  lemma {:induction false} PrefixCounters(seal: Seal, size: int, start: Site, rounds: seq<Round>, m: nat)
    requires m <= 2 * |rounds|
    ensures var a := HandleAll(FRESH, Stream(seal, size, start, rounds)[..m]);
            0 <= a.commitStep - a.revealStep <= 1
  {
    var all := Stream(seal, size, start, rounds);
    if m == 2 * |rounds| {
      assert all[..m] == all;
      StreamRecorded(seal, size, start, rounds);
    } else {
      var n := |rounds| - 1;
      var front := Stream(seal, size, start, rounds[..n]);
      if m <= 2 * n {
        PrefixCounters(seal, size, start, rounds[..n], m);
        assert all[..m] == front[..m];
      } else {
        StreamRecorded(seal, size, start, rounds[..n]);
        assert all[..m] == front + [all[m - 1]] && all[..m][..m - 1] == front;
      }
    }
  }

  lemma {:induction false} NoncesExact(entries: Entries, nonces: seq<(int, string)>)
    requires forall i, j :: 0 <= i < j < |nonces| ==> nonces[i].0 != nonces[j].0
    requires forall i :: 0 <= i < |nonces| ==> nonces[i].0 in entries
    ensures var after := WithNonces(entries, nonces);
            && after.Keys == entries.Keys
            && (forall i :: 0 <= i < |nonces| ==>
                  after[nonces[i].0] == entries[nonces[i].0].(nonce := Some(nonces[i].1)))
  {
    if nonces != [] {
      var n := |nonces| - 1;
      NoncesExact(entries, nonces[..n]);
      NoncesLeave(entries, nonces[..n], nonces[n].0);
    }
  }

  lemma {:induction false} NoncesLeave(entries: Entries, nonces: seq<(int, string)>, s: int)
    requires forall i :: 0 <= i < |nonces| ==> nonces[i].0 != s
    ensures EntryAt(WithNonces(entries, nonces), s) == EntryAt(entries, s)
  {
    if nonces != [] {
      NoncesLeave(entries, nonces[..|nonces| - 1], s);
    }
  }

  lemma {:induction false} IntentsExact(entries: Entries, intents: seq<(int, bool)>)
    requires forall i, j :: 0 <= i < j < |intents| ==> intents[i].0 != intents[j].0
    requires forall i :: 0 <= i < |intents| ==> intents[i].0 in entries
    ensures var after := WithIntents(entries, intents);
            && after.Keys == entries.Keys
            && (forall i :: 0 <= i < |intents| ==>
                  after[intents[i].0] == entries[intents[i].0].(intent := Some(intents[i].1)))
  {
    if intents != [] {
      var n := |intents| - 1;
      IntentsExact(entries, intents[..n]);
      IntentsLeave(entries, intents[..n], intents[n].0);
    }
  }

  lemma {:induction false} IntentsLeave(entries: Entries, intents: seq<(int, bool)>, s: int)
    requires forall i :: 0 <= i < |intents| ==> intents[i].0 != s
    ensures EntryAt(WithIntents(entries, intents), s) == EntryAt(entries, s)
  {
    if intents != [] {
      IntentsLeave(entries, intents[..|intents| - 1], s);
    }
  }

  /** After an honest Final Reveal: entry `i` is round `i`, complete. */
  ghost predicate Disclosed(seal: Seal, size: int, start: Site, rounds: seq<Round>, entries: Entries) {
    && (forall s :: s in entries <==> 1 <= s <= |rounds|)
    && (forall s :: 1 <= s <= |rounds| ==>
          var r := rounds[s - 1];
          entries[s] == Entry(Some(HonestCommit(seal, size, start, rounds[..s])), Some(r.move), Some(r.hint), Some(r.nonce),
                              Some(r.intent)))
  }

  lemma HonestNonces(entries: Entries, rounds: seq<Round>)
    requires forall s :: 1 <= s <= |rounds| ==> s in entries
    ensures WithNonces(entries, NoncesOf(rounds)).Keys == entries.Keys
    ensures forall s :: 1 <= s <= |rounds| ==>
              WithNonces(entries, NoncesOf(rounds))[s] == entries[s].(nonce := Some(rounds[s - 1].nonce))
  {
    hide WithNonces;
    var nonces := NoncesOf(rounds);
    NoncesExact(entries, nonces);
    var after := WithNonces(entries, nonces);
    forall s | 1 <= s <= |rounds| ensures after[s] == entries[s].(nonce := Some(rounds[s - 1].nonce)) {
      assert nonces[s - 1].0 == s;
    }
  }

  lemma HonestIntents(entries: Entries, rounds: seq<Round>)
    requires forall s :: 1 <= s <= |rounds| ==> s in entries
    ensures WithIntents(entries, IntentsOf(rounds)).Keys == entries.Keys
    ensures forall s :: 1 <= s <= |rounds| ==>
              WithIntents(entries, IntentsOf(rounds))[s] == entries[s].(intent := Some(rounds[s - 1].intent))
  {
    hide WithIntents;
    var intents := IntentsOf(rounds);
    IntentsExact(entries, intents);
    var after := WithIntents(entries, intents);
    forall s | 1 <= s <= |rounds| ensures after[s] == entries[s].(intent := Some(rounds[s - 1].intent)) {
      assert intents[s - 1].0 == s;
    }
  }

  lemma FinalRevealDiscloses(seal: Seal, size: int, start: Site, rounds: seq<Round>, entries: Entries)
    requires Recorded(seal, size, start, rounds, entries)
    ensures Disclosed(seal, size, start, rounds, WithIntents(WithNonces(entries, NoncesOf(rounds)), IntentsOf(rounds)))
  {
    hide HonestCommit, NoncesOf, IntentsOf, WithNonces, WithIntents;
    HonestNonces(entries, rounds);
    var middle := WithNonces(entries, NoncesOf(rounds));
    assert forall s :: s in middle <==> s in middle.Keys;
    HonestIntents(middle, rounds);
    var after := WithIntents(middle, IntentsOf(rounds));
    assert forall s :: s in after <==> s in after.Keys;
  }

  lemma {:induction false} HonestReplay(seal: Seal, size: int, start: Site, rounds: seq<Round>, entries: Entries, steps: seq<int>)
    requires Disclosed(seal, size, start, rounds, entries) && |steps| <= |rounds|
    requires forall i :: 0 <= i < |steps| ==> steps[i] == i + 1
    ensures HoldsAll(entries, steps) && Replay(size, start, entries, steps) == HonestSite(size, start, rounds[..|steps|])
  {
    hide HonestCommit, Apply;
    if steps != [] {
      var n := |steps| - 1;
      HonestReplay(seal, size, start, rounds, entries, steps[..n]);
      assert rounds[..n + 1][..n] == rounds[..n];
      HonestStep(size, start, rounds[..n + 1]);
      hide HonestSite;
      assert steps[n] == n + 1 && entries[n + 1].move == Some(rounds[n].move);
    }
  }

  lemma HonestSiteAt(seal: Seal, size: int, start: Site, rounds: seq<Round>, entries: Entries, s: int)
    requires Disclosed(seal, size, start, rounds, entries) && 1 <= s <= |rounds|
    ensures SiteAt(size, start, entries, s) == HonestSite(size, start, rounds[..s])
  {
    hide HonestCommit, Replay, HonestSite, Ascending;
    var keys := set k | k in entries && k <= s;
    var steps := seq(s, i => i + 1);
    forall k ensures k in steps <==> k in keys {
      if k in keys {
        assert steps[k - 1] == k;
      }
    }
    ListsUnique(Ascending(keys), steps, keys);
    HonestReplay(seal, size, start, rounds, entries, steps);
  }

  /** An honest Cop of k rounds, each message delivered any number of times, passes the audit
      its Final Reveal triggers with all k steps verified. */
  lemma HonestCopPasses(seal: Seal, size: int, start: Site, rounds: seq<Round>, times: seq<nat>)
    requires rounds != [] && Counts(Stream(seal, size, start, rounds), times)
    ensures var a := HandleAll(FRESH, Stuttered(Stream(seal, size, start, rounds), times));
            var t := Finished(a.trace, NoncesOf(rounds), IntentsOf(rounds));
            var report := AuditReport(seal, t.entries, t.claims, size, start);
            report.passed && report.verifiedSteps == |rounds|
  {
    hide AuditReport, SiteAt, Stuttered, Stream, HonestSite;
    RetriesAreInvisible(FRESH, Stream(seal, size, start, rounds), times);
    StreamRecorded(seal, size, start, rounds);
    HonestEntriesAuthentic(seal, size, start, rounds);
    var entries := HonestEntries(seal, size, start, rounds);
    PassesExactly(seal, entries, [], size, start);
    KeysUpTo(entries, |rounds|);
  }

  /** The entries an honest Cop's Final Reveal leaves. */
  function HonestEntries(seal: Seal, size: int, start: Site, rounds: seq<Round>): Entries {
    Finished(HandleAll(FRESH, Stream(seal, size, start, rounds)).trace, NoncesOf(rounds), IntentsOf(rounds)).entries
  }

  /** An honest Cop that, at any one step, first claims any wrong position and then its own:
      the audit passes although a claim was false, the two claims disagree, and had they come
      in the other order the audit would have failed. */
  lemma FalseClaimHides(seal: Seal, size: int, start: Site, rounds: seq<Round>, step: int, col: int, row: int)
    requires 1 <= step <= |rounds|
    requires var site := HonestSite(size, start, rounds[..step]); col != site.col || row != site.row
    ensures var site := HonestSite(size, start, rounds[..step]);
            var entries := HonestEntries(seal, size, start, rounds);
            var lie, truth := Claim(step, row, col, row, col, false), Claim(step, site.row, site.col, site.row, site.col, true);
            && AuditReport(seal, entries, [lie, truth], size, start).passed
            && !AllClaimsTrue(entries, [lie, truth], size, start) && !ClaimsAgree([lie, truth])
            && !AuditReport(seal, entries, [truth, lie], size, start).passed
  {
    hide AuditReport, SiteAt, HonestSite;
    var site := HonestSite(size, start, rounds[..step]);
    var entries := HonestEntries(seal, size, start, rounds);
    var lie, truth := Claim(step, row, col, row, col, false), Claim(step, site.row, site.col, site.row, site.col, true);
    HonestEntriesAuthentic(seal, size, start, rounds);
    hide HonestEntries;
    HonestSiteAt(seal, size, start, rounds, entries, step);
    ShadowedClaimPasses(seal, entries, size, start, lie, truth);
    assert lie in [lie, truth] && truth in [lie, truth];
  }

  lemma HonestEntriesAuthentic(seal: Seal, size: int, start: Site, rounds: seq<Round>)
    ensures var entries := HonestEntries(seal, size, start, rounds);
            && Disclosed(seal, size, start, rounds, entries) && AllAuthentic(seal, entries, size, start)
            && (rounds != [] ==> entries != map[])
  {
    hide SiteAt, Stream, HonestSite;
    StreamRecorded(seal, size, start, rounds);
    FinalRevealDiscloses(seal, size, start, rounds, HandleAll(FRESH, Stream(seal, size, start, rounds)).trace.entries);
    var entries := HonestEntries(seal, size, start, rounds);
    hide HonestEntries;
    forall s | s in entries ensures AuthenticAt(seal, entries, size, start, s) {
      HonestSiteAt(seal, size, start, rounds, entries, s);
      assert rounds[..s][s - 1] == rounds[s - 1];
    }
    if rounds != [] {
      assert 1 in entries;
    }
  }

  lemma KeysUpTo(entries: Entries, n: nat)
    requires forall s :: s in entries <==> 1 <= s <= n
    ensures |entries| == n
  {
    var steps := seq(n, i => i + 1);
    forall k ensures k in steps <==> k in entries.Keys {
      if k in entries {
        assert steps[k - 1] == k;
      }
    }
    ListsUnique(Ascending(entries.Keys), steps, entries.Keys);
  }

  // ---------- what reaches the round mailbox ----------

  /** The commit and the reveal of each round under the number of the round; a move that is none
      is shown as staying. */
  function Announced(seal: Seal, size: int, start: Site, rounds: seq<Round>): seq<Forwarded> {
    if rounds == [] then []
    else
      var r := rounds[|rounds| - 1];
      Announced(seal, size, start, rounds[..|rounds| - 1])
      + [CommitMove(|rounds|, HonestCommit(seal, size, start, rounds)),
         RevealMove(|rounds|, r.hint,
                    if r.move.kind == "move" && r.move.direction.Some? then r.move.direction.value else "STAY")]
  }

  lemma RoundAnnounced(a: Adapter, k: nat, h: string, move: CopMove, hint: string)
    requires Between(a, k)
    ensures var shown := if move.kind == "move" && move.direction.Some? then move.direction.value else "STAY";
            Handle(Handle(a, Commit(h)), Reveal(move, hint)).forwarded
              == a.forwarded + [CommitMove(k + 1, h), RevealMove(k + 1, hint, shown)]
  {
  }

  lemma {:induction false} StreamAnnounced(seal: Seal, size: int, start: Site, rounds: seq<Round>)
    ensures HandleAll(FRESH, Stream(seal, size, start, rounds)).forwarded == Announced(seal, size, start, rounds)
  {
    if rounds != [] {
      hide HonestCommit, Handle, HandleAll;
      var n := |rounds| - 1;
      var front, r := rounds[..n], rounds[n];
      StreamAnnounced(seal, size, start, front);
      StreamRecorded(seal, size, start, front);
      var before := HandleAll(FRESH, Stream(seal, size, start, front));
      var h := HonestCommit(seal, size, start, rounds);
      HandleAllSplits(FRESH, Stream(seal, size, start, front), [Commit(h), Reveal(r.move, r.hint)]);
      TwoMessages(before, Commit(h), Reveal(r.move, r.hint));
      RoundAnnounced(before, n, h, r.move, r.hint);
    } else {
      assert HandleAll(FRESH, []) == FRESH;
    }
  }

  /** However often the messages of an honest Cop are retried, the round mailbox is handed each
      commit and each reveal once, in order, under the right round. */
  lemma EachRoundForwardedOnce(seal: Seal, size: int, start: Site, rounds: seq<Round>, times: seq<nat>)
    requires Counts(Stream(seal, size, start, rounds), times)
    ensures HandleAll(FRESH, Stuttered(Stream(seal, size, start, rounds), times)).forwarded
         == Announced(seal, size, start, rounds)
  {
    RetriesAreInvisible(FRESH, Stream(seal, size, start, rounds), times);
    StreamAnnounced(seal, size, start, rounds);
  }
}
