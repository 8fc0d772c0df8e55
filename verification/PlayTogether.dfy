/** The Thief's and the Police's loop against each other: when each hears only what the other
    sent, the two are one run of the sub-game, and its guarantees speak of what they return. */
module PlayTogether {
  import opened Options
  import opened Geometry
  import opened Turns
  import opened TurnLoop
  import opened SubGameProof
  import opened SubGameTheorems
  import opened PlayLoops

  // ---------- what one side has put into the other's mailbox ----------

  function BoxOf(sent: seq<Message>): Mailbox {
    if sent == [] then map[] else Deliver(BoxOf(sent[..|sent| - 1]), Some(sent[|sent| - 1]))
  }

  lemma BoxGrows(sent: seq<Message>, m: Option<Message>)
    ensures BoxOf(if m.Some? then sent + [m.value] else sent) == Deliver(BoxOf(sent), m)
  {
    if m.Some? {
      assert (sent + [m.value])[..|sent|] == sent;
    }
  }

  function LoopAfter(c: Setting, start: Loop, trace: seq<Moment>): Loop {
    Follow(c.max, c.game, start, trace).0
  }

  function BoxAfter(c: Setting, start: Loop, trace: seq<Moment>): Mailbox {
    BoxOf(Follow(c.max, c.game, start, trace).1)
  }

  lemma AfterOneMore(c: Setting, start: Loop, trace: seq<Moment>, n: nat)
    requires n < |trace|
    ensures var (l, m) := LoopStep(c.max, c.game, LoopAfter(c, start, trace[..n]), trace[n].inbox, trace[n].choice);
            && LoopAfter(c, start, trace[..n + 1]) == l
            && BoxAfter(c, start, trace[..n + 1]) == Deliver(BoxAfter(c, start, trace[..n]), m)
  {
    assert trace[..n] + [trace[n]] == trace[..n + 1];
    FollowOne(c.max, c.game, start, trace[..n], trace[n]);
    hide LoopStep, Follow, Deliver;
    var l := LoopAfter(c, start, trace[..n]);
    BoxGrows(Follow(c.max, c.game, start, trace[..n]).1, LoopStep(c.max, c.game, l, trace[n].inbox, trace[n].choice).1);
    hide BoxOf;
  }

  /** The step of the next turn the loop can send. */
  function NextSent(l: Loop): int {
    match l.pc
    case Sending(k) => k
    case Waiting(k) => if l.role.Thief? then k + 1 else k
    case Closing(k) => k
    case _ => 0
  }

  predicate SendsAgain(l: Loop) {
    !l.pc.Done? && !l.pc.Aborted?
  }

  predicate SentBefore(box: Mailbox, l: Loop) {
    SendsAgain(l) ==> forall k :: k in box ==> k < NextSent(l)
  }

  lemma StepSendsNew(max: nat, game: nat, l: Loop, inbox: Mailbox, c: Choice, box: Mailbox)
    requires SentBefore(box, l)
    ensures var (l', m) := LoopStep(max, game, l, inbox, c);
            SentBefore(Deliver(box, m), l') && (m.Some? ==> m.value.step !in box)
  {
    if CanPost(l) && (c.Post? || c.PostFails?) {
      var s := Sealed(TurnPayload(max, l, c.play), c.nonce);
      assert s.payload.step == l.pc.step == NextSent(l);
      MessageStep(game, s);
      hide TurnPayload, MessageOf;
    }
  }

  lemma {:induction false} EachTurnIsNew(c: Setting, start: Loop, trace: seq<Moment>, n: nat)
    requires n <= |trace|
    ensures SentBefore(BoxAfter(c, start, trace[..n]), LoopAfter(c, start, trace[..n]))
  {
    if n == 0 {
      assert BoxAfter(c, start, trace[..0]) == map[];
    } else {
      EachTurnIsNew(c, start, trace, n - 1);
      AfterOneMore(c, start, trace, n - 1);
      StepSendsNew(c.max, c.game, LoopAfter(c, start, trace[..n - 1]), trace[n - 1].inbox, trace[n - 1].choice,
                   BoxAfter(c, start, trace[..n - 1]));
      hide SentBefore, BoxAfter, LoopAfter, LoopStep;
    }
  }

  /** A turn once sent is never overwritten by a later one. */
  lemma {:induction false} SentStays(c: Setting, start: Loop, trace: seq<Moment>, n: nat, k: int)
    requires n <= |trace| && k in BoxAfter(c, start, trace[..n])
    ensures k in BoxAfter(c, start, trace) && BoxAfter(c, start, trace)[k] == BoxAfter(c, start, trace[..n])[k]
    decreases |trace| - n
  {
    if n == |trace| {
      assert trace[..n] == trace;
    } else {
      EachTurnIsNew(c, start, trace, n);
      AfterOneMore(c, start, trace, n);
      StepSendsNew(c.max, c.game, LoopAfter(c, start, trace[..n]), trace[n].inbox, trace[n].choice,
                   BoxAfter(c, start, trace[..n]));
      hide SentBefore, BoxAfter, LoopAfter, LoopStep;
      SentStays(c, start, trace, n + 1, k);
    }
  }

  // ---------- the two loops as one run ----------

  /** Whatever the side hears, the other side sent. A wait may still run out on a turn that
      was sent. */
  ghost predicate HearsOnly(c: Setting, sent: seq<Message>) {
    forall k {:trigger c.out.inbox(k)} :: c.out.inbox(k).Some? ==> k in BoxOf(sent) && BoxOf(sent)[k] == c.out.inbox(k).value
  }

  lemma HeardWasSent(c: Setting, sent: seq<Message>, k: int)
    requires HearsOnly(c, sent) && c.out.inbox(k).Some?
    ensures k in BoxOf(sent) && BoxOf(sent)[k] == c.out.inbox(k).value
  {
    hide BoxOf;
  }

  /** The two sides of one sub-game: each driven by its own setting to the end of its trace. */
  datatype Sides = Sides(thief: Setting, police: Setting, thiefOpening: Sealed, policeOpening: Sealed,
                         thiefTrace: seq<Moment>, policeTrace: seq<Moment>)

  ghost predicate Opposed(s: Sides) {
    && s.thief.role.Thief? && s.police.role.Police? && s.thief.max == s.police.max && s.thief.game == s.police.game
    && IsOpening(Thief, s.thiefOpening) && IsOpening(Police, s.policeOpening)
  }

  function ThiefStart(s: Sides): Loop
    requires Opposed(s)
  {
    Start(s.thief.max, Thief, s.thiefOpening)
  }

  function PoliceStart(s: Sides): Loop
    requires Opposed(s)
  {
    Start(s.police.max, Police, s.policeOpening)
  }

  /** Both loops are driven, and each hears nothing but the other. */
  ghost predicate Facing(s: Sides) {
    && Opposed(s)
    && Driven(s.thief, ThiefStart(s), s.thiefTrace) && Driven(s.police, PoliceStart(s), s.policeTrace)
    && HearsOnly(s.thief, Follow(s.police.max, s.police.game, PoliceStart(s), s.policeTrace).1)
    && HearsOnly(s.police, Follow(s.thief.max, s.thief.game, ThiefStart(s), s.thiefTrace).1)
  }

  function RunOf(s: Sides, events: seq<Event>): SubGame
    requires Opposed(s)
  {
    Run(s.thief.max, s.thief.game, Opened(s.thief.max, s.thiefOpening, s.policeOpening), events)
  }

  /** The run stands where the first `i` moments of the Thief and `j` of the Police lead. */
  ghost predicate StandsAt(s: Sides, g: SubGame, i: nat, j: nat)
    requires Opposed(s) && i <= |s.thiefTrace| && j <= |s.policeTrace|
  {
    && g.thief == LoopAfter(s.thief, ThiefStart(s), s.thiefTrace[..i])
    && g.police == LoopAfter(s.police, PoliceStart(s), s.policeTrace[..j])
    && g.toPolice == BoxAfter(s.thief, ThiefStart(s), s.thiefTrace[..i])
    && g.toThief == BoxAfter(s.police, PoliceStart(s), s.policeTrace[..j])
  }

  /** The next moment of a driven loop can happen with this mailbox. */
  predicate CanTake(l: Loop, moment: Moment, box: Mailbox) {
    moment.choice.Take? ==> l.pc.Waiting? && l.pc.step in box
  }

  lemma MomentIsStep(c: Setting, l: Loop, box: Mailbox)
    requires Running(l)
    requires l.pc.Waiting? && c.out.inbox(l.pc.step).Some? ==> l.pc.step in box && box[l.pc.step] == c.out.inbox(l.pc.step).value
    ensures var moment := NextMoment(c, l);
            LoopStep(c.max, c.game, l, moment.inbox, moment.choice) == LoopStep(c.max, c.game, l, box, moment.choice)
  {
    hide PlayAt, CaughtBy, PositionAt, TurnPayload, Taken, Posted, MessageOf, PcAfterPost;
  }

  lemma NotReadyWaits(c: Setting, l: Loop, box: Mailbox)
    requires Running(l) && !CanTake(l, NextMoment(c, l), box)
    ensures l.pc.Waiting? && c.out.inbox(l.pc.step).Some? && l.pc.step !in box
  {
    hide PlayAt, CaughtBy, PositionAt;
  }

  /** A driven loop that is ready takes its next moment as a step of the run. */
  lemma ReadyMoves(c: Setting, start: Loop, trace: seq<Moment>, n: nat, box: Mailbox, other: seq<Message>)
    requires Driven(c, start, trace) && n < |trace| && HearsOnly(c, other)
    requires CanTake(LoopAfter(c, start, trace[..n]), trace[n], box)
    requires forall k :: k in box ==> k in BoxOf(other) && BoxOf(other)[k] == box[k]
    ensures var (l, m) := LoopStep(c.max, c.game, LoopAfter(c, start, trace[..n]), box, trace[n].choice);
            && LoopAfter(c, start, trace[..n + 1]) == l
            && BoxAfter(c, start, trace[..n + 1]) == Deliver(BoxAfter(c, start, trace[..n]), m)
  {
    var l := LoopAfter(c, start, trace[..n]);
    DrivenAt(c, start, trace, n);
    AfterOneMore(c, start, trace, n);
    hide BoxOf, BoxAfter, Follow, LoopStep, Driven, HearsOnly;
    if l.pc.Waiting? && c.out.inbox(l.pc.step).Some? {
      HeardWasSent(c, other, l.pc.step);
      assert trace[n].choice.Take?;
    }
    MomentIsStep(c, l, box);
  }

  lemma NothingRead(max: nat, game: nat, g: SubGame)
    requires Inv(max, game, g) && g.thief.pc.Waiting? && g.police.pc.Waiting?
    ensures g.thief.pc.step in g.toThief || g.police.pc.step in g.toPolice
  {
    hide SealedOk, HeardOk, FlagsOk, ReadOk;
  }

  /** Of two loops that have not both come to the end of their traces, one can go on. */
  lemma OneIsReady(s: Sides, g: SubGame, i: nat, j: nat)
    requires Facing(s) && i <= |s.thiefTrace| && j <= |s.policeTrace| && StandsAt(s, g, i, j)
    requires Inv(s.thief.max, s.thief.game, g)
    requires i < |s.thiefTrace| || j < |s.policeTrace|
    ensures (i < |s.thiefTrace| && CanTake(g.thief, s.thiefTrace[i], g.toThief))
         || (j < |s.policeTrace| && CanTake(g.police, s.policeTrace[j], g.toPolice))
  {
    hide Inv, Driven, HearsOnly, CanTake, Follow;
    assert s.thiefTrace[..|s.thiefTrace|] == s.thiefTrace && s.policeTrace[..|s.policeTrace|] == s.policeTrace;
    if i < |s.thiefTrace| && !CanTake(g.thief, s.thiefTrace[i], g.toThief) {
      DrivenAt(s.thief, ThiefStart(s), s.thiefTrace, i);
      NotReadyWaits(s.thief, g.thief, g.toThief);
      HeardWasSent(s.thief, Follow(s.police.max, s.police.game, PoliceStart(s), s.policeTrace).1, g.thief.pc.step);
    }
    if j < |s.policeTrace| && !CanTake(g.police, s.policeTrace[j], g.toPolice) {
      DrivenAt(s.police, PoliceStart(s), s.policeTrace, j);
      NotReadyWaits(s.police, g.police, g.toPolice);
      HeardWasSent(s.police, Follow(s.thief.max, s.thief.game, ThiefStart(s), s.thiefTrace).1, g.police.pc.step);
      if i < |s.thiefTrace| && !CanTake(g.thief, s.thiefTrace[i], g.toThief) {
        NothingRead(s.thief.max, s.thief.game, g);
      }
    }
  }

  lemma BoxIsOther(c: Setting, start: Loop, trace: seq<Moment>, n: nat, box: Mailbox)
    requires n <= |trace| && box == BoxAfter(c, start, trace[..n])
    ensures forall k :: k in box ==> k in BoxAfter(c, start, trace) && BoxAfter(c, start, trace)[k] == box[k]
  {
    forall k | k in box ensures k in BoxAfter(c, start, trace) && BoxAfter(c, start, trace)[k] == box[k] {
      SentStays(c, start, trace, n, k);
    }
  }

  lemma ThiefMoves(s: Sides, g: SubGame, i: nat, j: nat)
    requires Facing(s) && i < |s.thiefTrace| && j <= |s.policeTrace| && StandsAt(s, g, i, j)
    requires CanTake(g.thief, s.thiefTrace[i], g.toThief)
    ensures StandsAt(s, SubStep(s.thief.max, s.thief.game, g, Event(Thief, s.thiefTrace[i].choice)), i + 1, j)
  {
    hide Driven, HearsOnly, CanTake, LoopStep, Deliver;
    BoxIsOther(s.police, PoliceStart(s), s.policeTrace, j, g.toThief);
    ReadyMoves(s.thief, ThiefStart(s), s.thiefTrace, i, g.toThief,
               Follow(s.police.max, s.police.game, PoliceStart(s), s.policeTrace).1);
    hide LoopAfter;
  }

  lemma PoliceMoves(s: Sides, g: SubGame, i: nat, j: nat)
    requires Facing(s) && i <= |s.thiefTrace| && j < |s.policeTrace| && StandsAt(s, g, i, j)
    requires CanTake(g.police, s.policeTrace[j], g.toPolice)
    ensures StandsAt(s, SubStep(s.thief.max, s.thief.game, g, Event(Police, s.policeTrace[j].choice)), i, j + 1)
  {
    hide Driven, HearsOnly, CanTake, LoopStep, Deliver;
    BoxIsOther(s.thief, ThiefStart(s), s.thiefTrace, i, g.toPolice);
    ReadyMoves(s.police, PoliceStart(s), s.policeTrace, j, g.toPolice,
               Follow(s.thief.max, s.thief.game, ThiefStart(s), s.thiefTrace).1);
    hide LoopAfter;
  }

  lemma {:induction false} Interleave(s: Sides, i: nat, j: nat, events: seq<Event>) returns (all: seq<Event>)
    requires Facing(s) && i <= |s.thiefTrace| && j <= |s.policeTrace| && StandsAt(s, RunOf(s, events), i, j)
    ensures StandsAt(s, RunOf(s, all), |s.thiefTrace|, |s.policeTrace|)
    decreases |s.thiefTrace| + |s.policeTrace| - i - j
  {
    var g := RunOf(s, events);
    if i == |s.thiefTrace| && j == |s.policeTrace| {
      return events;
    }
    StartsInv(s.thief.max, s.thief.game, s.thiefOpening, s.policeOpening);
    RunKeepsInv(s.thief.max, s.thief.game, Opened(s.thief.max, s.thiefOpening, s.policeOpening), events);
    OneIsReady(s, g, i, j);
    hide Inv, CanTake, StandsAt, Driven, HearsOnly, SubStep, Opened;
    if i < |s.thiefTrace| && CanTake(g.thief, s.thiefTrace[i], g.toThief) {
      var e := Event(Thief, s.thiefTrace[i].choice);
      ThiefMoves(s, g, i, j);
      RunStep(s.thief.max, s.thief.game, Opened(s.thief.max, s.thiefOpening, s.policeOpening), events, e);
      all := Interleave(s, i + 1, j, events + [e]);
    } else {
      var e := Event(Police, s.policeTrace[j].choice);
      PoliceMoves(s, g, i, j);
      RunStep(s.thief.max, s.thief.game, Opened(s.thief.max, s.thiefOpening, s.policeOpening), events, e);
      all := Interleave(s, i, j + 1, events + [e]);
    }
  }

  /** What the two loops do on their own, hearing only each other, is one run of the sub-game:
      some interleaving of their steps ends where they end, with the mailboxes they filled. */
  lemma TwoLoopsAreOneRun(s: Sides) returns (events: seq<Event>)
    requires Facing(s)
    ensures var (thief, fromThief) := Follow(s.thief.max, s.thief.game, ThiefStart(s), s.thiefTrace);
            var (police, fromPolice) := Follow(s.police.max, s.police.game, PoliceStart(s), s.policeTrace);
            RunOf(s, events) == SubGame(thief, police, BoxOf(fromPolice), BoxOf(fromThief))
  {
    assert s.thiefTrace[..0] == [] && s.policeTrace[..0] == [];
    assert StandsAt(s, RunOf(s, []), 0, 0);
    events := Interleave(s, 0, 0, []);
    hide Follow, Run, Driven, HearsOnly;
    assert s.thiefTrace[..|s.thiefTrace|] == s.thiefTrace && s.policeTrace[..|s.policeTrace|] == s.policeTrace;
  }

  /** What two loops return that hear only each other: no contradicting results, and clean
      audits of what they sealed once both have finished. */
  lemma ReturnsAgree(s: Sides, thief: Loop, fromThief: seq<Message>, police: Loop, fromPolice: seq<Message>)
    requires Opposed(s)
    requires Reaches(s.thief, ThiefStart(s), s.thiefTrace, thief, fromThief)
    requires Reaches(s.police, PoliceStart(s), s.policeTrace, police, fromPolice)
    requires HearsOnly(s.thief, fromPolice) && HearsOnly(s.police, fromThief)
    ensures var t, p := ReturnedBy(thief), ReturnedBy(police);
            && (t.result == Some(Timeout) && p.result.Some? ==> p.result == Some(Timeout))
            && (p.result.Some? && p.result != Some(Timeout) && !thief.pc.Aborted? ==> t.result == p.result)
            && (t.result == p.result && t.result.Some? && t.result != Some(Timeout) && 2 <= s.thief.max ==>
                  && AuditOf(t.sealed, p.peerCommits) == [] && AuditOf(p.sealed, t.peerCommits) == []
                  && p.peerCommits == t.myCommits && t.peerCommits == p.myCommits)
  {
    hide Driven, HearsOnly, AuditOf;
    var events := TwoLoopsAreOneRun(s);
    var g := RunOf(s, events);
    hide Follow, Run, BoxOf, Opened;
    assert Reachable(s.thief.max, s.thief.game, g);
    hide Reachable;
    ResultsNeverContradict(s.thief.max, s.thief.game, g);
    if 2 <= s.thief.max {
      HonestAuditsAreClean(s.thief.max, s.thief.game, g);
    }
  }

  // ---------- capture, by where the two stand ----------

  /** The two stand on one cell after the Police's `k`-th move, or the Thief is boxed in by what
      it knew from the start. */
  ghost predicate Meet(s: Sides, k: int) {
    || PositionAt(s.thief, k) == PositionAt(s.police, k)
    || Enclosed(s.thief.size, s.thief.known, PositionAt(s.thief, k))
  }

  lemma {:induction false} LearnsNothing(c: Setting, k: nat)
    requires forall j :: 1 <= j <= k && c.out.inbox(j).Some? ==> c.out.inbox(j).value.barrier.None?
    ensures Known(c, k) == c.known
  {
    if k != 0 {
      LearnsNothing(c, k - 1);
    }
  }

  /** The Police's message of step `k` claims the cell it stands on and places no barrier. */
  lemma PoliceMessage(s: Sides, police: Loop, fromPolice: seq<Message>, g: SubGame, k: int)
    requires Opposed(s) && Reaches(s.police, PoliceStart(s), s.policeTrace, police, fromPolice)
    requires Inv(s.thief.max, s.thief.game, g) && g.police == police && g.toThief == BoxOf(fromPolice)
    requires k in BoxOf(fromPolice)
    ensures var m := BoxOf(fromPolice)[k]; m.claim == Some(PositionAt(s.police, k)) && m.barrier.None?
  {
    PoliceEndSoFar(s.police, s.policeOpening, s.policeTrace, police, fromPolice);
    BoxStep(s.thief.game, police, g.toThief, k);
    hide Reaches, BoxOf, PositionAt, FieldAt, Decided, Start;
    assert police.sealed[k] == Sealed(TurnAt(s.police, k), s.police.out.nonce(k));
  }

  /** What the Thief reads of the Police is where the Police stands. */
  lemma RepliesTell(s: Sides, thief: Loop, police: Loop, fromPolice: seq<Message>, g: SubGame, k: int)
    requires Opposed(s) && Reaches(s.police, PoliceStart(s), s.policeTrace, police, fromPolice)
    requires HearsOnly(s.thief, fromPolice)
    requires Inv(s.thief.max, s.thief.game, g) && g.police == police && g.toThief == BoxOf(fromPolice)
    requires 1 <= k <= thief.heard && AllRead(s.thief, thief.heard)
    ensures CaughtAt(s.thief, k) <==> Meet(s, k)
  {
    hide BoxOf, Inv, Reaches, HearsOnly, PositionAt, Known, Enclosed;
    forall j | 1 <= j <= k && s.thief.out.inbox(j).Some?
      ensures s.thief.out.inbox(j).value.barrier.None? && s.thief.out.inbox(j).value.claim == Some(PositionAt(s.police, j))
    {
      HeardWasSent(s.thief, fromPolice, j);
      PoliceMessage(s, police, fromPolice, g, j);
    }
    LearnsNothing(s.thief, k);
    assert s.thief.out.inbox(k).Some?;
  }

  /** Capture happens exactly where the rules put it. Of two loops that hear only each other,
      neither giving up waiting nor failing to send, both return capture if at some turn before
      the last the Police has moved onto the Thief's cell or the Thief is boxed in, and both
      return survival otherwise. */
  lemma CaptureExactly(s: Sides, thief: Loop, fromThief: seq<Message>, police: Loop, fromPolice: seq<Message>)
    requires Opposed(s)
    requires Reaches(s.thief, ThiefStart(s), s.thiefTrace, thief, fromThief)
    requires Reaches(s.police, PoliceStart(s), s.policeTrace, police, fromPolice)
    requires HearsOnly(s.thief, fromPolice) && HearsOnly(s.police, fromThief)
    requires Finished(thief) && Finished(police)
    ensures thief.pc == police.pc
    ensures thief.pc == Done(Capture) <==> exists k :: 1 <= k < s.thief.max && Meet(s, k)
    ensures thief.pc == Done(Capture) ==> Meet(s, thief.heard) && forall k :: 1 <= k < thief.heard ==> !Meet(s, k)
  {
    hide Driven, HearsOnly, Follow, BoxOf, Inv, Start, Meet, CaughtAt, SealsTurns, AllRead, NeverCaught;
    var g := RunReached(s, thief, fromThief, police, fromPolice);
    ThiefEndSoFar(s.thief, s.thiefOpening, s.thiefTrace, thief, fromThief);
    hide Reaches;
    ResultsNeverContradict(s.thief.max, s.thief.game, g);
    hide Reachable;
    forall k | 1 <= k <= thief.heard ensures CaughtAt(s.thief, k) <==> Meet(s, k) {
      RepliesTell(s, thief, police, fromPolice, g, k);
    }
    MeetingEnds(s, thief, g);
  }

  /** The run the two loops are. */
  lemma RunReached(s: Sides, thief: Loop, fromThief: seq<Message>, police: Loop, fromPolice: seq<Message>) returns (g: SubGame)
    requires Opposed(s)
    requires Reaches(s.thief, ThiefStart(s), s.thiefTrace, thief, fromThief)
    requires Reaches(s.police, PoliceStart(s), s.policeTrace, police, fromPolice)
    requires HearsOnly(s.thief, fromPolice) && HearsOnly(s.police, fromThief)
    ensures g == SubGame(thief, police, BoxOf(fromPolice), BoxOf(fromThief))
    ensures Reachable(s.thief.max, s.thief.game, g) && Inv(s.thief.max, s.thief.game, g)
  {
    hide Driven, HearsOnly;
    var events := TwoLoopsAreOneRun(s);
    g := RunOf(s, events);
    hide Follow, Run, BoxOf, Opened, Inv;
    assert Reachable(s.thief.max, s.thief.game, g);
    ReachableInv(s.thief.max, s.thief.game, g);
  }

  /** The first meeting the Thief reads ends its loop in capture, and only a meeting does. */
  lemma MeetingEnds(s: Sides, thief: Loop, g: SubGame)
    requires ThiefSoFar(s.thief, thief) && Finished(thief) && g.thief == thief && Inv(s.thief.max, s.thief.game, g)
    requires forall k :: 1 <= k <= thief.heard ==> (CaughtAt(s.thief, k) <==> Meet(s, k))
    ensures thief.pc == Done(Capture) <==> exists k :: 1 <= k < s.thief.max && Meet(s, k)
    ensures thief.pc == Done(Capture) ==> Meet(s, thief.heard) && forall k :: 1 <= k < thief.heard ==> !Meet(s, k)
  {
    hide Inv, Meet, CaughtAt, SealsTurns, AllRead;
    if thief.pc == Done(Capture) {
      HeardBelowMax(s.thief.max, s.thief.game, g);
      assert Meet(s, thief.heard);
    }
  }

  lemma HeardBelowMax(max: nat, game: nat, g: SubGame)
    requires Inv(max, game, g) && g.thief.pc == Done(Capture)
    ensures g.thief.heard < max
  {
    hide SealedOk, BoxOk, HeardOk, FlagsOk, ReadOk;
  }
}
