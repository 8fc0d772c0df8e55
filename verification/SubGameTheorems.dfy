/** The guarantees of one sub-game, over every interleaving of the two turn loops. */
module SubGameTheorems {
  import opened Options
  import opened Geometry
  import opened Turns
  import opened TurnLoop
  import opened SubGameProof

  ghost predicate Reachable(max: nat, game: nat, g: SubGame) {
    exists to, po, events ::
      IsOpening(Thief, to) && IsOpening(Police, po) && g == Run(max, game, Opened(max, to, po), events)
  }

  lemma ReachableInv(max: nat, game: nat, g: SubGame)
    requires Reachable(max, game, g)
    ensures Inv(max, game, g)
  {
    var to, po, events :|
      IsOpening(Thief, to) && IsOpening(Police, po) && g == Run(max, game, Opened(max, to, po), events);
    StartsInv(max, game, to, po);
    RunKeepsInv(max, game, Opened(max, to, po), events);
  }

  // ---------- the results the two sides return ----------

  /** Whatever times out or fails on the way: the two sides never return capture against
      survival, and a Thief that timed out leaves the Police no other result. */
  lemma ResultsNeverContradict(max: nat, game: nat, g: SubGame)
    requires Reachable(max, game, g)
    ensures Finished(g.thief) && Finished(g.police) ==> g.thief.pc == g.police.pc
    ensures g.thief.pc == Done(Timeout) && g.police.pc.Done? ==> g.police.pc == Done(Timeout)
    ensures Finished(g.police) ==> g.thief.pc == g.police.pc || g.thief.pc.Aborted?
  {
    ReachableInv(max, game, g);
    if Finished(g.police) {
      var h := g.police.heard;
      assert g.toPolice[h] == MessageOf(game, g.thief.sealed[h]);
    }
  }

  /** Without waiting for a timeout, the loop has something to do. */
  predicate CanProceed(l: Loop, inbox: Mailbox) {
    CanPost(l) || (l.pc.Waiting? && l.pc.step in inbox)
  }

  predicate FaultFree(l: Loop) {
    !l.pc.Aborted? && l.pc != Done(Timeout)
  }

  lemma InvNeverStuck(max: nat, game: nat, g: SubGame)
    requires Inv(max, game, g) && 2 <= max
    requires FaultFree(g.thief) && FaultFree(g.police)
    ensures || (Finished(g.thief) && g.thief.pc == g.police.pc)
            || CanProceed(g.thief, g.toThief)
            || CanProceed(g.police, g.toPolice)
  {
    var h := g.police.heard;
    assert 1 <= h ==> g.toPolice[h] == MessageOf(game, g.thief.sealed[h]);
  }

  /** From two steps on there is no deadlock: as long as nobody gave up, either both sides
      have returned the same result or one of them can go on. */
  lemma NeverStuck(max: nat, game: nat, g: SubGame)
    requires Reachable(max, game, g) && 2 <= max
    requires FaultFree(g.thief) && FaultFree(g.police)
    ensures || (Finished(g.thief) && g.thief.pc == g.police.pc)
            || CanProceed(g.thief, g.toThief)
            || CanProceed(g.police, g.toPolice)
  {
    ReachableInv(max, game, g);
    InvNeverStuck(max, game, g);
  }

  function Work(g: SubGame): int {
    Sent(g.thief) + Sent(g.police) + g.thief.heard + g.police.heard
  }

  lemma StepIsWork(max: nat, game: nat, l: Loop, inbox: Mailbox, c: Choice)
    requires c.Post? || c.Take?
    ensures var (l', m) := LoopStep(max, game, l, inbox, c);
            (l' == l && m.None?) || Sent(l') + l'.heard == Sent(l) + l.heard + 1
  {
    hide TurnPayload, MessageOf, PcAfterPost;
  }

  lemma InvBoundsWork(max: nat, game: nat, g: SubGame)
    requires Inv(max, game, g) && FaultFree(g.thief) && FaultFree(g.police)
    ensures 0 <= Work(g) <= 4 * max
  {
    hide SealedOk, BoxOk, HeardOk, FlagsOk, ReadOk;
    assert Sent(g.thief) >= 0 && Sent(g.police) >= 0 by { SealedCounts(g.thief); SealedCounts(g.police); }
  }

  lemma SealedCounts(l: Loop)
    requires SealedOk(l)
    ensures 0 <= Sent(l)
  {
  }

  /** Every step of a loop that can proceed is one unit of work, and there are at most four
      units per round: a fault-free sub-game ends. */
  lemma WorkIsBounded(max: nat, game: nat, g: SubGame, e: Event)
    requires Reachable(max, game, g)
    requires FaultFree(g.thief) && FaultFree(g.police)
    requires e.choice.Post? || e.choice.Take?
    ensures 0 <= Work(g) <= 4 * max
    ensures SubStep(max, game, g, e) == g || Work(SubStep(max, game, g, e)) == Work(g) + 1
  {
    ReachableInv(max, game, g);
    hide Inv, LoopStep;
    InvBoundsWork(max, game, g);
    match e.role
    case Thief => StepIsWork(max, game, g.thief, g.toThief, e.choice);
    case Police => StepIsWork(max, game, g.police, g.toPolice, e.choice);
  }

  const ANY_PLAY := Play(None, "", map[], None, Some((0, 0)))

  /** The quickest capture: one full round, then the Thief's closing message. */
  const QUICK_CAPTURE: seq<Event> := [
    Event(Thief, Post(ANY_PLAY, "")), Event(Police, Take(false, (0, 0))),
    Event(Police, Post(ANY_PLAY, "")), Event(Thief, Take(true, (0, 0))),
    Event(Thief, Post(ANY_PLAY, "")), Event(Police, Take(false, (0, 0)))]

  lemma RunStep(max: nat, game: nat, g: SubGame, events: seq<Event>, e: Event)
    ensures Run(max, game, g, events + [e]) == SubStep(max, game, Run(max, game, g, events), e)
  {
    assert (events + [e])[..|events|] == events;
  }

  lemma QuickCaptureAgrees(max: nat, game: nat, to: Sealed, po: Sealed)
    requires 2 <= max && IsOpening(Thief, to) && IsOpening(Police, po)
    ensures var g := Run(max, game, Opened(max, to, po), QUICK_CAPTURE);
            g.thief.pc == g.police.pc == Done(Capture)
  {
    var g0 := Opened(max, to, po);
    var q := QUICK_CAPTURE;
    var g1 := SubStep(max, game, g0, q[0]);
    var g2 := SubStep(max, game, g1, q[1]);
    var g3 := SubStep(max, game, g2, q[2]);
    assert g3.thief.pc == Waiting(1) && 1 in g3.toThief;
    var g4 := SubStep(max, game, g3, q[3]);
    var g5 := SubStep(max, game, g4, q[4]);
    assert g5.police.pc == Waiting(2) && 2 in g5.toPolice && g5.toPolice[2].SaysCaught();
    assert q[..1] == [] + [q[0]] && q[..2] == q[..1] + [q[1]] && q[..3] == q[..2] + [q[2]];
    assert q[..4] == q[..3] + [q[3]] && q[..5] == q[..4] + [q[4]] && q == q[..5] + [q[5]];
    RunStep(max, game, g0, [], q[0]);
    RunStep(max, game, g0, q[..1], q[1]);
    RunStep(max, game, g0, q[..2], q[2]);
    RunStep(max, game, g0, q[..3], q[3]);
    RunStep(max, game, g0, q[..4], q[4]);
    RunStep(max, game, g0, q[..5], q[5]);
  }

  lemma ShortGamesDiffer(max: nat, game: nat, g: SubGame)
    requires Inv(max, game, g) && max < 2 && g.thief.pc.Done?
    ensures g.thief.pc == Done(Survival) && !Finished(g.police)
  {
    hide SealedOk, BoxOk, HeardOk, FlagsOk, ReadOk;
  }

  /** Two honest peers can return the same result exactly when a sub-game has at least two
      steps. With fewer, the Police does not read the Thief's opening for a survival claim
      and is left waiting for a turn that never comes. */
  lemma AgreementNeedsTwoSteps(max: nat, game: nat)
    ensures (exists g :: Reachable(max, game, g) && g.thief.pc.Done? && g.thief.pc == g.police.pc) <==> 2 <= max
  {
    if 2 <= max {
      var to, po := Sealed(Declaration(Thief, None), ""), Sealed(Declaration(Police, None), "");
      QuickCaptureAgrees(max, game, to, po);
      hide Run, Opened;
      var g := Run(max, game, Opened(max, to, po), QUICK_CAPTURE);
      assert Reachable(max, game, g);
    } else {
      hide Inv, Reachable;
      forall g | Reachable(max, game, g) && g.thief.pc.Done?
        ensures g.thief.pc == Done(Survival) && !Finished(g.police)
      {
        ReachableInv(max, game, g);
        ShortGamesDiffer(max, game, g);
      }
    }
  }

  // ---------- the audit of an honest sub-game ----------

  lemma AuditCountsSteps(game: nat, sender: Loop, box: Mailbox, reader: Loop)
    requires SealedOk(sender) && BoxOk(game, sender, box) && HeardOk(reader, box)
    requires reader.heard <= Arrived(sender, box)
    ensures AuditOf(sender.sealed, reader.peerCommits) == [] <==> reader.heard == Sent(sender)
  {
    AuditCleanExactly(sender.sealed, reader.peerCommits);
    forall i | 1 <= i < |sender.sealed|
      ensures i <= reader.heard ==> i in reader.peerCommits && reader.peerCommits[i] == Commit(sender.sealed[i])
      ensures i in reader.peerCommits <==> i <= reader.heard
    {
      if i <= reader.heard {
        assert box[i] == MessageOf(game, sender.sealed[i]);
        assert reader.peerCommits[i] == box[i].commit;
      }
    }
    if reader.heard < Sent(sender) {
      var i := Sent(sender);
      assert sender.sealed[i].payload.Turn? && sender.sealed[i].payload.step == i;
    }
  }

  /** At every point of every run, each side's audit of what the other has sealed is clean
      exactly when it has consumed all of it. An honest peer is thus called a tamperer when,
      and only when, one of its turns was sealed but never consumed. */
  lemma AuditCleanExactlyWhenAllConsumed(max: nat, game: nat, g: SubGame)
    requires Reachable(max, game, g)
    ensures AuditOf(g.thief.sealed, g.police.peerCommits) == [] <==> g.police.heard == Sent(g.thief)
    ensures AuditOf(g.police.sealed, g.thief.peerCommits) == [] <==> g.thief.heard == Sent(g.police)
  {
    ReachableInv(max, game, g);
    AuditCountsSteps(game, g.thief, g.toPolice, g.police);
    AuditCountsSteps(game, g.police, g.toThief, g.thief);
  }

  /** A finished sub-game is clean in both directions, for capture and survival alike; the
      commits held are those of exactly the turns disclosed. After a Thief timeout the
      Thief's verdict turns on whether the awaited reply was sealed after all. */
  lemma HonestAuditsAreClean(max: nat, game: nat, g: SubGame)
    requires Reachable(max, game, g) && 2 <= max
    ensures Finished(g.thief) && Finished(g.police) ==>
              && AuditOf(g.thief.sealed, g.police.peerCommits) == []
              && AuditOf(g.police.sealed, g.thief.peerCommits) == []
              && g.police.peerCommits == g.thief.myCommits
              && g.thief.peerCommits == g.police.myCommits
    ensures g.thief.pc == Done(Timeout) ==>
              (AuditOf(g.police.sealed, g.thief.peerCommits) == [] <==> Sent(g.police) < Sent(g.thief))
  {
    ReachableInv(max, game, g);
    AuditCleanExactlyWhenAllConsumed(max, game, g);
    hide Reachable, AuditOf;
    if Finished(g.thief) && Finished(g.police) {
      FinishedConsumesAll(max, game, g);
      CommitsHeard(game, g.thief, g.toPolice, g.police);
      CommitsHeard(game, g.police, g.toThief, g.thief);
    }
    hide SealedOk, BoxOk, HeardOk, FlagsOk, ReadOk;
  }

  lemma FinishedConsumesAll(max: nat, game: nat, g: SubGame)
    requires Inv(max, game, g) && 2 <= max && Finished(g.thief) && Finished(g.police)
    ensures g.police.heard == Sent(g.thief) && g.thief.heard == Sent(g.police)
  {
    var h := g.police.heard;
    assert g.toPolice[h] == MessageOf(game, g.thief.sealed[h]);
    hide HeardOk;
  }

  /** A side that has consumed everything sent holds the sender's own commits. */
  lemma CommitsHeard(game: nat, sender: Loop, box: Mailbox, reader: Loop)
    requires SealedOk(sender) && BoxOk(game, sender, box) && HeardOk(reader, box)
    requires reader.heard == Sent(sender) <= Arrived(sender, box)
    ensures reader.peerCommits == sender.myCommits
  {
    var n := Sent(sender);
    forall i | 1 <= i <= n ensures i in reader.peerCommits && reader.peerCommits[i] == sender.myCommits[i] {
      BoxEntry(game, sender, box, i);
      HeardEntry(reader, box, i);
    }
    SameCovered(reader.peerCommits, sender.myCommits, n);
  }

  lemma SameCovered<X>(a: map<int, X>, b: map<int, X>, n: int)
    requires Covers(a, n) && Covers(b, n)
    requires forall i :: 1 <= i <= n ==> i in a && i in b && a[i] == b[i]
    ensures a == b
  {
    forall i ensures i in a <==> i in b {
    }
    forall i | i in a ensures a[i] == b[i] {
    }
  }

  /** The message shows every field of the payload but the move, and commits to all of it. */
  predicate Shows(m: Message, s: Sealed) {
    && s.payload.Turn? && m.step == s.payload.step && m.sender == s.payload.sender
    && m.hint == s.payload.hint && m.smell == s.payload.smell
    && m.barrier == s.payload.barrier && m.claim == s.payload.claim
    && m.response == s.payload.response && m.win == s.payload.win
    && m.commit.of == s
  }

  lemma EachShows(game: nat, sender: Loop, box: Mailbox, k: int)
    requires SealedOk(sender) && BoxOk(game, sender, box) && k in box
    ensures 1 <= k < |sender.sealed| && Shows(box[k], sender.sealed[k]) && box[k].step == k && box[k].game == game
  {
    BoxStep(game, sender, box, k);
    hide SealedOk, BoxOk;
  }

  /** What was heard live is what is disclosed at the end: every message that ever reached a
      mailbox agrees in all its fields with the turn its sender disclosed for that step. */
  lemma HeardIsDisclosed(max: nat, game: nat, g: SubGame, k: int)
    requires Reachable(max, game, g)
    ensures k in g.toPolice ==> 1 <= k < |g.thief.sealed| && Shows(g.toPolice[k], g.thief.sealed[k])
    ensures k in g.toThief ==> 1 <= k < |g.police.sealed| && Shows(g.toThief[k], g.police.sealed[k])
  {
    ReachableInv(max, game, g);
    hide Reachable, SealedOk, BoxOk;
    if k in g.toPolice {
      EachShows(game, g.thief, g.toPolice, k);
    }
    if k in g.toThief {
      EachShows(game, g.police, g.toThief, k);
    }
  }
}
