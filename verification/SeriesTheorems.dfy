/** What holds over every run of a whole series between two honest peers. */
module SeriesTheorems {
  import opened Options
  import opened Turns
  import opened TurnLoop
  import opened SubGameProof
  import opened SubGameTheorems
  import opened Scoring
  import opened Series
  import opened SeriesTurns
  import opened SeriesAgreement

  /** Every turn in a peer's mailbox was sent in the sub-game the peer is in. */
  predicate Isolated(p: Peer) {
    forall k :: k in p.turns ==> p.turns[k].game == p.epoch && p.turns[k].step == k
  }

  lemma TurnInvIsolates(t: Terms, x: Peer, y: Peer)
    requires TurnInv(t, x, y)
    ensures Isolated(x)
  {
    if 1 <= x.epoch == y.epoch {
      BoxTags(x.epoch, y.loop, x.turns);
    }
  }

  /** Sub-game isolation. As long as no turn wait expired, the turns a peer can consume are
      turns of its own sub-game. In particular the reset between sub-games, which empties
      the mailbox of a peer about to start the next one, never drops a turn of that one. */
  lemma TurnsStayInTheirSubGame(t: Terms, ours: string, theirs: string, natural: Role, events: seq<PeerEvent>)
    requires 2 <= t.max
    ensures var w := RunSeries(t, Opening(ours, theirs, natural), events);
            !w.turnFault ==> Isolated(w.a) && Isolated(w.b)
  {
    RunKeepsTurnInv(t, ours, theirs, natural, events);
    var w := RunSeries(t, Opening(ours, theirs, natural), events);
    if !w.turnFault {
      TurnInvIsolates(t, w.a, w.b);
      TurnInvSymmetric(t, w.a, w.b);
      TurnInvIsolates(t, w.b, w.a);
    }
  }

  lemma StepKeepsGroups(t: Terms, me: Peer, you: Peer, act: Act)
    ensures PeerStep(t, me, you, act).0.group == me.group
    ensures PeerStep(t, me, you, act).1.group == you.group
  {
  }

  lemma {:induction false} GroupsStay(t: Terms, ours: string, theirs: string, natural: Role, events: seq<PeerEvent>)
    ensures var w := RunSeries(t, Opening(ours, theirs, natural), events); w.a.group == ours && w.b.group == theirs
  {
    if events != [] {
      GroupsStay(t, ours, theirs, natural, events[..|events| - 1]);
      var w, e := RunSeries(t, Opening(ours, theirs, natural), events[..|events| - 1]), events[|events| - 1];
      if e.first {
        StepKeepsGroups(t, w.a, w.b, e.act);
      } else {
        StepKeepsGroups(t, w.b, w.a, e.act);
      }
    }
  }

  lemma {:induction false} RunKeepsAuditInv(t: Terms, ours: string, theirs: string, natural: Role, events: seq<PeerEvent>)
    requires 2 <= t.max && ours != theirs
    ensures var w := RunSeries(t, Opening(ours, theirs, natural), events);
            !w.turnFault && !w.auditFault ==> TurnInv(t, w.a, w.b) && AuditInv(t, w.a, w.b)
  {
    RunKeepsTurnInv(t, ours, theirs, natural, events);
    if events != [] {
      RunKeepsAuditInv(t, ours, theirs, natural, events[..|events| - 1]);
      RunKeepsTurnInv(t, ours, theirs, natural, events[..|events| - 1]);
      GroupsStay(t, ours, theirs, natural, events[..|events| - 1]);
      var w, e := RunSeries(t, Opening(ours, theirs, natural), events[..|events| - 1]), events[|events| - 1];
      var w' := WorldStep(t, w, e);
      if !w'.turnFault && !w'.auditFault {
        if e.first {
          StepKeepsAuditInv(t, w.a, w.b, e.act);
        } else {
          TurnInvSymmetric(t, w.a, w.b);
          AuditInvSymmetric(t, w.a, w.b);
          StepKeepsAuditInv(t, w.b, w.a, e.act);
          var r := PeerStep(t, w.b, w.a, e.act);
          AuditInvSymmetric(t, r.0, r.1);
        }
      }
    }
  }

  /** Series agreement. In a fault-free series every audit is clean, both sides file the same
      results, and whoever settles confirms the agreement; once both have all reports, their
      consensus objects are equal. */
  lemma SeriesAgree(t: Terms, ours: string, theirs: string, natural: Role, events: seq<PeerEvent>)
    requires 2 <= t.max && ours != theirs
    ensures var w := RunSeries(t, Opening(ours, theirs, natural), events);
            !w.turnFault && !w.auditFault ==>
              && AllClean(w.a.reports) && AllClean(w.b.reports)
              && AllAgreed(w.a.reports) && AllAgreed(w.b.reports)
              && SameEnds(w.a, w.b)
              && (w.a.phase.Settled? ==> w.a.phase.agreed)
              && (w.b.phase.Settled? ==> w.b.phase.agreed)
              && (|w.a.reports| == |w.b.reports| ==> ConsensusOf(t, w.a, theirs) == ConsensusOf(t, w.b, ours))
  {
    var w := RunSeries(t, Opening(ours, theirs, natural), events);
    RunKeepsAuditInv(t, ours, theirs, natural, events);
    GroupsStay(t, ours, theirs, natural, events);
    if !w.turnFault && !w.auditFault {
      forall i | 0 <= i < |w.a.reports| ensures GoodReport(w.a, i, w.a.reports[i]) {}
      forall i | 0 <= i < |w.b.reports| ensures GoodReport(w.b, i, w.b.reports[i]) {}
      if |w.a.reports| == |w.b.reports| {
        SameReportsSameConsensus(t, w.a, w.b);
      }
    }
  }

  // ---------- no deadlock ----------

  /** The peer has a step to take without giving anything up. */
  predicate CanAct(p: Peer) {
    match p.phase
    case Between => true
    case Negotiating(sent) => !sent || p.epoch in p.offers
    case Playing => CanProceed(p.loop, p.turns)
    case Auditing(sent) => !sent || p.epoch in p.audits
    case Settling(sent) => !sent || p.consensus.Some?
    case Settled(_) => false
    case Crashed => false
  }

  /** The step is no fault, changes the peer that takes it and does not make it give up. */
  ghost predicate Advances(t: Terms, me: Peer, you: Peer, act: Act) {
    var r := PeerStep(t, me, you, act);
    r.2.NoFault? && r.0 != me && !r.0.phase.Crashed?
  }

  /** A peer that can act has a step that changes it and is no fault. */
  lemma CanActMeansProgress(t: Terms, me: Peer, you: Peer)
    requires TurnInv(t, me, you) && 2 <= t.max && CanAct(me)
    ensures exists act :: Advances(t, me, you, act)
  {
    PhaseFacts(t, me, you);
    assert me.epoch <= t.games;
    if me.phase.Playing? {
      PlayingProgress(t, me, you);
    } else {
      OtherProgress(t, me, you);
    }
  }

  lemma PlayingProgress(t: Terms, me: Peer, you: Peer)
    requires me.phase.Playing? && CanAct(me)
    ensures exists act :: Advances(t, me, you, act)
  {
    var choice := if CanPost(me.loop) then Post(ANY_PLAY, "") else Take(false, (0, 0));
    var loop := LoopStep(t.max, me.epoch, me.loop, me.turns, choice).0;
    assert if CanPost(me.loop) then |loop.sealed| == |me.loop.sealed| + 1 else loop.heard == me.loop.heard + 1;
    var r := PeerStep(t, me, you, TakeTurn(choice));
    assert r.2.NoFault? && r.0.loop == loop;
    assert Advances(t, me, you, TakeTurn(choice));
  }

  lemma OtherProgress(t: Terms, me: Peer, you: Peer)
    requires !me.phase.Playing? && CanAct(me) && me.epoch <= t.games
    requires me.phase.Auditing? ==> me.loop.pc.Done?
    requires me.phase.Negotiating? ==> !me.loop.pc.Aborted?
    ensures exists act :: Advances(t, me, you, act)
  {
    var act := match me.phase
      case Between => if me.epoch < t.games then Reset(None, "") else Settle
      case Negotiating(sent) => if sent then TakeOffer else SendOffer(true)
      case Auditing(sent) => if sent then TakeAudit else SubmitAudit(true)
      case _ => if me.phase == Settling(true) then TakeConsensus else SubmitConsensus(true);
    var r := PeerStep(t, me, you, act);
    assert r.2.NoFault? && r.0.phase != me.phase;
    assert Advances(t, me, you, act);
  }

  lemma ServedTogether(t: Terms, x: Peer, y: Peer)
    requires TurnInv(t, x, y) && AuditInv(t, x, y) && 2 <= t.max && 1 <= x.epoch == y.epoch
    requires !x.phase.Crashed? && !y.phase.Crashed? && !x.phase.Settled?
    ensures CanAct(x) || CanAct(y)
  {
    PhaseFacts(t, x, y);
    PhaseFacts(t, y, x);
    InvNeverStuckPair(t, x, y);
    assert PeerOk(t, x) && PeerOk(t, y);
    hide Linked, Fresh, ReportsOk, SameEnds, Fits, GoodReport, ConsensusOf, EnvelopeOf, EndOf, CanProceed;
  }

  lemma ServedBehind(t: Terms, x: Peer, y: Peer)
    requires TurnInv(t, x, y) && AuditInv(t, x, y) && 2 <= t.max && y.epoch == x.epoch + 1
    requires !x.phase.Crashed? && !y.phase.Crashed?
    ensures CanAct(x)
  {
    PhaseFacts(t, x, y);
    if 1 <= x.epoch {
      assert Quiet(x);
      if x.phase.Playing? {
        PlayingIsUnfinished(t, x);
        QuietCanAct(x);
      }
    }
    hide Linked, Quiet, Fresh, ReportsOk, SameEnds, Fits, GoodReport, ConsensusOf, EnvelopeOf, EndOf, CanProceed, OffersOk;
  }

  lemma QuietCanAct(p: Peer)
    requires Quiet(p) && p.phase.Playing? && !p.loop.pc.Done?
    ensures CanProceed(p.loop, p.turns)
  {
    hide SealedOk, HeardOk, Covers;
  }

  lemma WaitingPeerIsServed(t: Terms, x: Peer, y: Peer)
    requires TurnInv(t, x, y) && AuditInv(t, x, y) && 2 <= t.max
    requires !x.phase.Crashed? && !y.phase.Crashed? && !x.phase.Settled?
    ensures CanAct(x) || CanAct(y)
  {
    if y.epoch == x.epoch + 1 {
      ServedBehind(t, x, y);
    } else if x.epoch == y.epoch + 1 {
      TurnInvSymmetric(t, x, y);
      AuditInvSymmetric(t, x, y);
      ServedBehind(t, y, x);
    } else if 1 <= x.epoch {
      ServedTogether(t, x, y);
    } else {
      UnstartedCanAct(t, x, y);
    }
    hide AuditInv, CanAct;
  }

  lemma UnstartedCanAct(t: Terms, x: Peer, y: Peer)
    requires TurnInv(t, x, y) && AuditInv(t, x, y) && x.epoch == y.epoch == 0 && !x.phase.Settled?
    ensures CanAct(x) || CanAct(y)
  {
    assert PeerOk(t, x) && PeerOk(t, y);
    hide Linked, OffersOk, AuditsOk, ReportsOk, SameEnds, ConsensusOf;
  }

  lemma InvNeverStuckPair(t: Terms, x: Peer, y: Peer)
    requires TurnInv(t, x, y) && 2 <= t.max && 1 <= x.epoch == y.epoch
    ensures (Finished(x.loop) && Finished(y.loop))
         || CanProceed(x.loop, x.turns) || CanProceed(y.loop, y.turns)
  {
    InvNeverStuck(t.max, x.epoch, Pair(x, y));
  }

  /** No deadlock. In a fault-free series in which neither side gave up negotiating, either
      both have settled or one of them can act. */
  lemma SeriesNeverStuck(t: Terms, ours: string, theirs: string, natural: Role, events: seq<PeerEvent>)
    requires 2 <= t.max && ours != theirs
    ensures var w := RunSeries(t, Opening(ours, theirs, natural), events);
            !w.turnFault && !w.auditFault && !w.a.phase.Crashed? && !w.b.phase.Crashed? ==>
              (w.a.phase == w.b.phase == Settled(true)) || CanAct(w.a) || CanAct(w.b)
  {
    var w := RunSeries(t, Opening(ours, theirs, natural), events);
    RunKeepsAuditInv(t, ours, theirs, natural, events);
    if !w.turnFault && !w.auditFault && !w.a.phase.Crashed? && !w.b.phase.Crashed? {
      if !w.a.phase.Settled? {
        WaitingPeerIsServed(t, w.a, w.b);
      } else if !w.b.phase.Settled? {
        TurnInvSymmetric(t, w.a, w.b);
        AuditInvSymmetric(t, w.a, w.b);
        WaitingPeerIsServed(t, w.b, w.a);
      }
    }
  }
}
