/** Audits, reports and consensus of a series without faults. */
module SeriesAgreement {
  import opened Options
  import opened Turns
  import opened TurnLoop
  import opened SubGameProof
  import opened SubGameTheorems
  import opened Scoring
  import opened Series
  import opened SeriesTurns

  /** Sub-games this peer has filed a report on. */
  function Filed(p: Peer): int {
    if p.phase.Between? || p.phase.Settling? || p.phase.Settled? || p.epoch == 0 then p.epoch else p.epoch - 1
  }

  predicate GoodReport(p: Peer, i: nat, r: Report) {
    r.role == RoleFor(p.natural, i + 1) && !r.end.Timeout? && r.verified && !r.tampered && r.peerClaim == Some(r.end)
  }

  ghost predicate ReportsOk(p: Peer) {
    && |p.reports| == Filed(p)
    && (forall i {:trigger p.reports[i]} :: 0 <= i < |p.reports| ==> GoodReport(p, i, p.reports[i]))
    && (1 <= p.epoch && Filed(p) == p.epoch && p.loop.pc.Done? ==> p.reports[p.epoch - 1].end == p.loop.pc.result)
  }

  ghost predicate SameEnds(x: Peer, y: Peer) {
    forall i {:trigger x.reports[i]} {:trigger y.reports[i]} ::
      0 <= i < |x.reports| && i < |y.reports| ==> x.reports[i].end == y.reports[i].end
  }

  /** How the current sub-game of a quiet peer ends. */
  function EndOf(p: Peer): GameResult {
    if p.loop.pc.Done? then p.loop.pc.result
    else if Final(p) in p.turns && p.turns[Final(p)].SaysCaught() then Capture else Survival
  }

  /** The disclosure accounts for exactly the turns in the mailbox. */
  ghost predicate Fits(records: seq<Sealed>, turns: Mailbox) {
    && 1 <= |records| && records[0].payload.Declaration?
    && Covers(turns, |records| - 1)
    && (forall i {:trigger records[i]} :: 1 <= i < |records| ==>
          && records[i].payload.Turn? && records[i].payload.step == i
          && i in turns && turns[i].commit == Commit(records[i]))
  }

  predicate AuditSent(p: Peer) {
    p.phase == Auditing(true) || p.phase.Between? || p.phase.Settling? || p.phase.Settled?
  }

  ghost predicate AuditsOk(p: Peer, from: Peer) {
    && (forall k :: k in p.audits ==> 1 <= k <= from.epoch && (k == from.epoch ==> Finished(from.loop)))
    && (1 <= p.epoch == from.epoch && AuditSent(from) ==> p.epoch in p.audits)
    && (1 <= p.epoch == from.epoch && p.epoch in p.audits ==>
          Finished(from.loop) && p.audits[p.epoch] == EnvelopeOf(from))
    && (1 <= p.epoch && from.epoch == p.epoch + 1 ==>
          && p.epoch in p.audits
          && p.epoch <= |from.reports|
          && p.audits[p.epoch].claim == from.reports[p.epoch - 1].end == EndOf(p)
          && Fits(p.audits[p.epoch].records, p.turns))
  }

  ghost predicate ConsensusOk(t: Terms, p: Peer, from: Peer) {
    && (p.consensus.Some? ==>
          && (from.phase.Settling? || from.phase.Settled?)
          && p.consensus.value == ConsensusOf(t, from, p.group))
    && (from.phase == Settling(true) || from.phase.Settled? ==> p.consensus.Some?)
    && (p.phase.Settled? ==> p.phase.agreed && p.consensus.Some?)
  }

  ghost predicate AuditInv(t: Terms, x: Peer, y: Peer) {
    && ReportsOk(x) && ReportsOk(y) && SameEnds(x, y)
    && AuditsOk(x, y) && AuditsOk(y, x)
    && ConsensusOk(t, x, y) && ConsensusOk(t, y, x)
  }

  lemma AuditInvSymmetric(t: Terms, x: Peer, y: Peer)
    requires AuditInv(t, x, y)
    ensures AuditInv(t, y, x)
  {
  }

  /** Clean reports with the same ends make the same consensus object on both sides. */
  lemma SameReportsSameConsensus(t: Terms, x: Peer, y: Peer)
    requires x.group != y.group && x.natural == Opposite(y.natural)
    requires |x.reports| == |y.reports| && SameEnds(x, y)
    requires forall i {:trigger x.reports[i]} :: 0 <= i < |x.reports| ==> GoodReport(x, i, x.reports[i])
    requires forall i {:trigger y.reports[i]} :: 0 <= i < |y.reports| ==> GoodReport(y, i, y.reports[i])
    ensures ConsensusOf(t, x, y.group) == ConsensusOf(t, y, x.group)
  {
    IdsAreOrderIndependent(t.text, x.group, y.group);
    var mine, theirs := RowsOf(PlayedOf(x.reports), x.group, y.group), RowsOf(PlayedOf(y.reports), y.group, x.group);
    forall i | 0 <= i < |mine| ensures mine[i] == theirs[i] {
      assert GoodReport(x, i, x.reports[i]) && GoodReport(y, i, y.reports[i]);
      assert x.reports[i].end == y.reports[i].end;
      RolesStayComplementary(y.natural, i + 1);
      RowIsSymmetric(i + 1, x.reports[i].role, RowResultOf(x.reports[i].end, false), x.group, y.group);
    }
    assert mine == theirs;
  }

  /** The peer's disclosure, when it fits the mailbox and the mailbox has been read to the
      end, passes the audit. */
  lemma FittingDisclosureIsClean(records: seq<Sealed>, turns: Mailbox, l: Loop)
    requires Fits(records, turns) && HeardOk(l, turns) && l.heard == |records| - 1
    ensures AuditOf(records, l.peerCommits) == []
  {
    AuditCleanExactly(records, l.peerCommits);
    forall i | 0 <= i < |records| && records[i].payload.Turn?
      ensures records[i].payload.step in l.peerCommits && l.peerCommits[records[i].payload.step] == Commit(records[i])
    {
      assert 1 <= i <= l.heard;
      assert l.peerCommits[i] == turns[i].commit;
    }
  }

  lemma MailboxOf(t: Terms, x: Peer, y: Peer)
    requires TurnInv(t, x, y) && 1 <= x.epoch == y.epoch
    ensures SealedOk(y.loop) && BoxOk(x.epoch, y.loop, x.turns)
  {
    hide SealedOk, BoxOk, HeardOk, FlagsOk, ReadOk, Quiet, Fresh, OffersOk;
    RolesStayComplementary(y.natural, y.epoch);
  }

  /** While both are in the same sub-game, what the other has sealed fits my mailbox. */
  lemma SealedFits(t: Terms, x: Peer, y: Peer)
    requires TurnInv(t, x, y) && 1 <= x.epoch == y.epoch && !y.loop.pc.Aborted?
    ensures Fits(y.loop.sealed, x.turns)
  {
    MailboxOf(t, x, y);
    hide TurnInv;
    assert Arrived(y.loop, x.turns) == Sent(y.loop);
    forall i | 1 <= i < |y.loop.sealed|
      ensures y.loop.sealed[i].payload.Turn? && y.loop.sealed[i].payload.step == i
      ensures i in x.turns && x.turns[i].commit == Commit(y.loop.sealed[i])
    {
      BoxEntry(x.epoch, y.loop, x.turns, i);
    }
  }

  lemma CoversUnique<X>(m: map<int, X>, a: nat, b: nat)
    requires Covers(m, a) && Covers(m, b)
    ensures a == b
  {
    assert a in m ==> a <= b;
    assert b in m ==> b <= a;
  }

  lemma BothFinishedAlike(t: Terms, x: Peer, y: Peer)
    requires TurnInv(t, x, y) && 2 <= t.max && 1 <= x.epoch == y.epoch && Finished(x.loop) && Finished(y.loop)
    ensures x.loop.pc == y.loop.pc && x.loop.heard == Sent(y.loop)
  {
    FinishedPoliceEndsBoth(t.max, x.epoch, Pair(x, y));
  }

  // ---------- preservation ----------

  /** What a peer about to move on leaves in the mailbox of one that has not. */
  lemma EnvelopeLeftBehind(t: Terms, me: Peer, you: Peer)
    requires TurnInv(t, me, you) && AuditInv(t, me, you) && 2 <= t.max
    requires me.phase.Between? && 1 <= me.epoch == you.epoch < t.games
    ensures var n := me.epoch;
            && n in you.audits && n <= |me.reports|
            && you.audits[n].claim == me.reports[n - 1].end == EndOf(you)
            && Fits(you.audits[n].records, you.turns)
  {
    FinishedLeavesQuiet(t, me, you);
    SealedFits(t, you, me);
    if Finished(you.loop) {
      BothFinishedAlike(t, me, you);
    } else {
      FinishedThiefIsHeard(t.max, me.epoch, Pair(me, you));
    }
  }

  lemma ResetKeepsAudit(t: Terms, me: Peer, you: Peer, me': Peer)
    requires AuditInv(t, me, you) && me.phase.Between?
    requires me' == me.(epoch := me.epoch + 1, phase := Negotiating(false), turns := map[], loop := me'.loop)
    requires !Finished(me'.loop) && (1 <= you.epoch && !you.phase.Negotiating? && !you.phase.Crashed? ==> you.epoch <= me.epoch)
    requires me.epoch < t.games && (you.phase.Settling? || you.phase.Settled? ==> you.epoch == t.games)
    requires you.epoch == me.epoch + 1 ==> !Finished(you.loop)
    requires 1 <= me.epoch == you.epoch ==>
               var n := me.epoch;
               && n in you.audits && n <= |me.reports|
               && you.audits[n].claim == me.reports[n - 1].end == EndOf(you)
               && Fits(you.audits[n].records, you.turns)
    requires you.epoch <= me.epoch + 1 && me.epoch <= you.epoch
    ensures AuditInv(t, me', you)
  {
    assert ReportsOk(me');
    assert AuditsOk(me', you);
    assert AuditsOk(you, me');
  }

  lemma ReportsUnchanged(p: Peer, p': Peer)
    requires ReportsOk(p) && p'.reports == p.reports && p'.natural == p.natural && p'.epoch == p.epoch && Filed(p') == Filed(p)
    requires p'.loop == p.loop || Filed(p') != p'.epoch
    ensures ReportsOk(p')
  {
    hide Filed;
    forall i | 0 <= i < |p'.reports| ensures GoodReport(p', i, p'.reports[i]) {
      assert GoodReport(p, i, p.reports[i]);
    }
  }

  lemma EndsUnchanged(x: Peer, x': Peer, y: Peer, y': Peer)
    requires SameEnds(x, y) && x'.reports == x.reports && y'.reports == y.reports
    ensures SameEnds(x', y')
  {
  }

  lemma ConsensusUnchanged(t: Terms, p: Peer, p': Peer, them: string)
    requires p'.group == p.group && p'.reports == p.reports
    ensures ConsensusOf(t, p', them) == ConsensusOf(t, p, them)
  {
  }

  /** Audits seen by `p` stay in order when neither its mailbox nor the other's loop, reports
      and epoch change, and the other has sent its audit exactly when it had before. */
  lemma AuditsUnchanged(p: Peer, p': Peer, from: Peer, from': Peer)
    requires AuditsOk(p, from) && p'.audits == p.audits && p'.epoch == p.epoch
    requires from'.epoch == from.epoch && from'.loop == from.loop && from'.reports == from.reports
    requires AuditSent(from') ==> AuditSent(from)
    requires from.epoch == p.epoch + 1 ==> p'.turns == p.turns && EndOf(p') == EndOf(p)
    ensures AuditsOk(p', from')
  {
    hide Fits, EndOf, AuditSent;
    assert from.loop.pc.Done? ==> EnvelopeOf(from') == EnvelopeOf(from);
    hide EnvelopeOf;
  }

  lemma ConsensusStays(t: Terms, p: Peer, p': Peer, from: Peer, from': Peer)
    requires ConsensusOk(t, p, from) && p'.consensus == p.consensus && p'.group == p.group
    requires from'.group == from.group && from'.reports == from.reports
    requires (from.phase.Settling? || from.phase.Settled?) ==> (from'.phase.Settling? || from'.phase.Settled?)
    requires from'.phase == Settling(true) || from'.phase.Settled? ==> from.phase == Settling(true) || from.phase.Settled?
    requires p'.phase.Settled? ==> p'.phase == p.phase
    ensures ConsensusOk(t, p', from')
  {
    ConsensusUnchanged(t, from, from', p.group);
    hide ConsensusOf;
  }

  lemma TurnKeepsAuditTogether(t: Terms, me: Peer, me': Peer, you: Peer, you': Peer)
    requires AuditInv(t, me, you) && 1 <= me.epoch == you.epoch && me.phase.Playing? && !Finished(me.loop)
    requires me' == AfterTurn(me, me'.loop) && you' == you.(turns := you'.turns)
    ensures AuditInv(t, me', you')
  {
    assert me.epoch !in you.audits;
    assert you.loop.pc.Done? ==> EnvelopeOf(you') == EnvelopeOf(you);
    hide Fits, EndOf, EnvelopeOf, GoodReport;
    assert AuditsOk(me', you') && AuditsOk(you', me');
    hide AuditsOk;
    ReportsUnchanged(me, me');
    ReportsUnchanged(you, you');
    EndsUnchanged(me, me', you, you');
    hide ReportsOk, SameEnds;
    ConsensusStays(t, me, me', you, you');
    ConsensusStays(t, you, you', me, me');
    hide ConsensusOk;
  }

  lemma TurnKeepsAuditApart(t: Terms, me: Peer, me': Peer, you: Peer)
    requires AuditInv(t, me, you) && 1 <= me.epoch && you.epoch == me.epoch + 1 && me.phase.Playing? && !Finished(me.loop)
    requires me' == AfterTurn(me, me'.loop) && EndOf(me') == EndOf(me)
    ensures AuditInv(t, me', you)
  {
    assert me.epoch !in you.audits;
    AuditsUnchanged(me, me', you, you);
    hide Fits, EndOf, EnvelopeOf, GoodReport;
    assert AuditsOk(you, me');
    hide AuditsOk;
    ReportsUnchanged(me, me');
    EndsUnchanged(me, me', you, you);
    hide ReportsOk, SameEnds;
    ConsensusStays(t, me, me', you, you);
    ConsensusStays(t, you, you, me, me');
    hide ConsensusOk;
  }

  lemma PlayingIsUnfinished(t: Terms, me: Peer)
    requires PeerOk(t, me) && me.phase.Playing?
    ensures 1 <= me.epoch && !me.loop.pc.Done?
  {
    hide Fresh;
  }

  lemma QuietEnd(max: nat, me: Peer, loop: Loop, choice: Choice)
    requires Quiet(me) && me.phase.Playing? && !me.loop.pc.Done?
    requires loop == LoopStep(max, me.epoch, me.loop, me.turns, choice).0 && loop.pc != Done(Timeout)
    ensures LoopStep(max, me.epoch, me.loop, me.turns, choice).1.None? && EndOf(AfterTurn(me, loop)) == EndOf(me)
  {
    QuietTurn(max, me, choice);
    hide LoopStep;
    if loop != me.loop {
      QuietRead(max, me, choice.caught, choice.position);
      assert me.loop.pc.step == Final(me) && Final(me) in me.turns && 2 <= Final(me) && me.loop.role.Police?;
      hide Quiet;
    }
  }

  lemma TurnKeepsAudit(t: Terms, me: Peer, you: Peer, choice: Choice)
    requires TurnInv(t, me, you) && AuditInv(t, me, you) && 2 <= t.max && me.phase.Playing?
    requires PeerStep(t, me, you, TakeTurn(choice)).2.NoFault?
    ensures var r := PeerStep(t, me, you, TakeTurn(choice)); AuditInv(t, r.0, r.1)
  {
    PlayingIsUnfinished(t, me);
    hide AuditInv, EndOf, AfterTurn;
    if me.epoch == you.epoch {
      hide TurnInv, PeerStep;
      var loop, you' := TurnShape(t, me, you, choice);
      AfterTurnKeepsLoop(me, loop);
      TurnKeepsAuditTogether(t, me, AfterTurn(me, loop), you, you');
    } else {
      assert you.epoch == me.epoch + 1 && Quiet(me);
      hide TurnInv, Quiet, Deliver, LoopStep;
      var step := LoopStep(t.max, me.epoch, me.loop, me.turns, choice);
      QuietEnd(t.max, me, step.0, choice);
      AfterTurnKeepsLoop(me, step.0);
      DeliverNothing(you);
      TurnKeepsAuditApart(t, me, AfterTurn(me, step.0), you);
    }
  }

  lemma AfterTurnKeepsLoop(p: Peer, loop: Loop)
    ensures AfterTurn(p, loop).loop == loop
  {
  }

  lemma DeliverNothing(p: Peer)
    ensures p.(turns := Deliver(p.turns, None)) == p
  {
  }

  lemma TakeAuditIsClean(t: Terms, me: Peer, you: Peer)
    requires TurnInv(t, me, you) && AuditInv(t, me, you) && 2 <= t.max
    requires me.phase == Auditing(true) && me.epoch in me.audits
    ensures 1 <= me.epoch && Finished(me.loop) && me.loop.role == RoleFor(me.natural, me.epoch)
    ensures AuditOf(me.audits[me.epoch].records, me.loop.peerCommits) == [] && me.audits[me.epoch].claim == me.loop.pc.result
    ensures you.epoch == me.epoch || you.epoch == me.epoch + 1
    ensures you.epoch == me.epoch ==> Finished(you.loop) && you.loop.pc == me.loop.pc
    ensures you.epoch == me.epoch + 1 ==> me.epoch <= |you.reports| && you.reports[me.epoch - 1].end == me.loop.pc.result
  {
    var n := me.epoch;
    var envelope := me.audits[n];
    PhaseFacts(t, me, you);
    assert me.loop.role == RoleFor(me.natural, n);
    hide ReportsOk, SameEnds, ConsensusOk, GoodReport;
    if you.epoch == n {
      BothFinishedAlike(t, me, you);
      SealedFits(t, me, you);
      assert HeardOk(me.loop, me.turns);
    } else {
      assert you.epoch == n + 1 && Quiet(me);
      assert HeardOk(me.loop, me.turns);
      CoversUnique(me.turns, me.loop.heard, |envelope.records| - 1);
    }
    hide TurnInv, AuditOf, Fits, HeardOk;
    FittingDisclosureIsClean(envelope.records, me.turns, me.loop);
  }

  /** A peer that is still auditing has sent no digest, and none has settled on it. */
  lemma NoConsensusYet(t: Terms, me: Peer, me': Peer, you: Peer)
    requires ConsensusOk(t, me, you) && ConsensusOk(t, you, me) && me.phase.Auditing? && me'.phase.Between?
    requires me'.consensus == me.consensus && me'.group == me.group
    ensures ConsensusOk(t, me', you) && ConsensusOk(t, you, me')
  {
    hide ConsensusOf;
  }

  lemma TakeAuditShape(t: Terms, me: Peer, you: Peer)
    requires me.phase == Auditing(true) && me.epoch in me.audits && me.loop.pc.Done?
    ensures PeerStep(t, me, you, TakeAudit)
         == (me.(phase := Between, reports := me.reports + [ReportOn(me, me.audits[me.epoch])]), you, NoFault)
  {
  }

  lemma TakeAuditKeeps(t: Terms, me: Peer, you: Peer)
    requires TurnInv(t, me, you) && AuditInv(t, me, you) && 2 <= t.max
    requires me.phase == Auditing(true) && me.epoch in me.audits
    ensures var r := PeerStep(t, me, you, TakeAudit); AuditInv(t, r.0, r.1)
  {
    TakeAuditIsClean(t, me, you);
    hide TurnInv, AuditOf, Fits;
    var result := me.loop.pc.result;
    var report := ReportOn(me, me.audits[me.epoch]);
    assert report == Report(me.loop.role, result, true, false, Some(result));
    TakeAuditShape(t, me, you);
    hide PeerStep, ReportOn, Finished, AuditsOk, ConsensusOk, ReportsOk, SameEnds;
    var me' := me.(phase := Between, reports := me.reports + [report]);
    OneMoreReport(me, me', you, report);
    AuditsUnchanged(me, me', you, you);
    AuditKept(me, me', you);
    NoConsensusYet(t, me, me', you);
  }

  /** Taking the peer's audit does not touch what the peer knows of mine. */
  lemma AuditKept(me: Peer, me': Peer, you: Peer)
    requires AuditsOk(you, me) && me.phase == Auditing(true) && 1 <= me.epoch && me.loop.pc.Done?
    requires ReportsOk(me) && me' == me.(phase := Between, reports := me'.reports)
    requires you.epoch == me.epoch || you.epoch == me.epoch + 1
    ensures AuditsOk(you, me')
  {
    assert EnvelopeOf(me') == EnvelopeOf(me);
    hide Fits, EndOf, EnvelopeOf, Finished, ReportsOk;
  }

  /** Filing a clean report with the end the other side has filed, or has reached. */
  lemma OneMoreReport(me: Peer, me': Peer, you: Peer, report: Report)
    requires ReportsOk(me) && ReportsOk(you) && SameEnds(me, you) && me.phase.Auditing? && 1 <= me.epoch && me.loop.pc.Done?
    requires me' == me.(phase := Between, reports := me.reports + [report])
    requires GoodReport(me, me.epoch - 1, report) && report.end == me.loop.pc.result
    requires me.epoch <= |you.reports| ==> you.reports[me.epoch - 1].end == report.end
    ensures ReportsOk(me') && SameEnds(me', you)
  {
    var n := me.epoch;
    assert |me.reports| == n - 1 && Filed(me') == n;
    forall i | 0 <= i < |me'.reports|
      ensures GoodReport(me', i, me'.reports[i])
      ensures i < |you.reports| ==> me'.reports[i].end == you.reports[i].end
    {
      if i < n - 1 {
        assert me'.reports[i] == me.reports[i] && GoodReport(me, i, me.reports[i]);
      } else {
        assert me'.reports[i] == report;
      }
    }
  }

  lemma ConsensusStored(t: Terms, me: Peer, me': Peer, you: Peer, you': Peer)
    requires ConsensusOk(t, me, you) && ConsensusOk(t, you, me) && me.phase.Settling?
    requires me' == me.(phase := me'.phase) && me'.phase.Settling?
    requires you' == you.(consensus := Some(ConsensusOf(t, me, you.group)))
    ensures ConsensusOk(t, me', you') && ConsensusOk(t, you', me')
  {
    ConsensusUnchanged(t, me, me', you.group);
    ConsensusUnchanged(t, you, you', me.group);
    hide ConsensusOf;
  }

  lemma SubmitConsensusKeeps(t: Terms, me: Peer, you: Peer, acked: bool)
    requires AuditInv(t, me, you) && me.phase.Settling?
    ensures var r := PeerStep(t, me, you, SubmitConsensus(acked)); AuditInv(t, r.0, r.1)
  {
    var me' := me.(phase := Settling(me.phase.sent || acked));
    var you' := you.(consensus := Some(ConsensusOf(t, me, you.group)));
    assert PeerStep(t, me, you, SubmitConsensus(acked)) == (me', you', NoFault);
    hide PeerStep;
    ConsensusStored(t, me, me', you, you');
    hide ConsensusOk, ConsensusOf;
    AuditsUnchanged(me, me', you, you');
    AuditsUnchanged(you, you', me, me');
    hide AuditsOk;
    ReportsUnchanged(me, me');
    ReportsUnchanged(you, you');
    EndsUnchanged(me, me', you, you');
    hide ReportsOk, SameEnds;
  }

  lemma SettlementAgrees(t: Terms, me: Peer, you: Peer)
    requires AuditInv(t, me, you) && me.group != you.group && me.natural == Opposite(you.natural)
    requires me.phase == Settling(true) && me.consensus.Some? && me.epoch == you.epoch
    ensures ConfirmAgreement(t, me, you.group)
  {
    assert you.phase.Settling? || you.phase.Settled?;
    SameReportsSameConsensus(t, me, you);
    hide ConsensusOf, AuditsOk;
    forall i | 0 <= i < |me.reports| ensures me.reports[i].verified && me.reports[i].peerClaim == Some(me.reports[i].end) {
      assert GoodReport(me, i, me.reports[i]);
    }
  }

  lemma TakeConsensusKeeps(t: Terms, me: Peer, you: Peer)
    requires AuditInv(t, me, you) && me.group != you.group && me.natural == Opposite(you.natural)
    requires me.phase == Settling(true) && me.consensus.Some? && me.epoch == you.epoch
    ensures var r := PeerStep(t, me, you, TakeConsensus); AuditInv(t, r.0, r.1)
  {
    SettlementAgrees(t, me, you);
    var me' := me.(phase := Settled(true));
    assert PeerStep(t, me, you, TakeConsensus) == (me', you, NoFault);
    hide PeerStep, ConfirmAgreement;
    ConsensusUnchanged(t, me, me', you.group);
    AuditsUnchanged(me, me', you, you);
    AuditsUnchanged(you, you, me, me');
    ReportsUnchanged(me, me');
    EndsUnchanged(me, me', you, you);
    hide AuditsOk, ReportsOk, SameEnds, ConsensusOf;
  }

  lemma AuditStored(me: Peer, me': Peer, you: Peer, you': Peer)
    requires AuditsOk(you, me) && me.phase.Auditing? && Finished(me.loop) && 1 <= me.epoch
    requires me' == me.(phase := me'.phase) && me'.phase.Auditing?
    requires you' == you.(audits := you.audits[me.epoch := EnvelopeOf(me)])
    ensures AuditsOk(you', me')
  {
    assert EnvelopeOf(me') == EnvelopeOf(me) && EndOf(you') == EndOf(you);
    hide Fits, EndOf, EnvelopeOf, Finished;
    if me.epoch == you.epoch + 1 && 1 <= you.epoch {
      assert you'.audits[you.epoch] == you.audits[you.epoch];
    }
  }

  lemma SubmitAuditKeeps(t: Terms, me: Peer, you: Peer, acked: bool)
    requires AuditInv(t, me, you) && me.phase.Auditing? && Finished(me.loop) && 1 <= me.epoch
    requires you.epoch == me.epoch + 1 ==> !AuditSent(you) && !Finished(you.loop)
    ensures var r := PeerStep(t, me, you, SubmitAudit(acked)); AuditInv(t, r.0, r.1)
  {
    var me' := me.(phase := Auditing(me.phase.sent || acked));
    var you' := you.(audits := you.audits[me.epoch := EnvelopeOf(me)]);
    assert PeerStep(t, me, you, SubmitAudit(acked)) == (me', you', NoFault);
    hide PeerStep;
    ReportsUnchanged(me, me');
    ReportsUnchanged(you, you');
    EndsUnchanged(me, me', you, you');
    ConsensusStays(t, me, me', you, you');
    ConsensusStays(t, you, you', me, me');
    hide ReportsOk, SameEnds, ConsensusOk;
    AuditsUnchanged(me, me', you, you');
    AuditStored(me, me', you, you');
    hide AuditsOk, EnvelopeOf;
  }

  /** Negotiating and starting to settle touch only the phase and the other's offers. */
  lemma HandshakeShape(t: Terms, me: Peer, you: Peer, act: Act)
    requires me.phase.Negotiating? ==> 1 <= me.epoch && !me.loop.pc.Done? && !me.loop.pc.Aborted?
    requires act.SendOffer? || act.TakeOffer? || act.NegotiationExpires? || act.Settle?
    ensures var (me', you', _) := PeerStep(t, me, you, act);
            && me' == me.(phase := me'.phase) && you' == you.(offers := you'.offers)
            && (|| me'.phase == me.phase
                || (me.phase.Negotiating? && 1 <= me.epoch
                    && (me'.phase.Negotiating? || me'.phase.Playing? || me'.phase.Crashed?))
                || (me.phase.Between? && me'.phase == Settling(false)))
  {
  }

  lemma HandshakeKeepsAudit(t: Terms, me: Peer, you: Peer, act: Act)
    requires AuditInv(t, me, you)
    requires me.phase.Negotiating? ==> 1 <= me.epoch && !me.loop.pc.Done? && !me.loop.pc.Aborted?
    requires act.SendOffer? || act.TakeOffer? || act.NegotiationExpires? || act.Settle?
    ensures var r := PeerStep(t, me, you, act); AuditInv(t, r.0, r.1)
  {
    HandshakeShape(t, me, you, act);
    hide PeerStep;
    var r := PeerStep(t, me, you, act);
    AuditsUnchanged(me, r.0, you, r.1);
    AuditsUnchanged(you, r.1, me, r.0);
    ReportsUnchanged(me, r.0);
    ReportsUnchanged(you, r.1);
    EndsUnchanged(me, r.0, you, r.1);
    hide AuditsOk, ReportsOk, SameEnds;
    ConsensusStays(t, me, r.0, you, r.1);
    ConsensusStays(t, you, r.1, me, r.0);
    hide ConsensusOk;
  }

  // ---------- every step ----------

  /** The facts about phases and loops that the audit steps rely on. */
  lemma PhaseFacts(t: Terms, me: Peer, you: Peer)
    requires TurnInv(t, me, you) && 2 <= t.max
    ensures me.natural == Opposite(you.natural)
    ensures me.phase.Negotiating? ==> 1 <= me.epoch && !me.loop.pc.Done? && !me.loop.pc.Aborted?
    ensures me.phase.Auditing? ==> 1 <= me.epoch && Finished(me.loop)
    ensures me.phase.Auditing? && you.epoch == me.epoch + 1 ==> !AuditSent(you) && !Finished(you.loop)
    ensures me.phase.Settling? ==> me.epoch == you.epoch
    ensures me.phase.Between? ==> me.epoch <= you.epoch <= me.epoch + 1
    ensures me.phase.Between? && you.epoch == me.epoch + 1 ==> !Finished(you.loop)
    ensures 1 <= you.epoch && !you.phase.Negotiating? && !you.phase.Crashed? ==> you.epoch <= me.epoch
    ensures you.phase.Settling? || you.phase.Settled? ==> you.epoch == t.games
  {
    if me.phase.Settling? && 1 <= me.epoch {
      assert me.epoch in me.offers;
    }
    if me.phase.Between? && 1 <= me.epoch {
      assert me.epoch in me.offers;
    }
  }

  lemma ResetCase(t: Terms, me: Peer, you: Peer, githubCommit: Option<string>, nonce: string)
    requires TurnInv(t, me, you) && AuditInv(t, me, you) && 2 <= t.max
    requires me.phase.Between? && me.epoch < t.games
    ensures var r := PeerStep(t, me, you, Reset(githubCommit, nonce)); AuditInv(t, r.0, r.1)
  {
    PhaseFacts(t, me, you);
    ResetShape(t, me, you, githubCommit, nonce);
    ResetPeerOk(t, me, githubCommit, nonce);
    hide PeerStep, TurnInv;
    if 1 <= me.epoch == you.epoch {
      EnvelopeLeftBehind(t, me, you);
    }
    FreshIsUnfinished(t.max, AfterReset(t, me, githubCommit, nonce).loop);
    hide AuditInv, Fresh, PeerOk, Fits, EndOf;
    ResetKeepsAudit(t, me, you, AfterReset(t, me, githubCommit, nonce));
  }

  lemma FreshIsUnfinished(max: nat, l: Loop)
    requires Fresh(max, l) && 2 <= max
    ensures !Finished(l)
  {
  }

  /** The act belongs to the phase the peer is in. */
  predicate Fitting(t: Terms, p: Peer, act: Act) {
    match act
    case Reset(_, _) => p.phase.Between? && p.epoch < t.games
    case TakeTurn(_) => p.phase.Playing?
    case SubmitAudit(_) => p.phase.Auditing?
    case TakeAudit => p.phase == Auditing(true) && p.epoch in p.audits
    case AuditExpires => p.phase.Auditing? && p.loop.pc.Done?
    case SubmitConsensus(_) => p.phase.Settling?
    case TakeConsensus => p.phase == Settling(true) && p.consensus.Some?
    case ConsensusExpires => p.phase.Settling?
    case _ => true
  }

  lemma UnfittingChangesNothing(t: Terms, me: Peer, you: Peer, act: Act)
    requires !Fitting(t, me, act)
    ensures PeerStep(t, me, you, act) == (me, you, NoFault)
  {
  }

  lemma ExpiryIsFault(t: Terms, me: Peer, you: Peer, act: Act)
    requires (act.AuditExpires? || act.ConsensusExpires?) && Fitting(t, me, act)
    ensures PeerStep(t, me, you, act).2.AuditFault?
  {
  }

  lemma StepKeepsAuditInv(t: Terms, me: Peer, you: Peer, act: Act)
    requires TurnInv(t, me, you) && AuditInv(t, me, you) && 2 <= t.max && me.group != you.group
    requires PeerStep(t, me, you, act).2.NoFault?
    ensures var r := PeerStep(t, me, you, act); AuditInv(t, r.0, r.1)
  {
    PhaseFacts(t, me, you);
    hide PeerStep, TurnInv, AuditInv, AuditSent, Finished;
    if !Fitting(t, me, act) {
      UnfittingChangesNothing(t, me, you, act);
    } else {
      match act
      case Reset(githubCommit, nonce) => ResetCase(t, me, you, githubCommit, nonce);
      case TakeTurn(choice) => TurnKeepsAudit(t, me, you, choice);
      case SubmitAudit(acked) => SubmitAuditKeeps(t, me, you, acked);
      case TakeAudit => TakeAuditKeeps(t, me, you);
      case SubmitConsensus(acked) => SubmitConsensusKeeps(t, me, you, acked);
      case TakeConsensus => TakeConsensusKeeps(t, me, you);
      case AuditExpires => ExpiryIsFault(t, me, you, act);
      case ConsensusExpires => ExpiryIsFault(t, me, you, act);
      case _ => HandshakeKeepsAudit(t, me, you, act);
    }
  }
}
