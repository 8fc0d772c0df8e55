/** One side of a series on its own. The driver's accumulated reports and verdict are those a
    peer of `Series` reaches by its own steps, and each peer of a run is such a side. */
module SeriesSide {
  import opened Options
  import opened Turns
  import opened TurnLoop
  import opened Scoring
  import opened Series
  import opened SeriesTurns
  import opened SeriesTheorems
  import opened SeriesLoop
  import opened PlayLoops

  /** An act of the side itself, or a change of what its four mailboxes hold. */
  datatype LocalStep =
    | Own(act: Act)
    | Mail(turns: Mailbox, offers: set<nat>, audits: map<nat, Envelope>, consensus: Option<Consensus>)

  /** An act reads nothing of the other side but its name. */
  function StepAlone(t: Terms, them: string, p: Peer, s: LocalStep): Peer {
    match s
    case Own(act) => PeerStep(t, p, Unstarted(them, p.natural), act).0
    case Mail(turns, offers, audits, consensus) =>
      p.(turns := turns, offers := offers, audits := audits, consensus := consensus)
  }

  function RunAlone(t: Terms, them: string, p: Peer, steps: seq<LocalStep>): Peer {
    if steps == [] then p else StepAlone(t, them, RunAlone(t, them, p, steps[..|steps| - 1]), steps[|steps| - 1])
  }

  lemma OneMoreAlone(t: Terms, them: string, p: Peer, steps: seq<LocalStep>, s: LocalStep)
    ensures RunAlone(t, them, p, steps + [s]) == StepAlone(t, them, RunAlone(t, them, p, steps), s)
  {
    assert (steps + [s])[..|steps|] == steps;
  }

  // ---------- each peer of a run is a side ----------

  function MailOf(p: Peer): LocalStep {
    Mail(p.turns, p.offers, p.audits, p.consensus)
  }

  /** What an event of the run is to one of the two peers. */
  function StepIn(t: Terms, w: World, e: PeerEvent, first: bool): LocalStep {
    if e.first == first then Own(e.act)
    else
      var w' := WorldStep(t, w, e);
      MailOf(if first then w'.a else w'.b)
  }

  function StepsIn(t: Terms, w: World, events: seq<PeerEvent>, first: bool): seq<LocalStep> {
    if events == [] then []
    else
      var before := events[..|events| - 1];
      StepsIn(t, w, before, first) + [StepIn(t, RunSeries(t, w, before), events[|events| - 1], first)]
  }

  lemma OwnActIgnoresOther(t: Terms, me: Peer, you: Peer, act: Act)
    ensures PeerStep(t, me, you, act).0 == PeerStep(t, me, Unstarted(you.group, me.natural), act).0
  {
    hide LoopStep, AfterTurn, ConsensusOf, EnvelopeOf, ReportOn, Start, Deliver;
  }

  lemma OtherActIsMail(t: Terms, me: Peer, you: Peer, act: Act)
    ensures var you' := PeerStep(t, me, you, act).1;
            you' == you.(turns := you'.turns, offers := you'.offers, audits := you'.audits, consensus := you'.consensus)
  {
    hide LoopStep, AfterTurn, ConsensusOf, EnvelopeOf, ReportOn, Start, Deliver, ConfirmAgreement;
  }

  lemma EventIsStepAlone(t: Terms, w: World, e: PeerEvent, first: bool)
    ensures var w' := WorldStep(t, w, e);
            var me, you := (if first then w.a else w.b), (if first then w.b else w.a);
            (if first then w'.a else w'.b) == StepAlone(t, you.group, me, StepIn(t, w, e, first))
  {
    var me, you := (if first then w.a else w.b), (if first then w.b else w.a);
    OwnActIgnoresOther(t, me, you, e.act);
    OtherActIsMail(t, you, me, e.act);
    hide PeerStep;
  }

  /** Each peer of a run, faults included, is what its own steps make of it. */
  lemma {:induction false} PeerIsItsSide(t: Terms, ours: string, theirs: string, natural: Role, events: seq<PeerEvent>)
    ensures var start := Opening(ours, theirs, natural);
            var w := RunSeries(t, start, events);
            && w.a == RunAlone(t, theirs, start.a, StepsIn(t, start, events, true))
            && w.b == RunAlone(t, ours, start.b, StepsIn(t, start, events, false))
  {
    if events != [] {
      var start, before := Opening(ours, theirs, natural), events[..|events| - 1];
      PeerIsItsSide(t, ours, theirs, natural, before);
      GroupsStay(t, ours, theirs, natural, before);
      var w, e := RunSeries(t, start, before), events[|events| - 1];
      EventIsStepAlone(t, w, e, true);
      EventIsStepAlone(t, w, e, false);
      OneMoreAlone(t, theirs, start.a, StepsIn(t, start, before, true), StepIn(t, w, e, true));
      OneMoreAlone(t, ours, start.b, StepsIn(t, start, before, false), StepIn(t, w, e, false));
      hide StepAlone, StepIn, WorldStep, RunAlone;
    }
  }

  // ---------- the driver is a side ----------

  /** One sub-game as a driver went through it: the loop played, and the peer's honest audit
      of it unless the wait for it ran out. */
  datatype Chapter = Chapter(c: Setting, githubCommit: Option<string>, nonce: string, trace: seq<Moment>,
                             loop: Loop, sent: seq<Message>, audit: Option<Envelope>)

  function OpeningOf(natural: Role, n: nat, g: Chapter): Sealed {
    Sealed(Declaration(RoleFor(natural, n), g.githubCommit), g.nonce)
  }

  function FirstLoop(t: Terms, natural: Role, n: nat, g: Chapter): Loop {
    Start(t.max, RoleFor(natural, n), OpeningOf(natural, n, g))
  }

  /** The loop was played to its end under the terms. */
  ghost predicate PlayedOut(t: Terms, natural: Role, n: nat, g: Chapter) {
    && g.c.max == t.max && g.c.game == n && g.loop.pc.Done?
    && Reaches(g.c, FirstLoop(t, natural, n, g), g.trace, g.loop, g.sent)
  }

  function DisclosureOf(audit: Option<Envelope>): Option<Disclosure> {
    match audit
    case None => None
    case Some(e) => Some(Disclosure(DiscloseAll(e.records), Some(e.claim)))
  }

  /** What the driver learns of the chapters. */
  function LearntFrom(chapters: nat -> Chapter): SeriesOutside {
    SeriesOutside((n: nat) => LoopOutcome(chapters(n).loop), (n: nat) => DisclosureOf(chapters(n).audit))
  }

  function LoopOutcome(l: Loop): Outcome {
    Outcome(if l.pc.Done? then l.pc.result else Timeout, l.peerCommits)
  }

  lemma {:induction false} FollowKeepsRole(max: nat, game: nat, start: Loop, trace: seq<Moment>)
    ensures Follow(max, game, start, trace).0.role == start.role
  {
    if trace != [] {
      FollowKeepsRole(max, game, start, trace[..|trace| - 1]);
      var l := Follow(max, game, start, trace[..|trace| - 1]).0;
      LoopKeepsRole(max, game, l, trace[|trace| - 1].inbox, trace[|trace| - 1].choice);
      hide LoopStep;
    }
  }

  lemma TurnIsStepAlone(t: Terms, them: string, p: Peer, l: Loop, box: Mailbox, moment: Moment)
    requires !l.pc.Done? && !l.pc.Aborted?
    ensures var q := AfterTurn(p, l).(turns := box);
            var q' := StepAlone(t, them, q, Mail(moment.inbox, p.offers, p.audits, p.consensus));
            StepAlone(t, them, q', Own(TakeTurn(moment.choice)))
              == AfterTurn(p, LoopStep(t.max, p.epoch, l, moment.inbox, moment.choice).0).(turns := moment.inbox)
  {
    hide LoopStep;
  }

  /** One more moment of the chapter is two more steps: the mail it saw, and its turn. */
  lemma MomentIsSteps(t: Terms, them: string, p: Peer, first: Peer, steps: seq<LocalStep>, l: Loop, box: Mailbox, moment: Moment)
    returns (more: seq<LocalStep>)
    requires !l.pc.Done? && !l.pc.Aborted? && RunAlone(t, them, first, steps) == AfterTurn(p, l).(turns := box)
    ensures RunAlone(t, them, first, more)
         == AfterTurn(p, LoopStep(t.max, p.epoch, l, moment.inbox, moment.choice).0).(turns := moment.inbox)
  {
    hide LoopStep, StepAlone, AfterTurn, RunAlone;
    TurnIsStepAlone(t, them, p, l, box, moment);
    var mail, turn := Mail(moment.inbox, p.offers, p.audits, p.consensus), Own(TakeTurn(moment.choice));
    OneMoreAlone(t, them, first, steps, mail);
    OneMoreAlone(t, them, first, steps + [mail], turn);
    more := steps + [mail] + [turn];
  }

  /** From the handshake on, the turns of the chapter are steps of the side. */
  lemma {:induction false} TurnsAreSteps(t: Terms, them: string, p: Peer, c: Setting, trace: seq<Moment>, n: nat)
    returns (steps: seq<LocalStep>, box: Mailbox)
    requires c.max == t.max && c.game == p.epoch && Driven(c, p.loop, trace) && n <= |trace|
    ensures RunAlone(t, them, AfterTurn(p, p.loop), steps)
         == AfterTurn(p, Follow(t.max, p.epoch, p.loop, trace[..n]).0).(turns := box)
  {
    hide LoopStep, StepAlone, Driven, NextMoment;
    if n == 0 {
      steps, box := [], p.turns;
    } else {
      steps, box := TurnsAreSteps(t, them, p, c, trace, n - 1);
      hide AfterTurn, RunAlone;
      DrivenAt(c, p.loop, trace, n - 1);
      var l, moment := Follow(t.max, p.epoch, p.loop, trace[..n - 1]).0, trace[n - 1];
      assert trace[..n - 1] + [moment] == trace[..n];
      FollowOne(t.max, p.epoch, p.loop, trace[..n - 1], moment);
      hide Follow;
      steps := MomentIsSteps(t, them, p, AfterTurn(p, p.loop), steps, l, box, moment);
      box := moment.inbox;
    }
  }

  lemma {:induction false} RunAloneOn(t: Terms, them: string, p: Peer, a: seq<LocalStep>, b: seq<LocalStep>)
    ensures RunAlone(t, them, p, a + b) == RunAlone(t, them, RunAlone(t, them, p, a), b)
  {
    if b == [] {
      assert a + b == a;
    } else {
      assert (a + b)[..|a + b| - 1] == a + b[..|b| - 1];
      RunAloneOn(t, them, p, a, b[..|b| - 1]);
      hide StepAlone;
    }
  }

  /** The handshake of the next sub-game. */
  lemma Handshake(t: Terms, them: string, p: Peer, g: Chapter) returns (steps: seq<LocalStep>, p': Peer)
    requires p.phase.Between? && p.epoch < t.games
    ensures RunAlone(t, them, p, steps) == AfterTurn(p', p'.loop)
    ensures p'.epoch == p.epoch + 1 && p'.loop == FirstLoop(t, p.natural, p.epoch + 1, g)
    ensures p'.natural == p.natural && p'.group == p.group && p'.reports == p.reports
  {
    var n := p.epoch + 1;
    hide Start, AfterTurn;
    var p1 := StepAlone(t, them, p, Own(Reset(g.githubCommit, g.nonce)));
    var p2 := StepAlone(t, them, p1, Own(SendOffer(true)));
    var mail := Mail(p2.turns, p2.offers + {n}, p2.audits, p2.consensus);
    p' := StepAlone(t, them, p2, mail);
    assert p1.loop == FirstLoop(t, p.natural, n, g);
    assert StepAlone(t, them, p', Own(TakeOffer)) == AfterTurn(p', p'.loop);
    hide StepAlone;
    steps := [Own(Reset(g.githubCommit, g.nonce))] + [Own(SendOffer(true))] + [mail] + [Own(TakeOffer)];
    OneMoreAlone(t, them, p, [], Own(Reset(g.githubCommit, g.nonce)));
    OneMoreAlone(t, them, p, [Own(Reset(g.githubCommit, g.nonce))], Own(SendOffer(true)));
    OneMoreAlone(t, them, p, [Own(Reset(g.githubCommit, g.nonce))] + [Own(SendOffer(true))], mail);
    OneMoreAlone(t, them, p, [Own(Reset(g.githubCommit, g.nonce))] + [Own(SendOffer(true))] + [mail], Own(TakeOffer));
    assert [] + [Own(Reset(g.githubCommit, g.nonce))] == [Own(Reset(g.githubCommit, g.nonce))];
  }

  /** The audit of a sub-game that is over. */
  lemma AuditSteps(t: Terms, them: string, p: Peer, audit: Option<Envelope>) returns (steps: seq<LocalStep>)
    requires p.phase == Auditing(false) && p.loop.pc.Done?
    ensures var report := ReportFor(p.loop.role, LoopOutcome(p.loop), DisclosureOf(audit));
            var p' := RunAlone(t, them, p, steps);
            && p'.phase.Between? && p'.reports == p.reports + [report] && p'.epoch == p.epoch
            && p'.natural == p.natural && p'.group == p.group
  {
    hide ReportOn, ReportFor;
    if audit.None? {
      steps := [Own(AuditExpires)];
      OneMoreAlone(t, them, p, [], Own(AuditExpires));
      assert [] + [Own(AuditExpires)] == steps;
      NoAuditReport(p);
    } else {
      HonestReport(p, audit.value);
      var p1 := StepAlone(t, them, p, Own(SubmitAudit(true)));
      var mail := Mail(p1.turns, p1.offers, p1.audits[p.epoch := audit.value], p1.consensus);
      var p2 := StepAlone(t, them, p1, mail);
      var p3 := StepAlone(t, them, p2, Own(TakeAudit));
      assert ReportOn(p2, audit.value) == ReportOn(p, audit.value) by { SameReport(p, p2, audit.value); }
      hide StepAlone;
      steps := [Own(SubmitAudit(true))] + [mail] + [Own(TakeAudit)];
      OneMoreAlone(t, them, p, [], Own(SubmitAudit(true)));
      OneMoreAlone(t, them, p, [Own(SubmitAudit(true))], mail);
      OneMoreAlone(t, them, p, [Own(SubmitAudit(true))] + [mail], Own(TakeAudit));
      assert [] + [Own(SubmitAudit(true))] == [Own(SubmitAudit(true))];
    }
  }

  lemma NoAuditReport(p: Peer)
    requires p.loop.pc.Done?
    ensures ReportFor(p.loop.role, Outcome(p.loop.pc.result, p.loop.peerCommits), None)
         == Report(p.loop.role, p.loop.pc.result, false, false, None)
  {
  }

  lemma SameReport(p: Peer, p': Peer, e: Envelope)
    requires p.loop.pc.Done? && p'.loop == p.loop
    ensures ReportOn(p', e) == ReportOn(p, e)
  {
  }

  /** One sub-game of the driver is a stretch of the side's steps that files its report. */
  lemma ChapterIsSteps(t: Terms, them: string, p: Peer, g: Chapter) returns (steps: seq<LocalStep>)
    requires p.phase.Between? && p.epoch < t.games && PlayedOut(t, p.natural, p.epoch + 1, g)
    ensures var report := ReportFor(RoleFor(p.natural, p.epoch + 1), LoopOutcome(g.loop),
                                    DisclosureOf(g.audit));
            var p' := RunAlone(t, them, p, steps);
            && p'.phase.Between? && p'.reports == p.reports + [report] && p'.epoch == p.epoch + 1
            && p'.natural == p.natural && p'.group == p.group
  {
    var opening, start := Handshake(t, them, p, g);
    hide Driven, RunAlone, ReportFor, Start;
    FollowKeepsRole(t.max, start.epoch, start.loop, g.trace);
    var turns, box := TurnsAreSteps(t, them, start, g.c, g.trace, |g.trace|);
    assert g.trace[..|g.trace|] == g.trace;
    hide Follow;
    var over := AfterTurn(start, g.loop).(turns := box);
    assert over.phase == Auditing(false) && over.loop == g.loop && over.reports == p.reports;
    hide AfterTurn;
    var audit := AuditSteps(t, them, over, g.audit);
    RunAloneOn(t, them, p, opening, turns);
    RunAloneOn(t, them, p, opening + turns, audit);
    FirstRole(t, p.natural, p.epoch + 1, g);
    steps := opening + turns + audit;
  }

  lemma FirstRole(t: Terms, natural: Role, n: nat, g: Chapter)
    ensures FirstLoop(t, natural, n, g).role == RoleFor(natural, n)
  {
  }

  lemma OneMoreFiled(natural: Role, chapters: nat -> Chapter, n: nat)
    requires 1 <= n
    ensures var out := LearntFrom(chapters);
            ReportsOf(natural, out, n)
              == ReportsOf(natural, out, n - 1)
                 + [ReportFor(RoleFor(natural, n), LoopOutcome(chapters(n).loop), DisclosureOf(chapters(n).audit))]
  {
    hide ReportFor, LoopOutcome, DisclosureOf;
  }

  /** All sub-games up to the n-th. */
  lemma {:induction false} ChaptersAreSteps(t: Terms, me: string, them: string, natural: Role, chapters: nat -> Chapter, n: nat)
    returns (steps: seq<LocalStep>)
    requires n <= t.games
    requires forall k :: 1 <= k <= t.games ==> PlayedOut(t, natural, k, chapters(k))
    ensures var p := RunAlone(t, them, Unstarted(me, natural), steps);
            && p.phase.Between? && p.reports == ReportsOf(natural, LearntFrom(chapters), n) && p.epoch == n
            && p.natural == natural && p.group == me
  {
    if n == 0 {
      steps := [];
    } else {
      var before := ChaptersAreSteps(t, me, them, natural, chapters, n - 1);
      var p := RunAlone(t, them, Unstarted(me, natural), before);
      assert PlayedOut(t, natural, n, chapters(n));
      hide RunAlone, PlayedOut, ReportFor, ReportsOf, LearntFrom, LoopOutcome, DisclosureOf;
      var more := ChapterIsSteps(t, them, p, chapters(n));
      OneMoreFiled(natural, chapters, n);
      RunAloneOn(t, them, Unstarted(me, natural), before, more);
      steps := before + more;
    }
  }

  /** The digests at the end. */
  lemma SettlingSteps(t: Terms, them: string, p: Peer, digest: Option<Consensus>) returns (steps: seq<LocalStep>)
    requires p.phase.Between? && p.epoch == t.games
    ensures var p' := RunAlone(t, them, p, steps);
            && p'.reports == p.reports
            && p'.phase == Settled(AllClean(p.reports) && AllAgreed(p.reports) && digest == Some(ConsensusOf(t, p, them)))
  {
    var p1 := StepAlone(t, them, p, Own(Settle));
    var p2 := StepAlone(t, them, p1, Own(SubmitConsensus(true)));
    var mail := Mail(p2.turns, p2.offers, p2.audits, digest);
    var p3 := StepAlone(t, them, p2, mail);
    var last := Own(if digest.Some? then TakeConsensus else ConsensusExpires);
    assert StepAlone(t, them, p3, last).phase
        == Settled(AllClean(p.reports) && AllAgreed(p.reports) && digest == Some(ConsensusOf(t, p, them))) by {
      assert ConsensusOf(t, p3, them) == ConsensusOf(t, p, them);
      hide AllClean, AllAgreed, ConsensusOf;
    }
    hide StepAlone, AllClean, AllAgreed, ConsensusOf;
    steps := [Own(Settle)] + [Own(SubmitConsensus(true))] + [mail] + [last];
    OneMoreAlone(t, them, p, [], Own(Settle));
    OneMoreAlone(t, them, p, [Own(Settle)], Own(SubmitConsensus(true)));
    OneMoreAlone(t, them, p, [Own(Settle)] + [Own(SubmitConsensus(true))], mail);
    OneMoreAlone(t, them, p, [Own(Settle)] + [Own(SubmitConsensus(true))] + [mail], last);
    assert [] + [Own(Settle)] == [Own(Settle)];
  }

  /** The driver takes the steps of a peer: by them a peer files the driver's reports and
      settles with the driver's verdict. */
  lemma DriverTakesPeerSteps(t: Terms, me: string, them: string, natural: Role, chapters: nat -> Chapter, digest: Option<Consensus>)
    returns (steps: seq<LocalStep>)
    requires forall k :: 1 <= k <= t.games ==> PlayedOut(t, natural, k, chapters(k))
    ensures var reports := ReportsOf(natural, LearntFrom(chapters), t.games);
            var consensus := BuildConsensus(GameId(me, them), GameUid(t.text, me, them), RowsOf(PlayedOf(reports), me, them));
            var p := RunAlone(t, them, Unstarted(me, natural), steps);
            && p.reports == reports
            && p.phase == Settled(AllClean(reports) && AllAgreed(reports) && digest == Some(consensus))
  {
    hide RunAlone, ReportsOf, BuildConsensus, GameId, GameUid, RowsOf, AllClean, AllAgreed, PlayedOut;
    var before := ChaptersAreSteps(t, me, them, natural, chapters, t.games);
    var p := RunAlone(t, them, Unstarted(me, natural), before);
    var last := SettlingSteps(t, them, p, digest);
    RunAloneOn(t, them, Unstarted(me, natural), before, last);
    steps := before + last;
  }

  /** Two sides whose steps interleave to a fault-free series: a side that ended confirms the
      agreement, having filed nothing but clean and confirmed reports. */
  lemma SettledSideAgreed(t: Terms, ours: string, theirs: string, natural: Role, events: seq<PeerEvent>)
    requires 2 <= t.max && ours != theirs
    ensures var start := Opening(ours, theirs, natural);
            var w := RunSeries(t, start, events);
            var a := RunAlone(t, theirs, start.a, StepsIn(t, start, events, true));
            var b := RunAlone(t, ours, start.b, StepsIn(t, start, events, false));
            !w.turnFault && !w.auditFault ==>
              && (a.phase.Settled? ==> a.phase.agreed) && (b.phase.Settled? ==> b.phase.agreed)
              && AllClean(a.reports) && AllAgreed(a.reports) && AllClean(b.reports) && AllAgreed(b.reports)
  {
    PeerIsItsSide(t, ours, theirs, natural, events);
    SeriesAgree(t, ours, theirs, natural, events);
    hide RunAlone, StepsIn, RunSeries;
  }
}
