/** Where sub-game isolation ends: which faults and which term values let a turn of one
    sub-game land in the next, exactly. */
module SeriesLimits {
  import opened Options
  import opened Turns
  import opened TurnLoop
  import opened SubGameTheorems
  import opened Series
  import opened SeriesTurns
  import opened SeriesTheorems

  lemma Then(t: Terms, start: World, events: seq<PeerEvent>, w: World, first: bool, act: Act)
    returns (events': seq<PeerEvent>, w': World)
    requires w == RunSeries(t, start, events)
    ensures events' == events + [PeerEvent(first, act)]
    ensures w' == WorldStep(t, w, PeerEvent(first, act)) == RunSeries(t, start, events')
  {
    events' := events + [PeerEvent(first, act)];
    assert events'[..|events|] == events;
    w' := WorldStep(t, w, PeerEvent(first, act));
  }

  /** Both peers have reset and offered; the first, the Thief, has taken up its offer. */
  lemma Prologue(t: Terms, ours: string, theirs: string)
    returns (events: seq<PeerEvent>, w: World)
    requires 1 <= t.max && 2 <= t.games
    ensures w == RunSeries(t, Opening(ours, theirs, Thief), events) && !w.turnFault
    ensures w.a.epoch == w.b.epoch == 1 && w.a.phase.Playing? && w.b.phase == Negotiating(true) && 1 in w.b.offers
    ensures w.a.loop.role.Thief? && w.a.loop.pc == Sending(1) && w.b.loop.role.Police? && w.b.loop.pc == Waiting(1)
  {
    var start := Opening(ours, theirs, Thief);
    events, w := [], start;
    events, w := Then(t, start, events, w, true, Reset(None, ""));
    events, w := Then(t, start, events, w, true, SendOffer(true));
    events, w := Then(t, start, events, w, false, Reset(None, ""));
    events, w := Then(t, start, events, w, false, SendOffer(true));
    assert w.a.phase == Negotiating(true) && 1 in w.a.offers;
    assert w.b.phase == Negotiating(true) && 1 in w.b.offers;
    events, w := Then(t, start, events, w, true, TakeOffer);
  }

  /** The slow Police reads the opening and replies after the Thief has moved on. */
  lemma LateReply(t: Terms, start: World, before: seq<PeerEvent>, w0: World)
    returns (events: seq<PeerEvent>, w: World)
    requires w0 == RunSeries(t, start, before) && 1 <= t.max
    requires w0.a.epoch == 2 && w0.b.epoch == 1 && w0.b.phase == Negotiating(true) && 1 in w0.b.offers
    requires w0.b.loop.role.Police? && w0.b.loop.pc == Waiting(1) && 1 in w0.b.turns
    ensures w == RunSeries(t, start, events) && w.turnFault == w0.turnFault
    ensures w.a.epoch == 2 && 1 in w.a.turns && w.a.turns[1].game == 1
  {
    events, w := Then(t, start, before, w0, false, TakeOffer);
    events, w := Then(t, start, events, w, false, TakeTurn(Take(false, (0, 0))));
    assert w.b.loop.pc == Sending(1) && w.b.phase.Playing?;
    events, w := Then(t, start, events, w, false, TakeTurn(Post(ANY_PLAY, "")));
  }

  /** The Thief stops waiting for the audit and starts the next sub-game. */
  lemma MoveOn(t: Terms, start: World, before: seq<PeerEvent>, w0: World)
    returns (events: seq<PeerEvent>, w: World)
    requires w0 == RunSeries(t, start, before) && 2 <= t.games
    requires w0.a.epoch == 1 && w0.a.phase == Auditing(false) && w0.a.loop.pc.Done?
    ensures w == RunSeries(t, start, events) && w.turnFault == w0.turnFault && w.b == w0.b && w.a.epoch == 2
  {
    events, w := Then(t, start, before, w0, true, AuditExpires);
    assert w.a.phase.Between? && w.a.epoch == 1 && w.b == w0.b;
    events, w := Then(t, start, events, w, true, Reset(None, ""));
    hide LoopStep, Start;
  }

  /** The Thief's opening turn is sent and lies with the Police. */
  lemma OpeningTurn(t: Terms, start: World, before: seq<PeerEvent>, w0: World)
    returns (events: seq<PeerEvent>, w: World)
    requires w0 == RunSeries(t, start, before) && 1 <= t.max
    requires w0.a.epoch == 1 && w0.a.phase.Playing? && w0.a.loop.role.Thief? && w0.a.loop.pc == Sending(1)
    ensures w == RunSeries(t, start, events) && w.turnFault == w0.turnFault && w.b == w0.b.(turns := w.b.turns) && 1 in w.b.turns
    ensures w.a.epoch == 1 && w.a.loop.role.Thief? && w.a.loop.pc == if t.max == 1 then Done(Survival) else Waiting(1)
    ensures w.a.phase == if t.max == 1 then Auditing(false) else Playing
  {
    events, w := Then(t, start, before, w0, true, TakeTurn(Post(ANY_PLAY, "")));
  }

  /** With a single step per sub-game the Thief is done after its opening. If it stops
      waiting for the audit, the reply of the Police reaches it in the next sub-game, where
      it is the Police and awaits a turn with that very step number. */
  lemma SingleStepLeaks(t: Terms, ours: string, theirs: string) returns (events: seq<PeerEvent>)
    requires t.max == 1 && 2 <= t.games
    ensures var w := RunSeries(t, Opening(ours, theirs, Thief), events); !w.turnFault && !Isolated(w.a)
  {
    var start := Opening(ours, theirs, Thief);
    var w;
    events, w := Prologue(t, ours, theirs);
    hide RunSeries, WorldStep, PeerStep;
    events, w := OpeningTurn(t, start, events, w);
    events, w := MoveOn(t, start, events, w);
    events, w := LateReply(t, start, events, w);
  }

  /** With more steps the audit wait and a turn wait must both expire. */
  lemma ExpiredWaitsLeak(t: Terms, ours: string, theirs: string) returns (events: seq<PeerEvent>)
    requires 2 <= t.max && 2 <= t.games
    ensures var w := RunSeries(t, Opening(ours, theirs, Thief), events);
            w.a.epoch == 2 && 1 in w.a.turns && w.a.turns[1].game == 1 && !Isolated(w.a)
  {
    var start := Opening(ours, theirs, Thief);
    var w;
    events, w := Prologue(t, ours, theirs);
    hide RunSeries;
    events, w := OpeningTurn(t, start, events, w);
    events, w := Then(t, start, events, w, true, TakeTurn(Expire));
    assert w.a.phase == Auditing(false) && w.a.loop.pc == Done(Timeout);
    hide WorldStep, PeerStep;
    events, w := MoveOn(t, start, events, w);
    events, w := LateReply(t, start, events, w);
  }

  // ---------- the audit exchange is a barrier ----------

  /** What `x` keeps of `y` while no audit wait expires, whatever becomes of the turn waits: a
      peer moves on only with the other's audit in hand, and a peer that has sent its audit
      sends no more turns. */
  ghost predicate Barrier(x: Peer, y: Peer) {
    && Isolated(x)
    && x.epoch <= y.epoch + 1
    && (forall k :: k in x.offers ==> 1 <= k <= y.epoch)
    && (forall k :: k in x.audits ==> k <= y.epoch)
    && (x.phase.Playing? || x.phase.Auditing? ==> x.epoch <= y.epoch)
    && (x.phase.Between? && 1 <= x.epoch ==> x.epoch in x.audits)
    && (y.epoch in x.audits ==> y.loop.pc.Done? && !y.phase.Playing? && !y.phase.Negotiating?)
    && (x.epoch == y.epoch + 1 ==> y.loop.pc.Done? || (y.epoch == 0 && !y.phase.Playing?))
  }

  lemma LoopOnlyEnds(max: nat, game: nat, l: Loop, inbox: Mailbox, c: Choice)
    ensures var (l', m) := LoopStep(max, game, l, inbox, c);
            && (l.pc.Done? || l.pc.Aborted? ==> l' == l && m.None?)
            && (m.Some? ==> m.value.game == game)
  {
    hide TurnPayload, PcAfterPost;
  }

  lemma DeliveryIsolates(y: Peer, turns: Mailbox, m: Option<Message>)
    requires Isolated(y) && (m.Some? ==> m.value.game == y.epoch)
    ensures Isolated(y.(turns := Deliver(y.turns, m)))
  {
  }

  lemma TurnKeepsBarrier(t: Terms, me: Peer, you: Peer, choice: Choice)
    requires Barrier(me, you) && Barrier(you, me) && me.phase.Playing?
    ensures var r := PeerStep(t, me, you, TakeTurn(choice)); Barrier(r.0, r.1) && Barrier(r.1, r.0)
  {
    var step := LoopStep(t.max, me.epoch, me.loop, me.turns, choice);
    LoopOnlyEnds(t.max, me.epoch, me.loop, me.turns, choice);
    hide LoopStep;
    assert step.1.Some? ==> me.epoch == you.epoch;
    DeliveryIsolates(you, you.turns, step.1);
    hide Deliver, Isolated;
    var me', you' := AfterTurn(me, step.0), you.(turns := Deliver(you.turns, step.1));
    assert Isolated(me') by { SameTurnsIsolated(me, me'); }
    assert PeerStep(t, me, you, TakeTurn(choice)).0 == me' && PeerStep(t, me, you, TakeTurn(choice)).1 == you';
  }

  lemma SameTurnsIsolated(p: Peer, p': Peer)
    requires Isolated(p) && p'.turns == p.turns && p'.epoch == p.epoch
    ensures Isolated(p')
  {
  }

  lemma ResetKeepsBarrier(t: Terms, me: Peer, you: Peer, githubCommit: Option<string>, nonce: string)
    requires Barrier(me, you) && Barrier(you, me) && me.phase.Between?
    requires you.epoch == 0 ==> !you.phase.Playing?
    ensures var r := PeerStep(t, me, you, Reset(githubCommit, nonce)); Barrier(r.0, r.1) && Barrier(r.1, r.0)
  {
    hide Start;
  }

  /** What the steps of negotiating, auditing and settling do that matters here. */
  lemma OtherShape(t: Terms, me: Peer, you: Peer, act: Act)
    requires !act.Reset? && !act.TakeTurn? && !PeerStep(t, me, you, act).2.AuditFault?
    ensures var (me', you', _) := PeerStep(t, me, you, act);
            && me' == me.(phase := me'.phase, reports := me'.reports)
            && you' == you.(offers := you'.offers, audits := you'.audits, consensus := you'.consensus)
            && (me'.phase.Playing? || me'.phase.Auditing? ==>
                  me.phase.Playing? || me.phase.Auditing? || (me.phase.Negotiating? && me.epoch in me.offers))
            && (me'.phase.Playing? ==> me.phase.Playing? || me.phase.Negotiating?)
            && (me'.phase.Negotiating? ==> me.phase.Negotiating?)
            && (me'.phase.Between? ==> me.phase.Between? || (me.phase.Auditing? && me.epoch in me.audits))
            && (you'.offers == you.offers || (me.phase.Negotiating? && you'.offers == you.offers + {me.epoch}))
            && (you'.audits.Keys == you.audits.Keys
                || (me.phase.Auditing? && me'.phase.Auditing? && me.loop.pc.Done? && you'.audits.Keys == you.audits.Keys + {me.epoch}))
  {
    hide ReportOn, EnvelopeOf, ConsensusOf, ConfirmAgreement;
  }

  lemma OtherKeepsBarrier(t: Terms, me: Peer, you: Peer, act: Act)
    requires Barrier(me, you) && Barrier(you, me) && !act.Reset? && !act.TakeTurn?
    requires me.phase.Negotiating? || me.phase.Playing? || me.phase.Auditing? ==> 1 <= me.epoch
    requires !PeerStep(t, me, you, act).2.AuditFault?
    ensures var r := PeerStep(t, me, you, act); Barrier(r.0, r.1) && Barrier(r.1, r.0)
  {
    OtherShape(t, me, you, act);
    var r := PeerStep(t, me, you, act);
    hide PeerStep;
    SameTurnsIsolated(me, r.0);
    SameTurnsIsolated(you, r.1);
    hide Isolated;
    assert forall k :: k in r.1.audits <==> k in r.1.audits.Keys;
    assert forall k :: k in you.audits <==> k in you.audits.Keys;
    assert Barrier(r.0, r.1);
    assert Barrier(r.1, r.0);
  }

  /** A peer that has not started has not left its first phase. */
  predicate StartsBetween(p: Peer) {
    p.epoch == 0 ==> p.phase.Between? || p.phase.Settling? || p.phase.Settled?
  }

  lemma StepKeepsStart(t: Terms, me: Peer, you: Peer, act: Act)
    requires StartsBetween(me) && StartsBetween(you)
    ensures var r := PeerStep(t, me, you, act); StartsBetween(r.0) && StartsBetween(r.1)
  {
    hide ReportOn, EnvelopeOf, ConsensusOf, ConfirmAgreement, LoopStep, Deliver, Start;
  }

  lemma StepKeepsBarrier(t: Terms, me: Peer, you: Peer, act: Act)
    requires Barrier(me, you) && Barrier(you, me) && StartsBetween(me) && StartsBetween(you)
    requires !PeerStep(t, me, you, act).2.AuditFault?
    ensures var r := PeerStep(t, me, you, act); Barrier(r.0, r.1) && Barrier(r.1, r.0)
  {
    match act
    case Reset(githubCommit, nonce) =>
      if me.phase.Between? {
        ResetKeepsBarrier(t, me, you, githubCommit, nonce);
      }
    case TakeTurn(choice) =>
      if me.phase.Playing? {
        TurnKeepsBarrier(t, me, you, choice);
      }
    case _ =>
      OtherKeepsBarrier(t, me, you, act);
    hide Barrier;
  }

  lemma {:induction false} RunKeepsBarrier(t: Terms, ours: string, theirs: string, natural: Role, events: seq<PeerEvent>)
    ensures var w := RunSeries(t, Opening(ours, theirs, natural), events);
            && StartsBetween(w.a) && StartsBetween(w.b)
            && (!w.auditFault ==> Barrier(w.a, w.b) && Barrier(w.b, w.a))
  {
    if events != [] {
      RunKeepsBarrier(t, ours, theirs, natural, events[..|events| - 1]);
      var w, e := RunSeries(t, Opening(ours, theirs, natural), events[..|events| - 1]), events[|events| - 1];
      var (me, you) := if e.first then (w.a, w.b) else (w.b, w.a);
      hide Barrier, StartsBetween, PeerStep;
      StepKeepsStart(t, me, you, e.act);
      if !WorldStep(t, w, e).auditFault {
        StepKeepsBarrier(t, me, you, e.act);
      }
    }
  }

  /** As long as no audit wait expires, turns stay in their sub-game, however many turn waits
      expire and sends fail, and for any number of steps. */
  lemma AuditsIsolate(t: Terms, ours: string, theirs: string, natural: Role, events: seq<PeerEvent>)
    ensures var w := RunSeries(t, Opening(ours, theirs, natural), events);
            !w.auditFault ==> Isolated(w.a) && Isolated(w.b)
  {
    RunKeepsBarrier(t, ours, theirs, natural, events);
  }

  // ---------- a single sub-game ----------

  /** With at most one sub-game to play, whoever plays it is not ahead of the other. */
  ghost predicate OneGame(x: Peer, y: Peer) {
    && Isolated(x) && x.epoch <= 1
    && (forall k :: k in x.offers ==> 1 <= k <= y.epoch)
    && (x.phase.Playing? ==> 1 <= x.epoch && x.epoch in x.offers)
  }

  lemma StepKeepsOneGame(t: Terms, me: Peer, you: Peer, act: Act)
    requires t.games <= 1 && OneGame(me, you) && OneGame(you, me) && StartsBetween(me)
    ensures var r := PeerStep(t, me, you, act); OneGame(r.0, r.1) && OneGame(r.1, r.0)
  {
    hide ReportOn, EnvelopeOf, ConsensusOf, ConfirmAgreement, LoopStep, Start;
    if act.TakeTurn? {
      var step := LoopStep(t.max, me.epoch, me.loop, me.turns, act.choice);
      LoopOnlyEnds(t.max, me.epoch, me.loop, me.turns, act.choice);
      if me.phase.Playing? {
        DeliveryIsolates(you, you.turns, step.1);
      }
    }
    hide Deliver;
  }

  lemma {:induction false} OneGameIsolates(t: Terms, ours: string, theirs: string, natural: Role, events: seq<PeerEvent>)
    requires t.games <= 1
    ensures var w := RunSeries(t, Opening(ours, theirs, natural), events); OneGame(w.a, w.b) && OneGame(w.b, w.a)
  {
    if events != [] {
      OneGameIsolates(t, ours, theirs, natural, events[..|events| - 1]);
      RunKeepsBarrier(t, ours, theirs, natural, events[..|events| - 1]);
      var w, e := RunSeries(t, Opening(ours, theirs, natural), events[..|events| - 1]), events[|events| - 1];
      hide OneGame, StartsBetween, PeerStep;
      if e.first { StepKeepsOneGame(t, w.a, w.b, e.act); } else { StepKeepsOneGame(t, w.b, w.a, e.act); }
    }
  }

  // ---------- no steps at all ----------

  /** Without steps nobody ever has a turn to send. */
  predicate Silent(p: Peer) {
    p.turns == map[] && (p.phase.Playing? || p.phase.Negotiating? ==> p.loop.pc == Done(Survival) || p.loop.pc == Waiting(1))
  }

  lemma SilentStep(t: Terms, me: Peer, you: Peer, act: Act)
    requires t.max == 0 && Silent(me) && Silent(you)
    ensures var r := PeerStep(t, me, you, act); Silent(r.0) && Silent(r.1)
  {
  }

  lemma {:induction false} SilentRun(t: Terms, ours: string, theirs: string, natural: Role, events: seq<PeerEvent>)
    requires t.max == 0
    ensures var w := RunSeries(t, Opening(ours, theirs, natural), events); Silent(w.a) && Silent(w.b)
  {
    if events != [] {
      SilentRun(t, ours, theirs, natural, events[..|events| - 1]);
      var w, e := RunSeries(t, Opening(ours, theirs, natural), events[..|events| - 1]), events[|events| - 1];
      if e.first { SilentStep(t, w.a, w.b, e.act); } else { SilentStep(t, w.b, w.a, e.act); }
    }
  }

  // ---------- exactly when runs are isolated ----------

  /** A run is isolated if its faults stay within one kind: no audit wait expired, or no turn
      wait did and a sub-game is not a single step. */
  lemma OneKindOfFaultIsolates(t: Terms, ours: string, theirs: string, natural: Role, events: seq<PeerEvent>)
    ensures var w := RunSeries(t, Opening(ours, theirs, natural), events);
            !w.auditFault || (!w.turnFault && t.max != 1) || t.max == 0 || t.games < 2 ==> Isolated(w.a) && Isolated(w.b)
  {
    var w := RunSeries(t, Opening(ours, theirs, natural), events);
    if !w.auditFault {
      AuditsIsolate(t, ours, theirs, natural, events);
    } else if t.max == 0 {
      SilentRun(t, ours, theirs, natural, events);
    } else if t.games < 2 {
      OneGameIsolates(t, ours, theirs, natural, events);
    } else if !w.turnFault && t.max != 1 {
      TurnsStayInTheirSubGame(t, ours, theirs, natural, events);
    }
  }

  /** The run has at most the faults allowed. */
  predicate FaultsWithin(w: World, turnFaults: bool, auditFaults: bool) {
    (w.turnFault ==> turnFaults) && (w.auditFault ==> auditFaults)
  }

  ghost predicate AlwaysIsolated(t: Terms, ours: string, theirs: string, turnFaults: bool, auditFaults: bool) {
    forall natural, events ::
      var w := RunSeries(t, Opening(ours, theirs, natural), events);
      FaultsWithin(w, turnFaults, auditFaults) ==> Isolated(w.a) && Isolated(w.b)
  }

  /** All runs with at most the allowed faults are isolated exactly when audit waits do not
      expire, or turn waits do not and a sub-game is not a single step, or nothing can leak:
      there are no steps, or no second sub-game. */
  lemma IsolationExactly(t: Terms, ours: string, theirs: string, turnFaults: bool, auditFaults: bool)
    ensures AlwaysIsolated(t, ours, theirs, turnFaults, auditFaults) <==>
            !auditFaults || (!turnFaults && t.max != 1) || t.max == 0 || t.games < 2
  {
    if !auditFaults || (!turnFaults && t.max != 1) || t.max == 0 || t.games < 2 {
      hide RunSeries, Opening, Isolated;
      forall natural, events
        ensures var w := RunSeries(t, Opening(ours, theirs, natural), events);
                FaultsWithin(w, turnFaults, auditFaults) ==> Isolated(w.a) && Isolated(w.b)
      {
        OneKindOfFaultIsolates(t, ours, theirs, natural, events);
      }
    } else if t.max == 1 {
      var events := SingleStepLeaks(t, ours, theirs);
    } else {
      var events := ExpiredWaitsLeak(t, ours, theirs);
    }
  }
}
