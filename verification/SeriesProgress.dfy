/** Every series ends: each step that changes anything is progress, of which there is a bounded
    amount; and a series in which nobody gives up can always be brought to its agreed end. */
module SeriesProgress {
  import opened Options
  import opened Turns
  import opened TurnLoop
  import opened SubGameTheorems
  import opened Scoring
  import opened Series
  import opened SeriesTurns
  import opened SeriesAgreement
  import opened SeriesTheorems

  // ---------- progress within a sub-game ----------

  predicate PcInRange(max: nat, l: Loop) {
    match l.pc
    case Sending(k) => 1 <= k <= max
    case Waiting(k) => 1 <= k && (if l.role.Thief? then k < max else k <= max + 1)
    case Closing(k) => l.role.Thief? && 1 <= k <= max
    case _ => true
  }

  /** How far a loop has come: two units a round. */
  function PcRank(max: nat, l: Loop): (rank: nat)
    requires PcInRange(max, l)
    ensures rank <= 2 * max + 4
  {
    match l.pc
    case Sending(k) => if l.role.Thief? then 2 * k else 2 * k + 1
    case Waiting(k) => if l.role.Thief? then 2 * k + 1 else 2 * k
    case Closing(k) => 2 * k
    case _ => 2 * max + 4
  }

  lemma StartInRange(max: nat, role: Role, opening: Sealed)
    requires IsOpening(role, opening)
    ensures PcInRange(max, Start(max, role, opening))
  {
  }

  /** A step of a loop changes nothing or brings it forward. */
  lemma LoopAdvances(max: nat, game: nat, l: Loop, inbox: Mailbox, c: Choice)
    requires PcInRange(max, l)
    ensures var (l', m) := LoopStep(max, game, l, inbox, c);
            PcInRange(max, l') && ((l' == l && m.None?) || PcRank(max, l) < PcRank(max, l'))
  {
    hide TurnPayload, MessageOf;
  }

  // ---------- progress of a peer ----------

  /** How far a peer has come within its sub-game, and after the last one. */
  function Stage(t: Terms, p: Peer): (stage: nat)
    requires PcInRange(t.max, p.loop)
    ensures stage <= 2 * t.max + 13
  {
    match p.phase
    case Negotiating(sent) => if sent then 1 else 0
    case Playing => 2 + PcRank(t.max, p.loop)
    case Auditing(sent) => if sent then 2 * t.max + 8 else 2 * t.max + 7
    case Between => 2 * t.max + 9
    case Settling(sent) => if sent then 2 * t.max + 11 else 2 * t.max + 10
    case Settled(_) => 2 * t.max + 12
    case Crashed => 2 * t.max + 13
  }

  function StagesPerGame(t: Terms): nat {
    2 * t.max + 14
  }

  function Mailed(p: Peer): nat {
    |p.offers| + |p.audits.Keys| + if p.consensus.Some? then 1 else 0
  }

  /** All progress of one peer: stages passed and distinct messages received. */
  function Progress(t: Terms, p: Peer): nat
    requires PcInRange(t.max, p.loop)
  {
    p.epoch * StagesPerGame(t) + Stage(t, p) + Mailed(p)
  }

  /** The progress there can be at most. */
  function Limit(t: Terms): nat {
    t.games * StagesPerGame(t) + StagesPerGame(t) + 2 * t.games
  }

  lemma NextGame(epoch: nat, stages: nat)
    ensures (epoch + 1) * stages == epoch * stages + stages
  {
  }

  lemma FewerGames(epoch: nat, games: nat, stages: nat)
    requires epoch <= games
    ensures epoch * stages <= games * stages
  {
  }

  lemma {:induction false} NumbersUpTo(s: set<nat>, n: nat)
    requires forall k :: k in s ==> 1 <= k <= n
    ensures |s| <= n
  {
    if n == 0 {
      assert s == {} by {
        forall k: nat ensures k !in s {
        }
      }
    } else {
      NumbersUpTo(s - {n}, n - 1);
    }
  }

  /** What `x` holds of `y`, and what is known of `x`: enough to see that a message sent again
      changes nothing. */
  ghost predicate MailInOrder(t: Terms, x: Peer, y: Peer) {
    && x.epoch <= t.games && PcInRange(t.max, x.loop)
    && (x.phase.Negotiating? || x.phase.Playing? || x.phase.Auditing? ==> 1 <= x.epoch)
    && (forall k :: k in x.offers ==> 1 <= k <= y.epoch)
    && (forall k :: k in x.audits.Keys ==> 1 <= k <= y.epoch)
    && (y.epoch in x.audits ==>
          y.loop.pc.Done? && !y.phase.Playing? && !y.phase.Negotiating? && x.audits[y.epoch] == EnvelopeOf(y))
    && (x.consensus.Some? ==>
          (y.phase.Settling? || y.phase.Settled?) && x.consensus.value == ConsensusOf(t, y, x.group))
  }

  lemma ProgressIsBounded(t: Terms, x: Peer, y: Peer)
    requires MailInOrder(t, x, y) && MailInOrder(t, y, x)
    ensures Progress(t, x) <= Limit(t)
  {
    NumbersUpTo(x.offers, t.games);
    NumbersUpTo(x.audits.Keys, t.games);
    FewerGames(x.epoch, t.games, StagesPerGame(t));
  }

  /** The step leaves both peers as they are, or brings one forward and neither back. */
  ghost predicate NoneOrMore(t: Terms, me: Peer, you: Peer, me': Peer, you': Peer)
    requires PcInRange(t.max, me.loop) && PcInRange(t.max, you.loop)
  {
    && PcInRange(t.max, me'.loop) && PcInRange(t.max, you'.loop)
    && ((me' == me && you' == you)
        || Progress(t, me) + Progress(t, you) < Progress(t, me') + Progress(t, you'))
  }

  lemma ResetInOrder(t: Terms, me: Peer, you: Peer, githubCommit: Option<string>, nonce: string)
    requires MailInOrder(t, me, you) && MailInOrder(t, you, me) && me.phase.Between? && me.epoch < t.games
    ensures var me' := AfterReset(t, me, githubCommit, nonce); MailInOrder(t, me', you) && MailInOrder(t, you, me')
  {
    var role := RoleFor(me.natural, me.epoch + 1);
    StartInRange(t.max, role, Sealed(Declaration(role, githubCommit), nonce));
    assert me.epoch + 1 !in you.audits.Keys;
    hide ConsensusOf, EnvelopeOf, Start, PcInRange;
  }

  lemma ResetAdvances(t: Terms, me: Peer, you: Peer, githubCommit: Option<string>, nonce: string)
    requires MailInOrder(t, me, you) && MailInOrder(t, you, me) && me.phase.Between? && me.epoch < t.games
    ensures var me' := AfterReset(t, me, githubCommit, nonce);
            MailInOrder(t, me', you) && MailInOrder(t, you, me') && NoneOrMore(t, me, you, me', you)
  {
    ResetInOrder(t, me, you, githubCommit, nonce);
    hide MailInOrder, Start, PcInRange, PcRank;
    NextGame(me.epoch, StagesPerGame(t));
  }

  lemma TurnInOrder(t: Terms, me: Peer, me': Peer, you: Peer, you': Peer)
    requires MailInOrder(t, me, you) && MailInOrder(t, you, me) && me.phase.Playing?
    requires me' == me.(loop := me'.loop, phase := me'.phase) && PcInRange(t.max, me'.loop)
    requires you' == you.(turns := you'.turns)
    ensures MailInOrder(t, me', you') && MailInOrder(t, you', me')
  {
    assert me.epoch !in you.audits && you.consensus.None?;
    ConsensusUnchanged(t, you, you', me.group);
    assert you.loop.pc.Done? ==> EnvelopeOf(you') == EnvelopeOf(you);
    hide ConsensusOf, EnvelopeOf, PcInRange;
  }

  /** A loop that moved takes the peer with it. */
  lemma TurnRaisesStage(t: Terms, me: Peer, loop: Loop)
    requires me.phase.Playing? && PcInRange(t.max, me.loop) && PcInRange(t.max, loop)
    requires loop == me.loop || PcRank(t.max, me.loop) < PcRank(t.max, loop)
    ensures var me' := AfterTurn(me, loop); Stage(t, me) < Stage(t, me') || me' == me
    ensures loop != me.loop ==> Stage(t, me) < Stage(t, AfterTurn(me, loop))
  {
    hide PcInRange;
  }

  lemma TurnTaken(t: Terms, me: Peer, you: Peer, choice: Choice)
    requires me.phase.Playing?
    ensures var step := LoopStep(t.max, me.epoch, me.loop, me.turns, choice);
            var r := PeerStep(t, me, you, TakeTurn(choice));
            r.0 == AfterTurn(me, step.0) && r.1 == you.(turns := Deliver(you.turns, step.1))
  {
    hide LoopStep, AfterTurn, Deliver;
  }

  lemma TurnIsMore(t: Terms, me: Peer, me': Peer, you: Peer, you': Peer)
    requires PcInRange(t.max, me.loop) && PcInRange(t.max, you.loop) && PcInRange(t.max, me'.loop)
    requires me' == me.(loop := me'.loop, phase := me'.phase) && you' == you.(turns := you'.turns)
    requires Stage(t, me) < Stage(t, me') || (me' == me && you' == you)
    ensures NoneOrMore(t, me, you, me', you')
  {
    hide PcInRange, PcRank;
    assert Stage(t, you') == Stage(t, you);
    hide Stage;
  }

  lemma TurnAdvances(t: Terms, me: Peer, you: Peer, choice: Choice)
    requires MailInOrder(t, me, you) && MailInOrder(t, you, me) && me.phase.Playing?
    ensures var r := PeerStep(t, me, you, TakeTurn(choice));
            MailInOrder(t, r.0, r.1) && MailInOrder(t, r.1, r.0) && NoneOrMore(t, me, you, r.0, r.1)
  {
    var step := LoopStep(t.max, me.epoch, me.loop, me.turns, choice);
    LoopAdvances(t.max, me.epoch, me.loop, me.turns, choice);
    TurnTaken(t, me, you, choice);
    assert PcInRange(t.max, you.loop);
    hide LoopStep, PcRank, PcInRange, PeerStep, MailInOrder, Stage, NoneOrMore;
    var me', you' := AfterTurn(me, step.0), you.(turns := Deliver(you.turns, step.1));
    assert step.1.None? ==> you' == you;
    hide Deliver;
    assert me' == me.(loop := step.0, phase := me'.phase);
    TurnRaisesStage(t, me, step.0);
    hide AfterTurn;
    TurnInOrder(t, me, me', you, you');
    TurnIsMore(t, me, me', you, you');
  }

  /** The peer moves on within its sub-game, or past the last one. */
  ghost predicate MovesOn(t: Terms, me: Peer, me': Peer, you: Peer) {
    && me' == me.(phase := me'.phase, reports := me'.reports)
    && (me'.phase.Negotiating? || me'.phase.Playing? || me'.phase.Auditing? ==> 1 <= me.epoch)
    && (me'.phase.Playing? || me'.phase.Negotiating? ==> me.epoch !in you.audits)
    && (you.consensus.Some? ==> (me'.phase.Settling? || me'.phase.Settled?) && me'.reports == me.reports)
    && PcInRange(t.max, me.loop)
    && (me' == me || Stage(t, me) < Stage(t, me'))
  }

  lemma MovingOnKeepsOrder(t: Terms, me: Peer, me': Peer, you: Peer)
    requires MailInOrder(t, me, you) && MailInOrder(t, you, me) && MovesOn(t, me, me', you)
    ensures MailInOrder(t, me', you) && MailInOrder(t, you, me') && NoneOrMore(t, me, you, me', you)
  {
    hide PcInRange, PcRank, Stage;
    assert me.loop.pc.Done? ==> EnvelopeOf(me') == EnvelopeOf(me);
    if you.consensus.Some? {
      ConsensusUnchanged(t, me, me', you.group);
    }
    hide ConsensusOf, EnvelopeOf;
  }

  /** Mail for `you`, and then `me` moves on. */
  lemma MailThenMove(t: Terms, me: Peer, me': Peer, you: Peer, you': Peer)
    requires PcInRange(t.max, me.loop) && PcInRange(t.max, you.loop) && PcInRange(t.max, me'.loop)
    requires you' == you.(offers := you'.offers, audits := you'.audits, consensus := you'.consensus)
    requires you' == you || Mailed(you) < Mailed(you')
    requires NoneOrMore(t, me, you', me', you')
    ensures NoneOrMore(t, me, you, me', you')
  {
    hide PcInRange, PcRank, Mailed;
    assert Stage(t, you') == Stage(t, you);
    hide Stage;
  }

  lemma OfferAdvances(t: Terms, me: Peer, you: Peer, acked: bool)
    requires MailInOrder(t, me, you) && MailInOrder(t, you, me) && me.phase.Negotiating?
    ensures var r := PeerStep(t, me, you, SendOffer(acked));
            MailInOrder(t, r.0, r.1) && MailInOrder(t, r.1, r.0) && NoneOrMore(t, me, you, r.0, r.1)
  {
    var me', you' := me.(phase := Negotiating(me.phase.sent || acked)), you.(offers := you.offers + {me.epoch});
    assert PeerStep(t, me, you, SendOffer(acked)) == (me', you', NoFault);
    hide PeerStep, PcRank, PcInRange;
    assert MailInOrder(t, me, you') && MailInOrder(t, you', me) by {
      assert you.loop.pc.Done? ==> EnvelopeOf(you') == EnvelopeOf(you);
      ConsensusUnchanged(t, you, you', me.group);
      hide ConsensusOf, EnvelopeOf;
    }
    assert MovesOn(t, me, me', you');
    MovingOnKeepsOrder(t, me, me', you');
    assert you' == you || Mailed(you) < Mailed(you') by {
      if me.epoch in you.offers {
        assert you'.offers == you.offers;
      }
    }
    assert PcInRange(t.max, you.loop);
    hide MailInOrder, MovesOn, Mailed;
    MailThenMove(t, me, me', you, you');
  }

  lemma AuditInOrder(t: Terms, me: Peer, you: Peer, you': Peer)
    requires MailInOrder(t, me, you) && MailInOrder(t, you, me) && me.phase.Auditing? && me.loop.pc.Done?
    requires you' == you.(audits := you.audits[me.epoch := EnvelopeOf(me)])
    ensures MailInOrder(t, me, you') && MailInOrder(t, you', me)
  {
    hide PcInRange;
    assert you.loop.pc.Done? ==> EnvelopeOf(you') == EnvelopeOf(you);
    ConsensusUnchanged(t, you, you', me.group);
    hide ConsensusOf, EnvelopeOf;
    assert you'.audits.Keys == you.audits.Keys + {me.epoch};
  }

  lemma NewEntry(m: map<nat, Envelope>, k: nat, e: Envelope)
    requires k in m ==> m[k] == e
    ensures m[k := e] == m || |m.Keys| < |m[k := e].Keys|
  {
    if k in m {
      assert m[k := e] == m;
    } else {
      assert m[k := e].Keys == m.Keys + {k};
    }
  }

  /** An envelope is new mail, or the very one that was there. */
  lemma AuditIsMail(t: Terms, me: Peer, you: Peer, you': Peer)
    requires MailInOrder(t, you, me) && me.loop.pc.Done?
    requires you' == you.(audits := you.audits[me.epoch := EnvelopeOf(me)])
    ensures you' == you || Mailed(you) < Mailed(you')
  {
    assert me.epoch in you.audits ==> you.audits[me.epoch] == EnvelopeOf(me);
    hide MailInOrder, EnvelopeOf;
    NewEntry(you.audits, me.epoch, EnvelopeOf(me));
  }

  lemma AuditAdvances(t: Terms, me: Peer, you: Peer, acked: bool)
    requires MailInOrder(t, me, you) && MailInOrder(t, you, me) && me.phase.Auditing? && me.loop.pc.Done?
    ensures var r := PeerStep(t, me, you, SubmitAudit(acked));
            MailInOrder(t, r.0, r.1) && MailInOrder(t, r.1, r.0) && NoneOrMore(t, me, you, r.0, r.1)
  {
    var me' := me.(phase := Auditing(me.phase.sent || acked));
    var you' := you.(audits := you.audits[me.epoch := EnvelopeOf(me)]);
    assert PeerStep(t, me, you, SubmitAudit(acked)) == (me', you', NoFault);
    hide PeerStep, PcRank, PcInRange;
    AuditInOrder(t, me, you, you');
    AuditIsMail(t, me, you, you');
    hide ConsensusOf, EnvelopeOf, Mailed;
    assert you.consensus.None? && 1 <= me.epoch;
    assert PcInRange(t.max, you.loop) && PcInRange(t.max, me.loop);
    hide MailInOrder;
    assert MovesOn(t, me, me', you');
    hide MovesOn;
    MovingOnKeepsOrder(t, me, me', you');
    MailThenMove(t, me, me', you, you');
  }

  lemma ConsensusAdvances(t: Terms, me: Peer, you: Peer, acked: bool)
    requires MailInOrder(t, me, you) && MailInOrder(t, you, me) && me.phase.Settling?
    ensures var r := PeerStep(t, me, you, SubmitConsensus(acked));
            MailInOrder(t, r.0, r.1) && MailInOrder(t, r.1, r.0) && NoneOrMore(t, me, you, r.0, r.1)
  {
    var me' := me.(phase := Settling(me.phase.sent || acked));
    var you' := you.(consensus := Some(ConsensusOf(t, me, you.group)));
    assert PeerStep(t, me, you, SubmitConsensus(acked)) == (me', you', NoFault);
    hide PeerStep, PcRank, PcInRange;
    assert MailInOrder(t, me, you') && MailInOrder(t, you', me) by {
      assert you.loop.pc.Done? ==> EnvelopeOf(you') == EnvelopeOf(you);
      ConsensusUnchanged(t, you, you', me.group);
      hide ConsensusOf, EnvelopeOf;
    }
    hide ConsensusOf;
    assert MovesOn(t, me, me', you');
    MovingOnKeepsOrder(t, me, me', you');
    assert you' == you || Mailed(you) < Mailed(you');
    assert PcInRange(t.max, you.loop);
    hide MailInOrder, MovesOn, Mailed;
    MailThenMove(t, me, me', you, you');
  }

  /** The acts that send nothing. */
  predicate KeepsToItself(act: Act) {
    !act.Reset? && !act.TakeTurn? && !act.SendOffer? && !act.SubmitAudit? && !act.SubmitConsensus?
  }

  lemma OtherMovesOn(t: Terms, me: Peer, you: Peer, act: Act)
    requires MailInOrder(t, me, you) && MailInOrder(t, you, me) && KeepsToItself(act)
    ensures var r := PeerStep(t, me, you, act); MovesOn(t, me, r.0, you) && r.1 == you
  {
    hide ConsensusOf, EnvelopeOf, ReportOn, ConfirmAgreement, PcRank, PcInRange;
  }

  lemma StepAdvances(t: Terms, me: Peer, you: Peer, act: Act)
    requires MailInOrder(t, me, you) && MailInOrder(t, you, me)
    ensures var r := PeerStep(t, me, you, act);
            MailInOrder(t, r.0, r.1) && MailInOrder(t, r.1, r.0) && NoneOrMore(t, me, you, r.0, r.1)
  {
    if KeepsToItself(act) {
      OtherMovesOn(t, me, you, act);
      MovingOnKeepsOrder(t, me, PeerStep(t, me, you, act).0, you);
    } else if act.Reset? && me.phase.Between? && me.epoch < t.games {
      ResetAdvances(t, me, you, act.githubCommit, act.nonce);
      ResetShape(t, me, you, act.githubCommit, act.nonce);
    } else if act.TakeTurn? && me.phase.Playing? {
      TurnAdvances(t, me, you, act.choice);
    } else if act.SendOffer? && me.phase.Negotiating? {
      OfferAdvances(t, me, you, act.acked);
    } else if act.SubmitAudit? && me.phase.Auditing? && me.loop.pc.Done? {
      AuditAdvances(t, me, you, act.acked);
    } else if act.SubmitConsensus? && me.phase.Settling? {
      ConsensusAdvances(t, me, you, act.acked);
    } else {
      assert PeerStep(t, me, you, act) == (me, you, NoFault);
    }
    hide PeerStep, MailInOrder, Progress, MovesOn;
  }

  // ---------- every run ----------

  function WorldProgress(t: Terms, w: World): nat
    requires PcInRange(t.max, w.a.loop) && PcInRange(t.max, w.b.loop)
  {
    Progress(t, w.a) + Progress(t, w.b)
  }

  ghost predicate WorldInOrder(t: Terms, w: World) {
    MailInOrder(t, w.a, w.b) && MailInOrder(t, w.b, w.a)
  }

  predicate SamePeers(w: World, w': World) {
    w'.a == w.a && w'.b == w.b
  }

  lemma WorldStepAdvances(t: Terms, w: World, e: PeerEvent)
    requires WorldInOrder(t, w)
    ensures var w' := WorldStep(t, w, e);
            WorldInOrder(t, w') && (SamePeers(w, w') || WorldProgress(t, w) < WorldProgress(t, w'))
  {
    hide PeerStep;
    if e.first {
      StepAdvances(t, w.a, w.b, e.act);
    } else {
      StepAdvances(t, w.b, w.a, e.act);
    }
    hide MailInOrder, Progress;
  }

  /** How many events of a run changed a peer. */
  function Changes(t: Terms, w: World, events: seq<PeerEvent>): nat {
    if events == [] then 0
    else
      var before := RunSeries(t, w, events[..|events| - 1]);
      Changes(t, w, events[..|events| - 1]) + (if SamePeers(before, RunSeries(t, w, events)) then 0 else 1)
  }

  lemma {:induction false} RunAdvances(t: Terms, ours: string, theirs: string, natural: Role, events: seq<PeerEvent>)
    ensures var start := Opening(ours, theirs, natural);
            var w := RunSeries(t, start, events);
            WorldInOrder(t, w) && Changes(t, start, events) <= WorldProgress(t, w)
  {
    if events != [] {
      RunAdvances(t, ours, theirs, natural, events[..|events| - 1]);
      var start := Opening(ours, theirs, natural);
      hide WorldInOrder, WorldProgress, WorldStep, Opening;
      WorldStepAdvances(t, RunSeries(t, start, events[..|events| - 1]), events[|events| - 1]);
    }
  }

  /** Every series ends: whatever the interleaving and whatever fails on the way, only a bounded
      number of steps change anything. */
  lemma SeriesEnds(t: Terms, ours: string, theirs: string, natural: Role, events: seq<PeerEvent>)
    ensures Changes(t, Opening(ours, theirs, natural), events) <= 2 * Limit(t)
  {
    RunAdvances(t, ours, theirs, natural, events);
    var w := RunSeries(t, Opening(ours, theirs, natural), events);
    ProgressIsBounded(t, w.a, w.b);
    ProgressIsBounded(t, w.b, w.a);
    hide Limit, Progress, MailInOrder, RunSeries, Opening, Changes;
  }

  // ---------- the agreed end can always be reached ----------

  predicate Unfaulted(w: World) {
    !w.turnFault && !w.auditFault && !w.a.phase.Crashed? && !w.b.phase.Crashed?
  }

  predicate SettledInAgreement(w: World) {
    w.a.phase == w.b.phase == Settled(true)
  }

  lemma YouKeepYourPhase(t: Terms, me: Peer, you: Peer, act: Act)
    ensures PeerStep(t, me, you, act).1.phase == you.phase
  {
    hide LoopStep, ReportOn, EnvelopeOf, ConsensusOf, ConfirmAgreement, Start, Deliver, AfterTurn;
  }

  lemma ProgressingStep(t: Terms, ours: string, theirs: string, natural: Role, events: seq<PeerEvent>) returns (e: PeerEvent)
    requires 2 <= t.max && ours != theirs
    requires var w := RunSeries(t, Opening(ours, theirs, natural), events); Unfaulted(w) && !SettledInAgreement(w)
    ensures var w := RunSeries(t, Opening(ours, theirs, natural), events);
            var w' := WorldStep(t, w, e); Unfaulted(w') && !SamePeers(w, w')
  {
    var w := RunSeries(t, Opening(ours, theirs, natural), events);
    SeriesNeverStuck(t, ours, theirs, natural, events);
    RunKeepsTurnInv(t, ours, theirs, natural, events);
    hide RunSeries, Opening, TurnInv, CanAct, PeerStep;
    if CanAct(w.a) {
      CanActMeansProgress(t, w.a, w.b);
      var act :| Advances(t, w.a, w.b, act);
      YouKeepYourPhase(t, w.a, w.b, act);
      e := PeerEvent(true, act);
    } else {
      TurnInvSymmetric(t, w.a, w.b);
      CanActMeansProgress(t, w.b, w.a);
      var act :| Advances(t, w.b, w.a, act);
      YouKeepYourPhase(t, w.b, w.a, act);
      e := PeerEvent(false, act);
    }
  }

  ghost function ProgressLeft(t: Terms, w: World): nat
    requires WorldInOrder(t, w)
  {
    if WorldProgress(t, w) <= 2 * Limit(t) then 2 * Limit(t) - WorldProgress(t, w) else 0
  }

  lemma LeftShrinks(t: Terms, w: World, w': World)
    requires WorldInOrder(t, w) && WorldInOrder(t, w') && WorldProgress(t, w) < WorldProgress(t, w')
    ensures ProgressLeft(t, w') < ProgressLeft(t, w)
  {
    ProgressIsBounded(t, w'.a, w'.b);
    ProgressIsBounded(t, w'.b, w'.a);
    hide Limit, Progress, MailInOrder;
  }

  lemma RunSeriesStep(t: Terms, start: World, events: seq<PeerEvent>, e: PeerEvent)
    ensures RunSeries(t, start, events + [e]) == WorldStep(t, RunSeries(t, start, events), e)
  {
    assert (events + [e])[..|events|] == events;
    hide WorldStep;
  }

  lemma {:induction false} CanSettleWithin(t: Terms, ours: string, theirs: string, natural: Role,
                                           events: seq<PeerEvent>, left: nat)
    returns (more: seq<PeerEvent>)
    requires 2 <= t.max && ours != theirs
    requires var w := RunSeries(t, Opening(ours, theirs, natural), events);
             Unfaulted(w) && WorldInOrder(t, w) && ProgressLeft(t, w) <= left
    ensures var w := RunSeries(t, Opening(ours, theirs, natural), events + more); Unfaulted(w) && SettledInAgreement(w)
    decreases left
  {
    var start := Opening(ours, theirs, natural);
    var w := RunSeries(t, start, events);
    hide RunSeries, Opening, WorldStep, WorldInOrder, WorldProgress, ProgressLeft, Unfaulted, SettledInAgreement;
    if SettledInAgreement(w) {
      more := [];
      assert events + more == events;
    } else {
      var e := ProgressingStep(t, ours, theirs, natural, events);
      WorldStepAdvances(t, w, e);
      RunSeriesStep(t, start, events, e);
      LeftShrinks(t, w, WorldStep(t, w, e));
      var rest := CanSettleWithin(t, ours, theirs, natural, events + [e], left - 1);
      more := [e] + rest;
      assert events + more == events + [e] + rest;
    }
  }

  /** From every moment of a fault-free series in which nobody gave up negotiating, it can be
      brought, without a fault, to its end on both sides, settled in agreement; and by the
      bound above it cannot go on changing without getting there. */
  lemma CanSettle(t: Terms, ours: string, theirs: string, natural: Role, events: seq<PeerEvent>)
    returns (more: seq<PeerEvent>)
    requires 2 <= t.max && ours != theirs
    requires Unfaulted(RunSeries(t, Opening(ours, theirs, natural), events))
    ensures var w := RunSeries(t, Opening(ours, theirs, natural), events + more); Unfaulted(w) && SettledInAgreement(w)
  {
    RunAdvances(t, ours, theirs, natural, events);
    var w := RunSeries(t, Opening(ours, theirs, natural), events);
    hide RunSeries, Opening, WorldInOrder, WorldProgress, Unfaulted, SettledInAgreement;
    more := CanSettleWithin(t, ours, theirs, natural, events, ProgressLeft(t, w));
  }
}
