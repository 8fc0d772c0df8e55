/** Sub-game isolation: while no turn wait has expired and no turn failed to be sent, what
    the two peers of a series keep of their epochs, offers and turn mailboxes. */
module SeriesTurns {
  import opened Options
  import opened Geometry
  import opened Turns
  import opened TurnLoop
  import opened SubGameProof
  import opened SubGameTheorems
  import opened Series

  predicate Fresh(max: nat, l: Loop) {
    && |l.sealed| == 1 && IsOpening(l.role, l.sealed[0])
    && l == Start(max, l.role, l.sealed[0])
  }

  /** Past the handshake of the current sub-game. */
  predicate Agreed(p: Peer) {
    1 <= p.epoch && !p.phase.Negotiating? && !p.phase.Crashed?
  }

  ghost predicate PeerOk(t: Terms, p: Peer) {
    && p.epoch <= t.games
    && (p.phase.Settling? || p.phase.Settled? ==> p.epoch == t.games)
    && (p.epoch == 0 ==> p.turns == map[] && (p.phase.Between? || p.phase.Settling? || p.phase.Settled?))
    && (1 <= p.epoch ==>
          && p.loop.role == RoleFor(p.natural, p.epoch)
          && (p.phase.Negotiating? || p.phase.Crashed? ==> Fresh(t.max, p.loop))
          && (p.phase.Playing? ==> !p.loop.pc.Done? && !p.loop.pc.Aborted?)
          && (Agreed(p) && !p.phase.Playing? ==> Finished(p.loop)))
  }

  /** Offers come from a sub-game the other side has started, and playing needs one. */
  predicate OffersOk(p: Peer, other: Peer) {
    && (forall k :: k in p.offers ==> 1 <= k <= other.epoch)
    && (Agreed(p) ==> p.epoch in p.offers)
    && (forall k :: 1 <= k <= other.epoch && (k < other.epoch || Agreed(other) || other.phase == Negotiating(true))
          ==> k in p.offers)
  }

  function Final(p: Peer): int {
    if Finished(p.loop) then p.loop.heard else p.loop.heard + 1
  }

  /** Left behind by a peer that has moved on: nothing more will be sent, and the turn that
      ends the sub-game has been read or lies in the mailbox. */
  ghost predicate Quiet(p: Peer) {
    && Agreed(p) && (p.phase.Playing? || p.phase.Auditing? || p.phase.Between?)
    && SealedOk(p.loop) && HeardOk(p.loop, p.turns)
    && Covers(p.turns, Final(p))
    && (forall k {:trigger p.turns[k]} :: 1 <= k <= Final(p) ==>
          k in p.turns && p.turns[k].game == p.epoch && p.turns[k].step == k)
    && (!Finished(p.loop) ==>
          && p.loop.role.Police? && p.loop.pc == Waiting(Final(p)) && 2 <= Final(p)
          && (p.turns[Final(p)].SaysCaught() || p.turns[Final(p)].win))
  }

  function Pair(x: Peer, y: Peer): SubGame {
    if x.loop.role.Thief? then SubGame(x.loop, y.loop, x.turns, y.turns)
    else SubGame(y.loop, x.loop, y.turns, x.turns)
  }

  ghost predicate Linked(t: Terms, x: Peer, y: Peer) {
    && (x.epoch == y.epoch && 1 <= x.epoch ==> Inv(t.max, x.epoch, Pair(x, y)))
    && (x.epoch == y.epoch + 1 ==> Fresh(t.max, x.loop) && x.turns == map[] && (1 <= y.epoch ==> Quiet(y)))
    && (y.epoch == x.epoch + 1 ==> Fresh(t.max, y.loop) && y.turns == map[] && (1 <= x.epoch ==> Quiet(x)))
    && x.epoch <= y.epoch + 1 && y.epoch <= x.epoch + 1
  }

  ghost predicate TurnInv(t: Terms, x: Peer, y: Peer) {
    && x.natural == Opposite(y.natural)
    && PeerOk(t, x) && PeerOk(t, y)
    && OffersOk(x, y) && OffersOk(y, x)
    && Linked(t, x, y)
  }

  lemma TurnInvSymmetric(t: Terms, x: Peer, y: Peer)
    requires TurnInv(t, x, y)
    ensures TurnInv(t, y, x)
  {
  }

  lemma FreshPairInv(t: Terms, x: Peer, y: Peer)
    requires 1 <= x.epoch == y.epoch && x.loop.role == Opposite(y.loop.role)
    requires Fresh(t.max, x.loop) && Fresh(t.max, y.loop) && x.turns == map[] && y.turns == map[]
    ensures Inv(t.max, x.epoch, Pair(x, y))
  {
    var g := Pair(x, y);
    StartsInv(t.max, x.epoch, g.thief.sealed[0], g.police.sealed[0]);
  }

  /** The end of a loop is in the other's mailbox or already read there. */
  lemma FinishedThiefIsHeard(max: nat, game: nat, g: SubGame)
    requires Inv(max, game, g) && 2 <= max && Finished(g.thief) && FaultFree(g.police)
    ensures g.police.heard == Sent(g.thief) - (if Finished(g.police) then 0 else 1)
    ensures !Finished(g.police) ==> g.police.pc == Waiting(Sent(g.thief)) && 2 <= Sent(g.thief)
    ensures !Finished(g.police) ==>
              var m := g.toPolice[Sent(g.thief)];
              (m.SaysCaught() || m.win) && (m.SaysCaught() <==> g.thief.pc == Done(Capture))
    ensures g.thief.heard == Sent(g.police)
  {
    var h, s := g.police.heard, Sent(g.thief);
    assert 1 <= h ==> g.toPolice[h] == MessageOf(game, g.thief.sealed[h]);
    assert g.toPolice[s] == MessageOf(game, g.thief.sealed[s]);
  }

  lemma FinishedPoliceEndsBoth(max: nat, game: nat, g: SubGame)
    requires Inv(max, game, g) && 2 <= max && Finished(g.police) && FaultFree(g.thief)
    ensures g.thief.pc == g.police.pc
    ensures g.police.heard == Sent(g.thief) && g.thief.heard == Sent(g.police)
  {
    var h := g.police.heard;
    assert g.toPolice[h] == MessageOf(game, g.thief.sealed[h]);
  }

  lemma BoxTags(game: nat, sender: Loop, box: Mailbox)
    requires SealedOk(sender) && BoxOk(game, sender, box)
    ensures forall k {:trigger box[k]} :: k in box ==> box[k].game == game && box[k].step == k && box[k].sender == sender.role
  {
    forall k | k in box ensures box[k].game == game && box[k].step == k && box[k].sender == sender.role {
      assert box[k] == MessageOf(game, sender.sealed[k]);
    }
  }

  /** When one side has finished a sub-game, the other will not send another turn in it. */
  lemma FinishedLeavesQuiet(t: Terms, x: Peer, y: Peer)
    requires TurnInv(t, x, y) && 2 <= t.max && Agreed(x) && Finished(x.loop) && 1 <= x.epoch == y.epoch < t.games
    ensures Quiet(y)
  {
    var g := Pair(x, y);
    if y.loop.role.Thief? {
      FinishedPoliceEndsBoth(t.max, x.epoch, g);
      BoxTags(x.epoch, g.police, g.toThief);
    } else {
      FinishedThiefIsHeard(t.max, x.epoch, g);
      BoxTags(x.epoch, g.thief, g.toPolice);
    }
  }

  /** A Quiet peer stays so whatever its offers, audits and reports become. */
  lemma QuietUnchanged(p: Peer, p': Peer)
    requires Quiet(p)
    requires p' == p.(phase := p'.phase, offers := p'.offers, audits := p'.audits, consensus := p'.consensus, reports := p'.reports)
    requires Agreed(p') && (p'.phase.Playing? || p'.phase.Auditing? || p'.phase.Between?)
    ensures Quiet(p')
  {
    hide SealedOk, HeardOk, Covers;
    assert p'.loop == p.loop && p'.turns == p.turns && p'.epoch == p.epoch && Final(p') == Final(p);
    forall k | 1 <= k <= Final(p') ensures k in p'.turns && p'.turns[k].game == p'.epoch && p'.turns[k].step == k {
      QuietEntry(p, k);
    }
  }

  lemma QuietEntry(p: Peer, k: int)
    requires Quiet(p) && 1 <= k <= Final(p)
    ensures k in p.turns && p.turns[k].game == p.epoch && p.turns[k].step == k
  {
    assert k in p.turns;
    assert p.turns[k] == p.turns[k];
  }

  /** The link between two peers is one of epochs, loops and turn mailboxes. */
  lemma LinkUnchanged(t: Terms, x: Peer, x': Peer, y: Peer, y': Peer)
    requires Linked(t, x, y)
    requires x' == x.(phase := x'.phase, offers := x'.offers, audits := x'.audits, consensus := x'.consensus, reports := x'.reports)
    requires y' == y.(offers := y'.offers, audits := y'.audits, consensus := y'.consensus)
    requires Quiet(x) && x.epoch < y.epoch ==> Agreed(x') && (x'.phase.Playing? || x'.phase.Auditing? || x'.phase.Between?)
    ensures Linked(t, x', y')
  {
    hide Inv, Fresh;
    assert Pair(x', y') == Pair(x, y);
    if Quiet(y) {
      assert Agreed(y) && (y.phase.Playing? || y.phase.Auditing? || y.phase.Between?);
      QuietUnchanged(y, y');
    }
    if Quiet(x) && x.epoch < y.epoch {
      QuietUnchanged(x, x');
    }
    hide Quiet;
  }

  /** The reset of a peer: a fresh loop, an empty mailbox, no offer sent yet. */
  function AfterReset(t: Terms, p: Peer, githubCommit: Option<string>, nonce: string): Peer {
    var role := RoleFor(p.natural, p.epoch + 1);
    p.(epoch := p.epoch + 1, phase := Negotiating(false), turns := map[],
       loop := Start(t.max, role, Sealed(Declaration(role, githubCommit), nonce)))
  }

  lemma ResetShape(t: Terms, me: Peer, you: Peer, githubCommit: Option<string>, nonce: string)
    requires me.phase.Between? && me.epoch < t.games
    ensures PeerStep(t, me, you, Reset(githubCommit, nonce)) == (AfterReset(t, me, githubCommit, nonce), you, NoFault)
  {
  }

  lemma ResetPeerOk(t: Terms, me: Peer, githubCommit: Option<string>, nonce: string)
    requires me.epoch < t.games
    ensures var me' := AfterReset(t, me, githubCommit, nonce);
            PeerOk(t, me') && Fresh(t.max, me'.loop) && me'.loop.role == RoleFor(me.natural, me.epoch + 1) && !Agreed(me')
  {
    var role := RoleFor(me.natural, me.epoch + 1);
    var opening := Sealed(Declaration(role, githubCommit), nonce);
    assert Start(t.max, role, opening).sealed == [opening];
  }

  lemma ResetOffers(me: Peer, me': Peer, you: Peer)
    requires OffersOk(me, you) && OffersOk(you, me) && me.phase.Between? && (1 <= me.epoch ==> Agreed(me))
    requires me'.epoch == me.epoch + 1 && me'.offers == me.offers && me'.phase == Negotiating(false)
    ensures OffersOk(me', you) && OffersOk(you, me')
  {
  }

  lemma ResetLinks(t: Terms, me: Peer, me': Peer, you: Peer)
    requires TurnInv(t, me, you) && 2 <= t.max && me.phase.Between? && me.epoch < t.games
    requires me' == me.(epoch := me.epoch + 1, phase := Negotiating(false), turns := map[], loop := me'.loop)
    requires Fresh(t.max, me'.loop) && me'.loop.role == RoleFor(me.natural, me.epoch + 1)
    ensures Linked(t, me', you)
  {
    hide Inv;
    assert 1 <= me.epoch ==> me.epoch in me.offers;
    assert me.epoch <= you.epoch;
    if me.epoch == you.epoch {
      if 1 <= me.epoch {
        FinishedLeavesQuiet(t, me, you);
      }
    } else {
      assert you.epoch == me.epoch + 1 && you.loop.role == RoleFor(you.natural, you.epoch);
      RolesStayComplementary(you.natural, you.epoch);
      FreshPairInv(t, me', you);
    }
    hide Quiet, Fresh, PeerOk, OffersOk;
  }

  lemma ResetKeeps(t: Terms, me: Peer, you: Peer, githubCommit: Option<string>, nonce: string)
    requires TurnInv(t, me, you) && 2 <= t.max
    requires me.phase.Between? && me.epoch < t.games
    ensures TurnInv(t, PeerStep(t, me, you, Reset(githubCommit, nonce)).0, you)
  {
    var me' := AfterReset(t, me, githubCommit, nonce);
    ResetShape(t, me, you, githubCommit, nonce);
    ResetPeerOk(t, me, githubCommit, nonce);
    hide PeerStep, Linked, OffersOk, PeerOk, Fresh;
    assert me' == me.(epoch := me.epoch + 1, phase := Negotiating(false), turns := map[], loop := me'.loop);
    hide AfterReset;
    ResetOffers(me, me', you);
    ResetLinks(t, me, me', you);
    hide TurnInv;
    assert TurnInv(t, me', you) by { JoinTurnInv(t, me, me', you, you); }
  }

  /** The conjuncts of the invariant, put together. */
  lemma JoinTurnInv(t: Terms, x: Peer, x': Peer, y: Peer, y': Peer)
    requires TurnInv(t, x, y) && x'.natural == x.natural && y'.natural == y.natural
    requires PeerOk(t, x') && PeerOk(t, y') && OffersOk(x', y') && OffersOk(y', x') && Linked(t, x', y')
    ensures TurnInv(t, x', y')
  {
    hide PeerOk, OffersOk, Linked;
  }

  lemma OfferPeersOk(t: Terms, p: Peer, p': Peer)
    requires PeerOk(t, p) && (p.phase.Negotiating? || p'.phase == p.phase)
    requires p' == p.(phase := p'.phase, offers := p'.offers) && (p.phase.Negotiating? ==> p'.phase.Negotiating?)
    ensures PeerOk(t, p')
  {
    hide Fresh;
  }

  /** The offer stored is the one for the sub-game its sender has started. */
  lemma OfferStored(me: Peer, me': Peer, you: Peer, you': Peer)
    requires OffersOk(you, me) && me.phase.Negotiating? && 1 <= me.epoch
    requires me' == me.(phase := me'.phase) && me'.phase.Negotiating?
    requires you' == you.(offers := you.offers + {me.epoch})
    ensures OffersOk(you', me')
  {
  }

  lemma OfferSeen(me: Peer, me': Peer, you: Peer, you': Peer)
    requires OffersOk(me, you) && me.phase.Negotiating?
    requires me' == me.(phase := me'.phase) && me'.phase.Negotiating? && you' == you.(offers := you'.offers)
    ensures OffersOk(me', you')
  {
    OffersUnchanged(me, me', you, you');
  }

  lemma NegotiatingIsNotQuiet(p: Peer)
    requires p.phase.Negotiating?
    ensures !Quiet(p)
  {
    hide SealedOk, HeardOk, Covers;
  }

  lemma OfferKeeps(t: Terms, me: Peer, you: Peer, acked: bool)
    requires TurnInv(t, me, you) && me.phase.Negotiating?
    ensures var r := PeerStep(t, me, you, SendOffer(acked)); TurnInv(t, r.0, r.1)
  {
    var me' := me.(phase := Negotiating(me.phase.sent || acked));
    var you' := you.(offers := you.offers + {me.epoch});
    assert PeerStep(t, me, you, SendOffer(acked)) == (me', you', NoFault);
    hide PeerStep, Linked, OffersOk, Fresh, Quiet;
    assert 1 <= me.epoch;
    OfferPeersOk(t, me, me');
    OfferPeersOk(t, you, you');
    hide PeerOk;
    OfferSeen(me, me', you, you');
    OfferStored(me, me', you, you');
    NegotiatingIsNotQuiet(me);
    LinkUnchanged(t, me, me', you, you');
    JoinTurnInv(t, me, me', you, you');
    hide TurnInv;
  }

  /** Taking up the offer starts the loop, or passes one that has nothing to do. */
  lemma TakeOfferPeerOk(t: Terms, me: Peer)
    requires PeerOk(t, me) && 2 <= t.max && me.phase.Negotiating? && 1 <= me.epoch
    ensures PeerOk(t, AfterTurn(me, me.loop)) && AfterTurn(me, me.loop).phase.Playing?
  {
  }

  lemma TakeOfferKeeps(t: Terms, me: Peer, you: Peer)
    requires TurnInv(t, me, you) && 2 <= t.max
    requires me.phase == Negotiating(true) && me.epoch in me.offers
    ensures TurnInv(t, PeerStep(t, me, you, TakeOffer).0, you)
  {
    var me' := AfterTurn(me, me.loop);
    assert PeerStep(t, me, you, TakeOffer).0 == me';
    hide PeerStep, Linked, Fresh, Quiet;
    assert 1 <= me.epoch;
    TakeOfferPeerOk(t, me);
    hide PeerOk;
    assert me' == me.(phase := Playing);
    hide AfterTurn;
    NegotiatingIsNotQuiet(me);
    LinkUnchanged(t, me, me', you, you);
    assert OffersOk(me', you) && OffersOk(you, me');
    hide OffersOk;
    JoinTurnInv(t, me, me', you, you);
    hide TurnInv;
  }

  /** A turn taken by one of two peers in the same sub-game is a step of that sub-game. */
  lemma TurnIsSubStep(t: Terms, me: Peer, you: Peer, choice: Choice)
    requires 1 <= me.epoch == you.epoch && Inv(t.max, me.epoch, Pair(me, you)) && me.phase.Playing?
    requires me.loop.role == Opposite(you.loop.role)
    ensures var r := PeerStep(t, me, you, TakeTurn(choice)); Inv(t.max, me.epoch, Pair(r.0, r.1))
  {
    hide Inv;
    var r := PeerStep(t, me, you, TakeTurn(choice));
    var g := Pair(me, you);
    LoopKeepsRole(t.max, me.epoch, me.loop, me.turns, choice);
    hide LoopStep;
    if me.loop.role.Thief? {
      ThiefStepKeepsInv(t.max, me.epoch, g, choice);
      assert Pair(r.0, r.1) == SubStep(t.max, me.epoch, g, TurnLoop.Event(Thief, choice));
    } else {
      PoliceStepKeepsInv(t.max, me.epoch, g, choice);
      assert Pair(r.0, r.1) == SubStep(t.max, me.epoch, g, TurnLoop.Event(Police, choice));
    }
  }

  lemma LoopKeepsRole(max: nat, game: nat, l: Loop, inbox: Mailbox, c: Choice)
    ensures LoopStep(max, game, l, inbox, c).0.role == l.role
  {
    hide TurnPayload, MessageOf, PcAfterPost;
  }

  /** A played turn that is no fault leaves the loop running or finished. */
  lemma AfterTurnOk(t: Terms, me: Peer, loop: Loop)
    requires PeerOk(t, me) && me.phase.Playing? && loop.role == me.loop.role
    requires loop.pc != Done(Timeout) && !loop.pc.Aborted?
    ensures PeerOk(t, AfterTurn(me, loop)) && (1 <= me.epoch ==> Agreed(AfterTurn(me, loop)))
  {
    hide Fresh;
  }

  lemma OffersUnchanged(x: Peer, x': Peer, y: Peer, y': Peer)
    requires OffersOk(x, y) && x'.offers == x.offers && x'.epoch == x.epoch && y'.epoch == y.epoch
    requires (Agreed(x') ==> Agreed(x)) && (Agreed(y') ==> Agreed(y))
    requires y'.phase == Negotiating(true) ==> y.phase == Negotiating(true)
    ensures OffersOk(x', y')
  {
    hide Agreed;
  }

  /** What a turn that is no fault does to the two peers. */
  lemma TurnShape(t: Terms, me: Peer, you: Peer, choice: Choice) returns (loop: Loop, you': Peer)
    requires me.phase.Playing? && PeerStep(t, me, you, TakeTurn(choice)).2.NoFault?
    ensures PeerStep(t, me, you, TakeTurn(choice)) == (AfterTurn(me, loop), you', NoFault)
    ensures loop.role == me.loop.role && loop.pc != Done(Timeout) && !loop.pc.Aborted?
    ensures you' == you.(turns := you'.turns)
  {
    var step := LoopStep(t.max, me.epoch, me.loop, me.turns, choice);
    LoopKeepsRole(t.max, me.epoch, me.loop, me.turns, choice);
    hide LoopStep, Deliver, AfterTurn;
    loop, you' := step.0, you.(turns := Deliver(you.turns, step.1));
  }

  lemma TogetherStaysLinked(t: Terms, x: Peer, x': Peer, y: Peer, y': Peer)
    requires x'.epoch == x.epoch == y.epoch == y'.epoch && (1 <= x.epoch ==> Inv(t.max, x.epoch, Pair(x', y')))
    ensures Linked(t, x', y')
  {
    hide Inv, Quiet, Fresh;
  }

  lemma OnlyTurnsChange(t: Terms, p: Peer, p': Peer)
    requires PeerOk(t, p) && 1 <= p.epoch && p' == p.(turns := p'.turns)
    ensures PeerOk(t, p')
  {
    hide Fresh;
  }

  lemma TurnKeepsTogether(t: Terms, me: Peer, you: Peer, choice: Choice)
    requires TurnInv(t, me, you) && 2 <= t.max && me.phase.Playing? && me.epoch == you.epoch
    requires PeerStep(t, me, you, TakeTurn(choice)).2.NoFault?
    ensures var r := PeerStep(t, me, you, TakeTurn(choice)); TurnInv(t, r.0, r.1)
  {
    hide PeerStep, Quiet, Fresh, Inv;
    assert 1 <= me.epoch && me.loop.role == Opposite(you.loop.role) by { RolesStayComplementary(you.natural, you.epoch); }
    assert Inv(t.max, me.epoch, Pair(me, you));
    hide Linked, OffersOk, PeerOk, Pair;
    TurnIsSubStep(t, me, you, choice);
    var loop, you' := TurnShape(t, me, you, choice);
    var me' := AfterTurn(me, loop);
    TogetherStaysLinked(t, me, me', you, you');
    AfterTurnOk(t, me, loop);
    OnlyTurnsChange(t, you, you');
    assert Agreed(me);
    OffersUnchanged(me, me', you, you');
    OffersUnchanged(you, you', me, me');
  }

  /** A Quiet peer can only read what is already in its mailbox. */
  lemma QuietTurn(max: nat, me: Peer, choice: Choice)
    requires Quiet(me) && me.phase.Playing? && !me.loop.pc.Done?
    ensures var (loop, m) := LoopStep(max, me.epoch, me.loop, me.turns, choice);
            && m.None?
            && (loop == me.loop || loop.pc == Done(Timeout)
                || (choice.Take? && me.loop.pc.step in me.turns
                    && loop == Taken(max, me.loop, me.turns[me.loop.pc.step], choice.caught, choice.position)))
  {
    hide SealedOk, HeardOk, Covers;
  }

  lemma QuietRead(max: nat, me: Peer, caught: bool, position: Cell)
    requires Quiet(me) && me.phase.Playing? && !me.loop.pc.Done? && me.loop.pc.step in me.turns
    ensures var loop := Taken(max, me.loop, me.turns[me.loop.pc.step], caught, position);
            && Finished(loop) && loop.role == me.loop.role && Quiet(AfterTurn(me, loop))
  {
    var k := me.loop.pc.step;
    assert k == Final(me) == me.loop.heard + 1 && 2 <= k;
    var m := me.turns[k];
    var loop := Taken(max, me.loop, m, caught, position);
    assert m.step == k && (m.SaysCaught() || m.win);
    assert me.loop.role.Police? && Finished(loop) && loop.heard == k;
    TakeKeepsHeard(max, me.loop, me.turns, caught, position);
    SealedUnchanged(me.loop, loop);
    hide SealedOk, HeardOk, Covers, Taken;
  }

  lemma TurnKeepsApart(t: Terms, me: Peer, you: Peer, choice: Choice)
    requires TurnInv(t, me, you) && 2 <= t.max && me.phase.Playing? && me.epoch != you.epoch
    requires PeerStep(t, me, you, TakeTurn(choice)).2.NoFault?
    ensures var r := PeerStep(t, me, you, TakeTurn(choice)); TurnInv(t, r.0, r.1)
  {
    var r := PeerStep(t, me, you, TakeTurn(choice));
    var loop := LoopStep(t.max, me.epoch, me.loop, me.turns, choice).0;
    assert you.epoch == me.epoch + 1 && Quiet(me);
    QuietTurn(t.max, me, choice);
    if loop == me.loop {
      assert r.0 == me && r.1 == you;
    } else {
      QuietRead(t.max, me, choice.caught, choice.position);
      assert r.1 == you && r.0 == AfterTurn(me, loop);
      hide LoopStep, PeerStep, Quiet, Fresh, Taken, Inv;
      assert PeerOk(t, r.0);
    }
  }

  /** Audits, consensus and reports are no part of the invariant, nor is the exact phase
      once a loop has finished. */
  lemma RestIsIrrelevant(t: Terms, x: Peer, x': Peer, y: Peer, y': Peer)
    requires TurnInv(t, x, y)
    requires x' == x.(phase := x'.phase, audits := x'.audits, consensus := x'.consensus, reports := x'.reports)
    requires y' == y.(audits := y'.audits, consensus := y'.consensus)
    requires PeerOk(t, x')
    requires x'.phase == x.phase || (Agreed(x) && Agreed(x') && !x'.phase.Playing?) || (x.phase.Negotiating? && x'.phase.Crashed?)
             || (x.epoch == 0 && !x'.phase.Negotiating?)
    ensures TurnInv(t, x', y')
  {
    if Quiet(x) && x.epoch < y.epoch {
      assert Agreed(x) && (x.phase.Playing? || x.phase.Auditing? || x.phase.Between?) && x.epoch < t.games;
    }
    LinkUnchanged(t, x, x', y, y');
    hide Linked, Quiet, Fresh;
    assert PeerOk(t, y');
    assert Agreed(x') ==> Agreed(x) || x.epoch == 0;
    hide PeerOk;
    if x.epoch == 0 {
      assert !Agreed(x');
    }
    OffersUnchanged(x, x', y, y');
    OffersUnchanged(y, y', x, x');
    hide OffersOk, Agreed;
  }

  /** The steps after play touch only phase, audits, consensus and reports, and stay in step
      with the loop. */
  lemma LaterShape(t: Terms, me: Peer, you: Peer, act: Act)
    requires PeerOk(t, me) && !act.Reset? && !act.SendOffer? && !act.TakeOffer? && !act.TakeTurn?
    ensures var (x', y', _) := PeerStep(t, me, you, act);
            && x' == me.(phase := x'.phase, audits := x'.audits, consensus := x'.consensus, reports := x'.reports)
            && y' == you.(audits := y'.audits, consensus := y'.consensus)
            && (|| x'.phase == me.phase
                || (me.phase.Negotiating? && x'.phase.Crashed?)
                || (me.phase.Auditing? && (x'.phase.Auditing? || x'.phase.Between?))
                || (me.phase.Between? && x'.phase.Settling? && me.epoch == t.games)
                || (me.phase.Settling? && (x'.phase.Settling? || x'.phase.Settled?)))
  {
    hide Fresh, ReportOn, EnvelopeOf, ConsensusOf, ConfirmAgreement, PeerOk;
  }

  lemma LaterPeerOk(t: Terms, p: Peer, p': Peer)
    requires PeerOk(t, p)
    requires p' == p.(phase := p'.phase, audits := p'.audits, consensus := p'.consensus, reports := p'.reports)
    requires || p'.phase == p.phase
             || (p.phase.Negotiating? && p'.phase.Crashed?)
             || (p.phase.Auditing? && (p'.phase.Auditing? || p'.phase.Between?))
             || (p.phase.Between? && p'.phase.Settling? && p.epoch == t.games)
             || (p.phase.Settling? && (p'.phase.Settling? || p'.phase.Settled?))
    ensures PeerOk(t, p')
  {
    hide Fresh;
  }

  lemma LaterKeeps(t: Terms, me: Peer, you: Peer, act: Act)
    requires TurnInv(t, me, you) && 2 <= t.max
    requires !act.Reset? && !act.SendOffer? && !act.TakeOffer? && !act.TakeTurn?
    ensures var r := PeerStep(t, me, you, act); TurnInv(t, r.0, r.1)
  {
    var r := PeerStep(t, me, you, act);
    LaterShape(t, me, you, act);
    hide PeerStep, Linked, OffersOk, Quiet;
    LaterPeerOk(t, me, r.0);
    hide PeerOk, Fresh;
    RestIsIrrelevant(t, me, r.0, you, r.1);
  }

  lemma StepKeepsTurnInv(t: Terms, me: Peer, you: Peer, act: Act)
    requires TurnInv(t, me, you) && 2 <= t.max
    requires !PeerStep(t, me, you, act).2.TurnFault?
    ensures var r := PeerStep(t, me, you, act); TurnInv(t, r.0, r.1)
  {
    match act
    case Reset(githubCommit, nonce) =>
      if me.phase.Between? && me.epoch < t.games { ResetKeeps(t, me, you, githubCommit, nonce); }
    case SendOffer(acked) =>
      if me.phase.Negotiating? { OfferKeeps(t, me, you, acked); }
    case TakeOffer =>
      if me.phase == Negotiating(true) && me.epoch in me.offers { TakeOfferKeeps(t, me, you); }
    case TakeTurn(choice) =>
      if me.phase.Playing? {
        if me.epoch == you.epoch { TurnKeepsTogether(t, me, you, choice); } else { TurnKeepsApart(t, me, you, choice); }
      }
    case _ =>
      LaterKeeps(t, me, you, act);
  }

  lemma {:induction false} RunKeepsTurnInv(t: Terms, ours: string, theirs: string, natural: Role, events: seq<PeerEvent>)
    requires 2 <= t.max
    ensures var w := RunSeries(t, Opening(ours, theirs, natural), events); !w.turnFault ==> TurnInv(t, w.a, w.b)
  {
    if events != [] {
      RunKeepsTurnInv(t, ours, theirs, natural, events[..|events| - 1]);
      var w, e := RunSeries(t, Opening(ours, theirs, natural), events[..|events| - 1]), events[|events| - 1];
      if !WorldStep(t, w, e).turnFault {
        if e.first {
          StepKeepsTurnInv(t, w.a, w.b, e.act);
        } else {
          TurnInvSymmetric(t, w.a, w.b);
          StepKeepsTurnInv(t, w.b, w.a, e.act);
          var r := PeerStep(t, w.b, w.a, e.act);
          TurnInvSymmetric(t, r.0, r.1);
        }
      }
    }
  }
}
