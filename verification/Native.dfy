/** The native match: the turn state machine, the round mailbox, one round, the match loop,
    and the two peers side by side. */
module Native {
  import opened Options

  // ---------- the turn state machine ----------

  datatype Phase = WaitingForOpponent | ComputingMove | Committing | AwaitingReveal | Verifying | TechnicalLoss

  function Edges(p: Phase): set<Phase> {
    match p
    case WaitingForOpponent => {ComputingMove}
    case ComputingMove => {Committing, TechnicalLoss}
    case Committing => {AwaitingReveal}
    case AwaitingReveal => {Verifying, TechnicalLoss}
    case Verifying => {WaitingForOpponent}
    case TechnicalLoss => {}
  }

  predicate LegalPath(path: seq<Phase>) {
    forall i :: 0 < i < |path| ==> path[i] in Edges(path[i - 1])
  }

  class TurnFsm {
    var state: Phase
    /** Every state so far, the current one last. */
    ghost var path: seq<Phase>

    ghost predicate Valid()
      reads this
    {
      path != [] && path[|path| - 1] == state && LegalPath(path)
    }

    constructor ()
      ensures Valid() && state == WaitingForOpponent && path == [WaitingForOpponent]
    {
      state, path := WaitingForOpponent, [WaitingForOpponent];
    }

    /** An illegal transition is refused and leaves the machine as it was. */
    method Transition(target: Phase) returns (legal: bool)
      requires Valid()
      modifies this
      ensures Valid() && (legal <==> target in Edges(old(state)))
      ensures state == (if legal then target else old(state))
      ensures path == (if legal then old(path) + [target] else old(path))
    {
      legal := target in Edges(state);
      if legal {
        state, path := target, path + [target];
      }
    }
  }

  // ---------- the round mailbox ----------

  datatype Wait<M> = Got(message: M) | Interrupted | Expired

  /** What a waiting loop sees each time it looks. */
  datatype Look<M> = Look(interrupted: bool, store: map<int, M>)

  predicate Quiet<M>(look: Look<M>, step: int) {
    !look.interrupted && step !in look.store
  }

  /** The i-th look is the first that is not quiet, and `w` is what it shows. */
  predicate SettledBy<M(==)>(looks: seq<Look<M>>, step: int, i: nat, w: Wait<M>)
    requires i < |looks|
  {
    && (forall j :: 0 <= j < i ==> Quiet(looks[j], step))
    && !Quiet(looks[i], step)
    && w == (if looks[i].interrupted then Interrupted else Got(looks[i].store[step]))
  }

  /** The bounded wait over the looks that fall before its deadline: the first one that sees an
      interrupt or the message decides, and an interrupt outranks a message. */
  method WaitFor<M(==)>(looks: seq<Look<M>>, step: int) returns (w: Wait<M>)
    ensures w.Expired? <==> forall i :: 0 <= i < |looks| ==> Quiet(looks[i], step)
    ensures !w.Expired? ==> exists i :: 0 <= i < |looks| && SettledBy(looks, step, i, w)
  {
    for i := 0 to |looks|
      invariant forall j :: 0 <= j < i ==> Quiet(looks[j], step)
    {
      if looks[i].interrupted {
        w := Interrupted;
        assert SettledBy(looks, step, i, w);
        return;
      }
      if step in looks[i].store {
        w := Got(looks[i].store[step]);
        assert SettledBy(looks, step, i, w);
        return;
      }
    }
    w := Expired;
  }

  class RoundExchange<M> {
    var commits: map<int, string>
    var shown: map<int, M>

    constructor ()
      ensures commits == map[] && shown == map[]
    {
      commits, shown := map[], map[];
    }

    method RecordCommit(step: int, h: string)
      modifies this
      ensures commits == old(commits)[step := h] && shown == old(shown)
    {
      commits := commits[step := h];
    }

    method RecordReveal(step: int, m: M)
      modifies this
      ensures shown == old(shown)[step := m] && commits == old(commits)
    {
      shown := shown[step := m];
    }
  }

  // ---------- one round ----------

  /** What the outside does to one round: the decision (`None` when the strategy misses its
      deadline or fails), the two sends, the wait for the peer's reveal. */
  datatype RoundInput<R, S> = RoundInput(decided: Option<R>, commit: Sending, disclosure: Sending, wait: Wait<S>)

  /** `Escaped` is the exception that leaves a round with no record to return. */
  datatype RoundOutcome<R, S> = Played(record: R, scent: S, loss: bool) | Escaped

  function OutcomeOf<R, S>(input: RoundInput<R, S>, lastScent: S): RoundOutcome<R, S> {
    if input.decided.None? then Escaped
    else if !input.commit.Acked? || !input.disclosure.Acked? || input.wait.Expired? then
      Played(input.decided.value, lastScent, true)
    else Played(input.decided.value, if input.wait.Got? then input.wait.message else lastScent, false)
  }

  /** One round. Entered in WAITING_FOR_OPPONENT it never asks for an illegal transition, and
      the state it leaves behind tells exactly how it ended. */
  method PlayRound<R, S>(fsm: TurnFsm, input: RoundInput<R, S>, lastScent: S) returns (out: RoundOutcome<R, S>)
    requires fsm.Valid()
    modifies fsm
    ensures fsm.Valid() && old(fsm.path) <= fsm.path
    ensures old(fsm.state) == WaitingForOpponent ==>
              && out == OutcomeOf(input, lastScent)
              && (fsm.state == WaitingForOpponent <==> out.Played? && !out.loss)
              && (fsm.state == TechnicalLoss <==> out.Played? && out.loss)
              && (fsm.state == ComputingMove <==> out.Escaped?)
    ensures old(fsm.state) != WaitingForOpponent ==> out == Escaped && fsm.path == old(fsm.path)
  {
    var legal := fsm.Transition(ComputingMove);
    if !legal || input.decided.None? {
      return Escaped;
    }
    var record := input.decided.value;
    legal := fsm.Transition(Committing);
    if !input.commit.Acked? || !input.disclosure.Acked? {
      legal := fsm.Transition(AwaitingReveal);
      legal := fsm.Transition(TechnicalLoss);
      return Played(record, lastScent, true);
    }
    legal := fsm.Transition(AwaitingReveal);
    if input.wait.Expired? {
      legal := fsm.Transition(TechnicalLoss);
      return Played(record, lastScent, true);
    }
    legal := fsm.Transition(Verifying);
    var nextScent := if input.wait.Got? then input.wait.message else lastScent;
    legal := fsm.Transition(WaitingForOpponent);
    out := Played(record, nextScent, false);
  }

  // ---------- one peer of a match ----------

  datatype End = MaxMovesReached | Survived | Captured | Loss

  datatype Pc = Between | Moving | CommitDue | RevealDue | Awaiting | Judging | Ended(end: End)

  /** A peer: its loop, its mailbox, and the flags its server thread sets. `sealed` and
      `spoken` are the commits and reveals it has tried to send, by round. */
  datatype Peer = Peer(pc: Pc, step: nat, commits: map<int, string>, shown: map<int, string>,
                       landing: bool, barrier: bool, woken: bool,
                       sealed: map<int, string>, spoken: map<int, string>)

  const READY := Peer(Between, 0, map[], map[], false, false, false, map[], map[])

  datatype Delivery = CommitIn(step: int, h: string) | RevealIn(step: int, body: string)

  datatype Action =
    | Begin
    | Decide(ok: bool)
    | SendCommit(h: string, how: Sending)
    | SendReveal(body: string, how: Sending)
    | Poll
    | Expire
    | Judge(survived: bool, stuck: bool)
    | Seize(byLanding: bool)
    | Wake
    | Arrive(delivery: Delivery)

  predicate Seized(p: Peer) {
    p.landing || p.barrier
  }

  function Receive(p: Peer, d: Delivery): Peer {
    match d
    case CommitIn(step, h) => p.(commits := p.commits[step := h])
    case RevealIn(step, body) => p.(shown := p.shown[step := body])
  }

  /** Where deciding, polling, expiring and judging lead; they touch nothing else. */
  function NextPc(p: Peer, a: Action): Pc {
    match (p.pc, a)
    case (Moving, Decide(ok)) => if ok then CommitDue else Ended(Loss)
    case (Awaiting, Poll) => if p.woken || p.step in p.shown then Judging else p.pc
    case (Awaiting, Expire) => Ended(Loss)
    case (Judging, Judge(survived, stuck)) =>
      if survived then Ended(Survived) else if stuck || Seized(p) then Ended(Captured) else Between
    case _ => p.pc
  }

  /** One atomic step of the loop or of the server thread, and what it delivers to the other
      peer. The flag of a confirmed capture is set before the wakeup. */
  function PeerStep(max: nat, p: Peer, a: Action): (Peer, Option<Delivery>) {
    match a
    case Begin =>
      if p.pc != Between then (p, None)
      else if max <= p.step then (p.(pc := Ended(MaxMovesReached)), None)
      else if p.landing then (p.(pc := Ended(Captured)), None)
      else (p.(pc := Moving, step := p.step + 1), None)
    case SendCommit(h, how) =>
      if p.pc != CommitDue then (p, None)
      else (p.(pc := if how.Acked? then RevealDue else Ended(Loss), sealed := p.sealed[p.step := h]),
            if how.Lost? then None else Some(CommitIn(p.step, h)))
    case SendReveal(body, how) =>
      if p.pc != RevealDue then (p, None)
      else (p.(pc := if how.Acked? then Awaiting else Ended(Loss), spoken := p.spoken[p.step := body]),
            if how.Lost? then None else Some(RevealIn(p.step, body)))
    case Seize(byLanding) =>
      (if byLanding then p.(landing := true) else p.(barrier := true), None)
    case Wake =>
      (if Seized(p) then p.(woken := true) else p, None)
    case Arrive(delivery) => (Receive(p, delivery), None)
    case _ => (p.(pc := NextPc(p, a)), None)
  }

  // ---------- the match loop follows the steps ----------

  function RunPeer(max: nat, p: Peer, trace: seq<Action>): Peer {
    if trace == [] then p
    else PeerStep(max, RunPeer(max, p, trace[..|trace| - 1]), trace[|trace| - 1]).0
  }

  lemma Take(max: nat, start: Peer, trace: seq<Action>, p: Peer, a: Action) returns (trace': seq<Action>, p': Peer)
    requires p == RunPeer(max, start, trace)
    ensures p' == PeerStep(max, p, a).0 && p' == RunPeer(max, start, trace')
  {
    trace', p' := trace + [a], PeerStep(max, p, a).0;
    assert trace'[..|trace|] == trace;
  }

  /** One turn of the match loop seen from outside: a capture confirmed before the round, the
      round itself, the captures confirmed during it, and the position after it. */
  datatype Turn = Turn(landedBefore: bool, input: RoundInput<string, string>, commit: string, body: string,
                       landed: bool, barred: bool, survived: bool, stuck: bool)

  /** The wakeup is only ever set after a capture flag. */
  predicate WakesOnlyIfSeized(t: Turn) {
    t.input.wait.Interrupted? ==> t.landed || t.barred
  }

  lemma SendBoth(max: nat, start: Peer, trace: seq<Action>, p: Peer, t: Turn) returns (trace': seq<Action>, p': Peer)
    requires p == RunPeer(max, start, trace) && p.pc == Moving && t.input.decided.Some?
    ensures p' == RunPeer(max, start, trace')
    ensures p'.pc == (if t.input.commit.Acked? && t.input.disclosure.Acked? then Awaiting else Ended(Loss))
    ensures p'.(pc := Moving, sealed := p.sealed, spoken := p.spoken) == p
  {
    trace', p' := Take(max, start, trace, p, Decide(true));
    trace', p' := Take(max, start, trace', p', SendCommit(t.commit, t.input.commit));
    if t.input.commit.Acked? {
      trace', p' := Take(max, start, trace', p', SendReveal(t.body, t.input.disclosure));
    }
  }

  lemma SeizeAll(max: nat, start: Peer, trace: seq<Action>, p: Peer, landed: bool, barred: bool)
    returns (trace': seq<Action>, p': Peer)
    requires p == RunPeer(max, start, trace)
    ensures p' == RunPeer(max, start, trace')
    ensures p' == p.(landing := p.landing || landed, barrier := p.barrier || barred)
  {
    trace', p' := trace, p;
    if landed {
      trace', p' := Take(max, start, trace', p', Seize(true));
    }
    if barred {
      trace', p' := Take(max, start, trace', p', Seize(false));
    }
  }

  lemma Hear(max: nat, start: Peer, trace: seq<Action>, p: Peer, t: Turn) returns (trace': seq<Action>, p': Peer)
    requires p == RunPeer(max, start, trace) && p.pc == Awaiting && !t.input.wait.Expired?
    requires t.input.wait.Interrupted? ==> Seized(p)
    ensures p' == RunPeer(max, start, trace') && p'.pc == Awaiting && (p'.woken || p'.step in p'.shown)
    ensures p'.step == p.step && p'.landing == p.landing && p'.barrier == p.barrier && (p'.woken ==> p.woken || Seized(p))
  {
    if t.input.wait.Got? {
      trace', p' := Take(max, start, trace, p, Arrive(RevealIn(p.step, t.input.wait.message)));
    } else {
      trace', p' := Take(max, start, trace, p, Wake);
    }
  }

  lemma PollAndJudge(max: nat, start: Peer, trace: seq<Action>, p: Peer, t: Turn) returns (trace': seq<Action>, p': Peer)
    requires p == RunPeer(max, start, trace) && p.pc == Awaiting && (p.woken || p.step in p.shown)
    ensures p' == RunPeer(max, start, trace')
    ensures p' == p.(pc := if t.survived then Ended(Survived) else if t.stuck || Seized(p) then Ended(Captured) else Between)
  {
    trace', p' := Take(max, start, trace, p, Poll);
    assert p' == p.(pc := Judging);
    trace', p' := Take(max, start, trace', p', Judge(t.survived, t.stuck));
  }

  lemma HearAndJudge(max: nat, start: Peer, trace: seq<Action>, p: Peer, t: Turn) returns (trace': seq<Action>, p': Peer)
    requires p == RunPeer(max, start, trace) && p.pc == Awaiting && !t.input.wait.Expired?
    requires WakesOnlyIfSeized(t) && (t.input.wait.Interrupted? ==> Seized(p))
    ensures p' == RunPeer(max, start, trace')
    ensures p'.pc == if t.survived then Ended(Survived) else if t.stuck || Seized(p) then Ended(Captured) else Between
    ensures p'.step == p.step && p'.landing == p.landing && p'.barrier == p.barrier && (p'.woken ==> p.woken || Seized(p))
  {
    hide RunPeer, PeerStep;
    trace', p' := Hear(max, start, trace, p, t);
    trace', p' := PollAndJudge(max, start, trace', p', t);
  }

  /** Why a turn ends the match, if it does. */
  function TurnEnd(t: Turn): Option<End> {
    if t.landedBefore then Some(Captured)
    else if t.input.decided.None? || !t.input.commit.Acked? || !t.input.disclosure.Acked? || t.input.wait.Expired? then
      Some(Loss)
    else if t.survived then Some(Survived)
    else if t.stuck || t.landed || t.barred then Some(Captured)
    else None
  }

  lemma TakeBegin(max: nat, start: Peer, trace: seq<Action>, p: Peer) returns (trace': seq<Action>, p': Peer)
    requires p == RunPeer(max, start, trace) && p.pc == Between && p.step < max
    ensures p' == RunPeer(max, start, trace')
    ensures p' == if p.landing then p.(pc := Ended(Captured)) else p.(pc := Moving, step := p.step + 1)
  {
    trace', p' := Take(max, start, trace, p, Begin);
  }

  lemma GiveUp(max: nat, start: Peer, trace: seq<Action>, p: Peer, a: Action) returns (trace': seq<Action>, p': Peer)
    requires p == RunPeer(max, start, trace)
    requires (p.pc == Moving && a == Decide(false)) || (p.pc == Awaiting && a == Expire)
    ensures p' == RunPeer(max, start, trace') && p' == p.(pc := Ended(Loss))
  {
    trace', p' := Take(max, start, trace, p, a);
  }

  /** One turn of the loop as a run of steps. */
  lemma TurnFollows(max: nat, start: Peer, trace: seq<Action>, p: Peer, t: Turn) returns (trace': seq<Action>, p': Peer)
    requires p == RunPeer(max, start, trace) && p.pc == Between && p.step < max && !Seized(p)
    requires WakesOnlyIfSeized(t)
    ensures p' == RunPeer(max, start, trace')
    ensures p'.pc == if TurnEnd(t).Some? then Ended(TurnEnd(t).value) else Between
    ensures p'.step == p.step + (if t.landedBefore then 0 else 1)
    ensures TurnEnd(t).None? ==> !Seized(p')
  {
    hide RunPeer, PeerStep;
    trace', p' := SeizeAll(max, start, trace, p, t.landedBefore, false);
    trace', p' := TakeBegin(max, start, trace', p');
    if !t.landedBefore {
      trace', p' := SeizeAll(max, start, trace', p', t.landed, t.barred);
      if t.input.decided.None? {
        trace', p' := GiveUp(max, start, trace', p', Decide(false));
      } else {
        trace', p' := SendBoth(max, start, trace', p', t);
        if p'.pc == Awaiting {
          if t.input.wait.Expired? {
            trace', p' := GiveUp(max, start, trace', p', Expire);
          } else {
            trace', p' := HearAndJudge(max, start, trace', p', t);
          }
        }
      }
    }
  }

  /** How a match goes on after `played` full rounds that left `records`: its end, the rounds
      started and all records kept. A turn that does not end the match is followed by the next. */
  function MatchFrom(max: nat, turns: nat -> Turn, played: nat, records: seq<string>): (End, nat, seq<string>)
    requires played <= max
    decreases max - played
  {
    if played == max then (MaxMovesReached, max, records)
    else
      var t := turns(played);
      if t.landedBefore then (Captured, played, records)
      else if t.input.decided.None? then (Loss, played + 1, records)
      else if TurnEnd(t).Some? then (TurnEnd(t).value, played + 1, records + [t.input.decided.value])
      else MatchFrom(max, turns, played + 1, records + [t.input.decided.value])
  }

  lemma MatchGoesOn(max: nat, turns: nat -> Turn, played: nat, records: seq<string>)
    requires played < max
    ensures var t := turns(played);
            MatchFrom(max, turns, played, records) ==
              if t.landedBefore then (Captured, played, records)
              else if TurnEnd(t).Some? then (TurnEnd(t).value, played + 1, records + RecordOf(t))
              else MatchFrom(max, turns, played + 1, records + RecordOf(t))
  {
    if turns(played).input.decided.None? {
      assert records + [] == records;
    }
  }

  /** The record a started round leaves, if it gets as far as a decision. */
  function RecordOf(t: Turn): seq<string> {
    if t.input.decided.Some? then [t.input.decided.value] else []
  }

  /** One started round and the checks after it. */
  method PlayTurn(fsm: TurnFsm, t: Turn, lastScent: string, records: seq<string>)
    returns (end: Option<End>, records': seq<string>, scent: string)
    requires fsm.Valid() && fsm.state == WaitingForOpponent && !t.landedBefore
    modifies fsm
    ensures fsm.Valid() && end == TurnEnd(t) && records' == records + RecordOf(t)
    ensures fsm.state == ComputingMove <==> t.input.decided.None?
    ensures fsm.state == TechnicalLoss || fsm.state == ComputingMove <==> end == Some(Loss)
    ensures end.None? ==> fsm.state == WaitingForOpponent
  {
    hide LegalPath, Edges;
    var out := PlayRound(fsm, t.input, lastScent);
    if out.Escaped? {
      return Some(Loss), records, lastScent;
    }
    records', scent := records + [out.record], out.scent;
    if out.loss {
      end := Some(Loss);
    } else if t.survived {
      end := Some(Survived);
    } else if t.stuck || t.barred || t.landed {
      end := Some(Captured);
    } else {
      end := None;
    }
  }

  lemma TurnEndWhenLanded(t: Turn)
    ensures t.landedBefore ==> TurnEnd(t) == Some(Captured)
    ensures t.input.decided.None? ==> TurnEnd(t).Some?
  {
  }

  lemma MatchIsOver(max: nat, turns: nat -> Turn, records: seq<string>)
    ensures MatchFrom(max, turns, max, records) == (MaxMovesReached, max, records)
  {
  }

  /** The match loop: its end, its rounds and its records are those the turns prescribe; it
      takes exactly the steps of a peer; and the state machine tells how it ended. */
  method PlayMatch(fsm: TurnFsm, max: nat, turns: nat -> Turn)
    returns (end: End, records: seq<string>, ghost trace: seq<Action>, ghost p: Peer)
    requires fsm.Valid() && fsm.state == WaitingForOpponent
    requires forall k :: WakesOnlyIfSeized(turns(k))
    modifies fsm
    ensures (end, p.step, records) == MatchFrom(max, turns, 0, [])
    ensures p == RunPeer(max, READY, trace) && p.pc == Ended(end)
    ensures fsm.Valid() && (fsm.state == TechnicalLoss || fsm.state == ComputingMove <==> end == Loss)
    ensures |records| == if fsm.state == ComputingMove then p.step - 1 else p.step
  {
    end, records, trace, p := MaxMovesReached, [], [], READY;
    assert p == RunPeer(max, READY, trace);
    hide RunPeer, PeerStep, Edges, LegalPath, MatchFrom, TurnEnd;
    var step, scent := 0, "";
    while step < max
      invariant fsm.Valid() && fsm.state == WaitingForOpponent && end == MaxMovesReached
      invariant p == RunPeer(max, READY, trace) && p.pc == Between && p.step == step <= max
      invariant !Seized(p) && |records| == step
      invariant MatchFrom(max, turns, step, records) == MatchFrom(max, turns, 0, [])
    {
      var t := turns(step);
      assert WakesOnlyIfSeized(t);
      TurnEndWhenLanded(t);
      trace, p := TurnFollows(max, READY, trace, p, t);
      MatchGoesOn(max, turns, step, records);
      if t.landedBefore {
        end := Captured;
        return;
      }
      step := step + 1;
      var ended;
      ended, records, scent := PlayTurn(fsm, t, scent, records);
      if ended.Some? {
        end := ended.value;
        return;
      }
    }
    MatchIsOver(max, turns, records);
    trace, p := Finish(max, READY, trace, p);
  }

  lemma Finish(max: nat, start: Peer, trace: seq<Action>, p: Peer) returns (trace': seq<Action>, p': Peer)
    requires p == RunPeer(max, start, trace) && p.pc == Between && p.step == max
    ensures p' == RunPeer(max, start, trace') && p'.pc == Ended(MaxMovesReached) && p'.step == max
  {
    trace', p' := Take(max, start, trace, p, Begin);
  }

  // ---------- the two peers ----------

  datatype Side = Ours | Theirs

  datatype Match = Match(ours: Peer, theirs: Peer)

  datatype Event = Event(side: Side, action: Action)

  function Deliver(p: Peer, d: Option<Delivery>): Peer {
    if d.Some? then Receive(p, d.value) else p
  }

  /** A message enters a mailbox only by being sent, so `Arrive` is no event of its own. */
  function MatchStep(max: nat, m: Match, e: Event): Match {
    if e.action.Arrive? then m
    else match e.side
      case Ours =>
        var (p, d) := PeerStep(max, m.ours, e.action);
        Match(p, Deliver(m.theirs, d))
      case Theirs =>
        var (p, d) := PeerStep(max, m.theirs, e.action);
        Match(Deliver(m.ours, d), p)
  }

  function RunMatch(max: nat, events: seq<Event>): Match {
    if events == [] then Match(READY, READY)
    else MatchStep(max, RunMatch(max, events[..|events| - 1]), events[|events| - 1])
  }

  type Box = map<int, string>

  /** Every entry of `a` is the same in `b`. */
  ghost predicate Copies(a: Box, b: Box) {
    forall s :: s in a ==> s in b && a[s] == b[s]
  }

  ghost predicate AllBelow(n: int, box: Box) {
    forall s :: 1 <= s < n ==> s in box
  }

  ghost predicate NoneAbove(n: int, box: Box) {
    forall s :: s in box ==> 1 <= s <= n
  }

  ghost predicate Accompanied(a: Box, b: Box) {
    forall s :: s in a ==> s in b
  }

  predicate BeforeReveal(p: Peer) {
    p.pc == Moving || p.pc == CommitDue || p.pc == RevealDue
  }

  /** What one peer knows about itself. */
  ghost predicate SelfConsistent(p: Peer) {
    && (p.woken ==> Seized(p))
    && NoneAbove(p.step, p.sealed) && NoneAbove(p.step, p.spoken) && AllBelow(p.step, p.shown)
    && (p.pc == Moving || p.pc == CommitDue ==> p.step !in p.sealed)
    && (BeforeReveal(p) ==> p.step !in p.spoken)
    && (BeforeReveal(p) || p.pc == Awaiting || p.pc == Judging ==> 1 <= p.step)
    && (p.pc == Between && 1 <= p.step ==> p.step in p.shown)
    && (p.pc == Judging && !Seized(p) ==> p.step in p.shown)
  }

  predicate PastReveal(q: Peer) {
    q.pc == Awaiting || q.pc == Judging || q.pc == Between
  }

  /** What `p` holds of `q`'s messages: everything acknowledged, nothing never sent, and no
      disclosure without the commit it must match. */
  ghost predicate Hears(p: Peer, q: Peer) {
    && Copies(p.commits, q.sealed) && Copies(p.shown, q.spoken) && Accompanied(p.shown, p.commits)
    && AllBelow(q.step, p.shown)
    && (1 <= q.step && (q.pc == RevealDue || PastReveal(q)) ==> q.step in p.commits)
    && (1 <= q.step && PastReveal(q) ==> q.step in p.shown)
  }

  ghost predicate Inv(m: Match) {
    SelfConsistent(m.ours) && SelfConsistent(m.theirs) && Hears(m.ours, m.theirs) && Hears(m.theirs, m.ours)
  }

  predicate Sends(a: Action) {
    a.SendCommit? || a.SendReveal?
  }

  lemma NextRound(n: int, box: Box)
    ensures AllBelow(n, box) && (1 <= n ==> n in box) ==> AllBelow(n + 1, box)
    ensures NoneAbove(n, box) ==> NoneAbove(n + 1, box) && n + 1 !in box
  {
  }

  lemma CopiesGrow(a: Box, b: Box, s: int, text: string, delivered: bool)
    requires Copies(a, b) && s !in b
    ensures Copies(if delivered then a[s := text] else a, b[s := text])
  {
  }

  lemma Additions(n: int, box: Box, other: Box, s: int, text: string)
    ensures AllBelow(n, box) ==> AllBelow(n, box[s := text])
    ensures NoneAbove(n, box) && 1 <= s <= n ==> NoneAbove(n, box[s := text])
    ensures Accompanied(other, box) ==> Accompanied(other, box[s := text])
    ensures Accompanied(box, other) && s in other ==> Accompanied(box[s := text], other)
  {
  }

  lemma BeginKeepsSound(max: nat, p: Peer)
    requires SelfConsistent(p)
    ensures SelfConsistent(PeerStep(max, p, Begin).0)
  {
    NextRound(p.step, p.sealed);
    NextRound(p.step, p.spoken);
    NextRound(p.step, p.shown);
    hide AllBelow, NoneAbove;
    if p.pc == Between {
      if max <= p.step {
        assert SelfConsistent(p.(pc := Ended(MaxMovesReached)));
      } else if p.landing {
        assert SelfConsistent(p.(pc := Ended(Captured)));
      } else {
        assert SelfConsistent(p.(pc := Moving, step := p.step + 1));
      }
    }
  }

  lemma BeginKeepsHears(max: nat, p: Peer, q: Peer)
    requires Hears(p, q) && Hears(q, p)
    ensures var p' := PeerStep(max, p, Begin).0;
            Hears(p', q) && Hears(q, p')
  {
    NextRound(p.step, q.shown);
    hide Copies, AllBelow, NoneAbove, Accompanied;
    if p.pc == Between && p.step < max && !p.landing {
      assert PeerStep(max, p, Begin).0 == p.(pc := Moving, step := p.step + 1);
      assert Hears(p.(pc := Moving, step := p.step + 1), q);
      assert Hears(q, p.(pc := Moving, step := p.step + 1));
    }
  }

  ghost predicate SameRound(p: Peer, p': Peer) {
    && p'.step == p.step && p'.commits == p.commits && p'.shown == p.shown
    && p'.sealed == p.sealed && p'.spoken == p.spoken
    && (Seized(p) ==> Seized(p')) && (p'.woken ==> p.woken || Seized(p'))
  }

  /** Steps within a round leave the boxes and the round number alone, and the flags set. */
  lemma WithinRound(max: nat, p: Peer, a: Action)
    requires !a.Arrive? && !Sends(a) && !a.Begin?
    ensures SameRound(p, PeerStep(max, p, a).0)
  {
    hide NextPc;
  }

  lemma WithinRoundPc(max: nat, p: Peer, a: Action)
    requires !a.Arrive? && !Sends(a) && !a.Begin?
    ensures var pc := PeerStep(max, p, a).0.pc;
            || pc == p.pc
            || pc.Ended?
            || (p.pc == Moving && pc == CommitDue)
            || (p.pc == Awaiting && pc == Judging && (p.woken || p.step in p.shown))
            || (p.pc == Judging && pc == Between && !Seized(p))
  {
  }

  lemma LocalStepKeeps(max: nat, p: Peer, q: Peer, a: Action)
    requires !a.Arrive? && !Sends(a) && SelfConsistent(p) && Hears(p, q) && Hears(q, p)
    ensures var p' := PeerStep(max, p, a).0;
            SelfConsistent(p') && Hears(p', q) && Hears(q, p')
  {
    if a.Begin? {
      BeginKeepsSound(max, p);
      BeginKeepsHears(max, p, q);
    } else {
      hide Copies, AllBelow, NoneAbove, Accompanied;
      WithinRound(max, p, a);
      WithinRoundPc(max, p, a);
      hide PeerStep;
    }
  }

  lemma CommitKeeps(max: nat, p: Peer, q: Peer, h: string, how: Sending)
    requires p.pc == CommitDue && SelfConsistent(p) && SelfConsistent(q) && Hears(p, q) && Hears(q, p)
    ensures var (p', d) := PeerStep(max, p, SendCommit(h, how));
            var q' := Deliver(q, d);
            SelfConsistent(p') && SelfConsistent(q') && Hears(p', q') && Hears(q', p')
  {
    CopiesGrow(q.commits, p.sealed, p.step, h, !how.Lost?);
    Additions(p.step, p.sealed, map[], p.step, h);
    Additions(p.step, q.commits, q.shown, p.step, h);
    hide Copies, AllBelow, NoneAbove, Accompanied;
  }

  lemma RevealKeeps(max: nat, p: Peer, q: Peer, body: string, how: Sending)
    requires p.pc == RevealDue && SelfConsistent(p) && SelfConsistent(q) && Hears(p, q) && Hears(q, p)
    ensures var (p', d) := PeerStep(max, p, SendReveal(body, how));
            var q' := Deliver(q, d);
            SelfConsistent(p') && SelfConsistent(q') && Hears(p', q') && Hears(q', p')
  {
    CopiesGrow(q.shown, p.spoken, p.step, body, !how.Lost?);
    Additions(p.step, p.spoken, map[], p.step, body);
    Additions(p.step, q.shown, q.commits, p.step, body);
    Additions(q.step, q.shown, q.commits, p.step, body);
    hide Copies, AllBelow, NoneAbove, Accompanied;
  }

  /** One step of `p` keeps what holds between it and the other peer. */
  lemma StepKeeps(max: nat, p: Peer, q: Peer, a: Action)
    requires !a.Arrive? && SelfConsistent(p) && SelfConsistent(q) && Hears(p, q) && Hears(q, p)
    ensures var (p', d) := PeerStep(max, p, a);
            var q' := Deliver(q, d);
            SelfConsistent(p') && SelfConsistent(q') && Hears(p', q') && Hears(q', p')
  {
    hide SelfConsistent, Hears;
    match a
    case SendCommit(h, how) =>
      if p.pc == CommitDue {
        CommitKeeps(max, p, q, h, how);
      }
    case SendReveal(body, how) =>
      if p.pc == RevealDue {
        RevealKeeps(max, p, q, body, how);
      }
    case _ =>
      LocalStepKeeps(max, p, q, a);
  }

  lemma {:induction false} RunKeepsInv(max: nat, events: seq<Event>)
    ensures Inv(RunMatch(max, events))
  {
    if events != [] {
      var n := |events| - 1;
      RunKeepsInv(max, events[..n]);
      var m, e := RunMatch(max, events[..n]), events[n];
      if !e.action.Arrive? {
        if e.side.Ours? {
          StepKeeps(max, m.ours, m.theirs, e.action);
        } else {
          StepKeeps(max, m.theirs, m.ours, e.action);
        }
      }
    }
  }

  /** A peer that has started round s + 1 holds what the other disclosed in round s, and the
      commit it came with; so the round numbers never differ by more than one. */
  lemma Lockstep(max: nat, events: seq<Event>)
    ensures var m := RunMatch(max, events);
            && -1 <= m.ours.step - m.theirs.step <= 1
            && (forall s :: 1 <= s < m.ours.step ==>
                  s in m.ours.shown && s in m.theirs.spoken && m.ours.shown[s] == m.theirs.spoken[s] && s in m.ours.commits)
            && (forall s :: 1 <= s < m.theirs.step ==>
                  s in m.theirs.shown && s in m.ours.spoken && m.theirs.shown[s] == m.ours.spoken[s] && s in m.theirs.commits)
  {
    RunKeepsInv(max, events);
    var m := RunMatch(max, events);
    assert 1 < m.ours.step ==> m.ours.step - 1 in m.ours.shown;
    assert 1 < m.theirs.step ==> m.theirs.step - 1 in m.theirs.shown;
  }

  lemma UnheardRoundIsLast(max: nat, p: Peer, survived: bool, stuck: bool)
    requires SelfConsistent(p) && p.pc == Judging && p.step !in p.shown
    ensures PeerStep(max, p, Judge(survived, stuck)).0.pc.Ended?
  {
  }

  /** A wait cut short by the wakeup ends the match: its round is the last one started. */
  lemma InterruptedRoundIsLast(max: nat, events: seq<Event>, survived: bool, stuck: bool)
    ensures var p := RunMatch(max, events).ours;
            p.pc == Judging && p.step !in p.shown ==> PeerStep(max, p, Judge(survived, stuck)).0.pc.Ended?
    ensures var p := RunMatch(max, events).theirs;
            p.pc == Judging && p.step !in p.shown ==> PeerStep(max, p, Judge(survived, stuck)).0.pc.Ended?
  {
    RunKeepsInv(max, events);
    hide SelfConsistent, Hears, PeerStep, RunMatch;
    var m := RunMatch(max, events);
    if m.ours.pc == Judging && m.ours.step !in m.ours.shown {
      UnheardRoundIsLast(max, m.ours, survived, stuck);
    }
    if m.theirs.pc == Judging && m.theirs.step !in m.theirs.shown {
      UnheardRoundIsLast(max, m.theirs, survived, stuck);
    }
  }

  predicate Ready(p: Peer) {
    p.woken || p.step in p.shown
  }

  lemma SomeoneIsReady(p: Peer, q: Peer)
    requires SelfConsistent(p) && SelfConsistent(q) && Hears(p, q) && Hears(q, p) && p.pc == Awaiting && q.pc == Awaiting
    ensures Ready(p) || Ready(q)
  {
  }

  /** Two waiting peers never wait for each other: at least one has what it waits for. */
  lemma NeverBothStuck(max: nat, events: seq<Event>)
    ensures var m := RunMatch(max, events);
            m.ours.pc == Awaiting && m.theirs.pc == Awaiting ==> Ready(m.ours) || Ready(m.theirs)
  {
    RunKeepsInv(max, events);
    hide SelfConsistent, Hears, RunMatch;
    var m := RunMatch(max, events);
    if m.ours.pc == Awaiting && m.theirs.pc == Awaiting {
      SomeoneIsReady(m.ours, m.theirs);
    }
  }

  // ---------- every path the table allows, and every way a match ends ----------

  /** One round of the state machine. */
  const ROUND: seq<Phase> := [WaitingForOpponent, ComputingMove, Committing, AwaitingReveal, Verifying]

  /** Round after round, in order, except that the last state may be a technical loss right after
      computing the move or awaiting the reveal. */
  predicate Rounds(path: seq<Phase>) {
    && (forall i :: 0 <= i < |path| - 1 ==> path[i] == ROUND[i % 5])
    && (path != [] ==>
          var last := |path| - 1;
          path[last] == ROUND[last % 5] || (path[last] == TechnicalLoss && (last % 5 == 2 || last % 5 == 4)))
  }

  lemma EdgesInRound(i: nat, p: Phase)
    ensures p in Edges(ROUND[i % 5]) <==>
            p == ROUND[(i + 1) % 5] || (p == TechnicalLoss && ((i + 1) % 5 == 2 || (i + 1) % 5 == 4))
  {
  }

  /** The paths the table allows from the start are exactly these. */
  lemma {:induction false} LegalPathsExactly(path: seq<Phase>)
    requires path != [] && path[0] == WaitingForOpponent
    ensures LegalPath(path) <==> Rounds(path)
  {
    if 1 < |path| {
      var n := |path| - 1;
      var front := path[..n];
      LegalPathsExactly(front);
      EdgesInRound(n - 1, path[n]);
      assert LegalPath(path) <==> LegalPath(front) && path[n] in Edges(path[n - 1]);
      hide LegalPath;
      if LegalPath(front) && path[n - 1] == TechnicalLoss {
        assert Edges(path[n - 1]) == {};
      }
      hide Edges;
      assert forall i :: 0 <= i < n ==> path[i] == front[i];
    }
  }

  /** Nothing in the turn ends the match. */
  predicate Uneventful(t: Turn) {
    && !t.landedBefore && t.input.decided.Some? && t.input.commit.Acked? && t.input.disclosure.Acked?
    && !t.input.wait.Expired? && !t.survived && !t.stuck && !t.landed && !t.barred
  }

  /** Why the match ended with its last turn: survival outranks every capture, and a failure of
      the round outranks both unless a landing had been confirmed before it. */
  predicate EndsBy(t: Turn, end: End) {
    var failed := t.input.decided.None? || !t.input.commit.Acked? || !t.input.disclosure.Acked? || t.input.wait.Expired?;
    match end
    case MaxMovesReached => false
    case Captured => t.landedBefore || (!failed && !t.survived && (t.stuck || t.landed || t.barred))
    case Loss => !t.landedBefore && failed
    case Survived => !t.landedBefore && !failed && t.survived
  }

  /** A match runs until its first eventful turn, and ends the way that turn says; without one it
      ends when the moves are used up. */
  lemma {:induction false} MatchExplained(max: nat, turns: nat -> Turn, played: nat, records: seq<string>)
    requires played <= max
    ensures var (end, rounds, _) := MatchFrom(max, turns, played, records);
            && (end == MaxMovesReached ==> rounds == max && forall k :: played <= k < max ==> Uneventful(turns(k)))
            && (end != MaxMovesReached ==>
                  exists n :: played <= n < max && EndsBy(turns(n), end) && rounds == (if turns(n).landedBefore then n else n + 1)
                              && forall k :: played <= k < n ==> Uneventful(turns(k)))
    decreases max - played
  {
    if played < max {
      var t := turns(played);
      if t.landedBefore || TurnEnd(t).Some? || t.input.decided.None? {
        var (end, rounds, _) := MatchFrom(max, turns, played, records);
        assert EndsBy(turns(played), end) && rounds == (if turns(played).landedBefore then played else played + 1);
      } else {
        MatchExplained(max, turns, played + 1, records + [t.input.decided.value]);
        assert Uneventful(t);
        hide Uneventful, EndsBy, TurnEnd;
      }
    }
  }
}
