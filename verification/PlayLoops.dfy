/** The two turn loops as they run against a real board: own state, scent field and mailbox
    waits. Each is shown to take exactly the steps of `TurnLoop.LoopStep`. */
module PlayLoops {
  import opened Options
  import opened Geometry
  import opened Turns
  import opened TurnLoop
  import opened Scent

  /** The outside of one sub-game, by step: what a mailbox wait returns (`None` when its
      deadline passes), how a send ends, the nonces and hints drawn. */
  datatype Outside = Outside(
    inbox: int -> Option<Message>,
    sending: int -> Sending,
    nonce: int -> string,
    hint: int -> string)

  /** The strategy: a direction for a position, the barriers known and a step. */
  type Brain = (Cell, set<Cell>, int) -> Option<Direction>

  /** A brain chooses among the legal moves. */
  ghost predicate PlaysLegally(brain: Brain, size: Size) {
    forall at, barriers, step {:trigger brain(at, barriers, step)} ::
      brain(at, barriers, step).Some? ==> Open(size, barriers, Target(at, brain(at, barriers, step).value))
  }

  /** One step of the loop with the mailbox contents it saw. */
  datatype Moment = Moment(inbox: Mailbox, choice: Choice)

  /** The local state and the messages that arrived after a sequence of steps. */
  function Follow(max: nat, game: nat, start: Loop, trace: seq<Moment>): (Loop, seq<Message>) {
    if trace == [] then (start, [])
    else
      var (l, sent) := Follow(max, game, start, trace[..|trace| - 1]);
      var last := trace[|trace| - 1];
      var (l', m) := LoopStep(max, game, l, last.inbox, last.choice);
      (l', if m.Some? then sent + [m.value] else sent)
  }

  lemma FollowOne(max: nat, game: nat, start: Loop, trace: seq<Moment>, moment: Moment)
    ensures var (l, sent) := Follow(max, game, start, trace);
            var (l', m) := LoopStep(max, game, l, moment.inbox, moment.choice);
            Follow(max, game, start, trace + [moment]) == (l', if m.Some? then sent + [m.value] else sent)
  {
    assert (trace + [moment])[..|trace|] == trace;
  }

  /** What a loop returns: its result, `None` when a failed send raised instead. */
  datatype Returned = Returned(result: Option<GameResult>, sealed: seq<Sealed>,
                               peerCommits: map<int, Commit>, myCommits: map<int, Commit>)

  function ReturnedBy(l: Loop): Returned {
    Returned(if l.pc.Done? then Some(l.pc.result) else None, l.sealed, l.peerCommits, l.myCommits)
  }

  // ---------- what the loop is bound to do ----------

  /** Everything that decides a sub-game for one side: the terms, its strategy, where and with
      what it starts, and the outside. */
  datatype Setting = Setting(max: nat, game: nat, role: Role, size: Size, brain: Brain, scent: Settings,
                             start: Cell, known: set<Cell>, field: Field, out: Outside)

  /** The barriers known once reply `k` has been read; only the Thief learns any. */
  function Known(c: Setting, k: int): set<Cell> {
    if k <= 0 || c.role.Police? then c.known
    else Known(c, k - 1) + (match c.out.inbox(k)
                            case Some(m) => if m.barrier.Some? then {m.barrier.value} else {}
                            case None => {})
  }

  /** The cell after `k` moves. */
  function PositionAt(c: Setting, k: int): Cell {
    if k <= 0 then c.start
    else
      var at := PositionAt(c, k - 1);
      match c.brain(at, Known(c, k - 1), k)
      case Some(d) => Target(at, d)
      case None => at
  }

  function Decided(c: Setting, k: int): Option<Direction> {
    c.brain(PositionAt(c, k - 1), Known(c, k - 1), k)
  }

  /** The own scent after `k` moves. */
  function FieldAt(c: Setting, k: int): Field {
    if k <= 0 then c.field else Advanced(c.scent, FieldAt(c, k - 1), PositionAt(c, k))
  }

  predicate Running(l: Loop) {
    !l.pc.Done? && !l.pc.Aborted? && (l.pc.Closing? ==> l.role.Thief?)
  }

  function PlayAt(c: Setting, l: Loop): Play
    requires CanPost(l)
  {
    var k := l.pc.step;
    var smell := Shown(FieldAt(c, k - 1));
    if l.pc.Closing? then Play(None, "", smell, None, None)
    else if c.role.Thief? then Play(Decided(c, k), c.out.hint(k), smell, None, None)
    else Play(Decided(c, k), "", smell, None, Some(PositionAt(c, k)))
  }

  /** Reply `k` catches the Thief where it stands. */
  predicate CaughtBy(c: Setting, k: int, m: Message) {
    EvaluateCapture(c.size, Known(c, k), PositionAt(c, k), m.claim, m.barrier)
  }

  /** The one step the loop may take next. */
  function NextMoment(c: Setting, l: Loop): Moment
    requires Running(l)
  {
    var k := l.pc.step;
    if CanPost(l) then
      var how := c.out.sending(k);
      Moment(map[], if how.Acked? then Post(PlayAt(c, l), c.out.nonce(k))
                    else PostFails(PlayAt(c, l), c.out.nonce(k), how.Ambiguous?))
    else
      match c.out.inbox(k)
      case None => Moment(map[], Expire)
      case Some(m) =>
        Moment(map[k := m], if c.role.Thief? then Take(CaughtBy(c, k, m), PositionAt(c, k))
                            else Take(false, PositionAt(c, k - 1)))
  }

  /** The trace takes the prescribed step at every moment. */
  ghost predicate Driven(c: Setting, start: Loop, trace: seq<Moment>) {
    forall i {:trigger trace[i]} :: 0 <= i < |trace| ==>
      var l := Follow(c.max, c.game, start, trace[..i]).0;
      Running(l) && trace[i] == NextMoment(c, l)
  }

  /** The loop, driven from `start`, stands at `l` having sent `sent`. */
  ghost predicate Reaches(c: Setting, start: Loop, trace: seq<Moment>, l: Loop, sent: seq<Message>) {
    Driven(c, start, trace) && Follow(c.max, c.game, start, trace) == (l, sent)
  }

  lemma StepOnce(c: Setting, start: Loop, trace: seq<Moment>, l: Loop, sent: seq<Message>)
    returns (trace': seq<Moment>, l': Loop, sent': seq<Message>)
    requires Reaches(c, start, trace, l, sent) && Running(l)
    ensures var moment := NextMoment(c, l);
            var (next, m) := LoopStep(c.max, c.game, l, moment.inbox, moment.choice);
            l' == next && sent' == if m.Some? then sent + [m.value] else sent
    ensures Reaches(c, start, trace', l', sent')
  {
    hide NextMoment, LoopStep, Running;
    var moment := NextMoment(c, l);
    FollowOne(c.max, c.game, start, trace, moment);
    trace' := trace + [moment];
    var r := Follow(c.max, c.game, start, trace');
    l', sent' := r.0, r.1;
    forall i | 0 <= i < |trace'|
      ensures var at := Follow(c.max, c.game, start, trace'[..i]).0; Running(at) && trace'[i] == NextMoment(c, at)
    {
      if i < |trace| {
        assert trace'[..i] == trace[..i] && trace'[i] == trace[i];
      } else {
        assert trace'[..i] == trace;
      }
    }
  }

  lemma PostStep(c: Setting, start: Loop, trace: seq<Moment>, l: Loop, sent: seq<Message>)
    returns (trace': seq<Moment>, l': Loop, sent': seq<Message>)
    requires Reaches(c, start, trace, l, sent) && CanPost(l)
    ensures var how := c.out.sending(l.pc.step);
            var s := Sealed(TurnPayload(c.max, l, PlayAt(c, l)), c.out.nonce(l.pc.step));
            && l' == Posted(l, s, if how.Acked? then PcAfterPost(c.max, l) else Aborted)
            && sent' == if how.Lost? then sent else sent + [MessageOf(c.game, s)]
    ensures Reaches(c, start, trace', l', sent')
  {
    hide Reaches, TurnPayload, PlayAt;
    trace', l', sent' := StepOnce(c, start, trace, l, sent);
  }

  lemma TakeStep(c: Setting, start: Loop, trace: seq<Moment>, l: Loop, sent: seq<Message>)
    returns (trace': seq<Moment>, l': Loop)
    requires Reaches(c, start, trace, l, sent) && l.pc.Waiting? && c.out.inbox(l.pc.step).Some?
    ensures var k, m := l.pc.step, c.out.inbox(l.pc.step).value;
            l' == if c.role.Thief? then Taken(c.max, l, m, CaughtBy(c, k, m), PositionAt(c, k))
                  else Taken(c.max, l, m, false, PositionAt(c, k - 1))
    ensures Reaches(c, start, trace', l', sent)
  {
    hide Reaches, CaughtBy, PositionAt, Taken;
    var sent';
    trace', l', sent' := StepOnce(c, start, trace, l, sent);
  }

  lemma ExpireStep(c: Setting, start: Loop, trace: seq<Moment>, l: Loop, sent: seq<Message>)
    returns (trace': seq<Moment>, l': Loop)
    requires Reaches(c, start, trace, l, sent) && l.pc.Waiting? && c.out.inbox(l.pc.step).None?
    ensures l' == l.(pc := Done(Timeout)) && Reaches(c, start, trace', l', sent)
  {
    hide Reaches;
    var sent';
    trace', l', sent' := StepOnce(c, start, trace, l, sent);
  }

  lemma NothingYet(c: Setting, start: Loop)
    ensures Reaches(c, start, [], start, [])
  {
  }

  lemma DrivenAt(c: Setting, start: Loop, trace: seq<Moment>, i: nat)
    requires Driven(c, start, trace) && i < |trace|
    ensures var l := Follow(c.max, c.game, start, trace[..i]).0;
            Running(l) && trace[i] == NextMoment(c, l)
  {
    hide NextMoment, Running, Follow;
    assert trace[i] == trace[i];
  }

  /** A driven trace one moment on. */
  lemma NextInTrace(c: Setting, start: Loop, trace: seq<Moment>, n: nat)
    requires Driven(c, start, trace) && n < |trace|
    ensures var l := Follow(c.max, c.game, start, trace[..n]).0;
            Running(l) && var moment := NextMoment(c, l);
            Follow(c.max, c.game, start, trace[..n + 1]).0 == LoopStep(c.max, c.game, l, moment.inbox, moment.choice).0
  {
    hide Follow, Driven, LoopStep, NextMoment, Running;
    DrivenAt(c, start, trace, n);
    assert trace[..n] + [trace[n]] == trace[..n + 1];
    FollowOne(c.max, c.game, start, trace[..n], trace[n]);
  }

  // ---------- what the prescribed steps come to ----------

  /** Reply `k` claims the Thief's cell, places a barrier on it, or finds it with no open cell
      around. */
  predicate CaughtAt(c: Setting, k: int) {
    match c.out.inbox(k)
    case None => false
    case Some(m) =>
      var at := PositionAt(c, k);
      m.claim == Some(at) || m.barrier == Some(at) || Enclosed(c.size, Known(c, k), at)
  }

  ghost predicate NeverCaught(c: Setting, n: int) {
    forall k :: 1 <= k <= n ==> !CaughtAt(c, k)
  }

  ghost predicate AllRead(c: Setting, n: int) {
    forall k {:trigger c.out.inbox(k)} :: 1 <= k <= n ==> c.out.inbox(k).Some?
  }

  /** The truthful answer the Thief owes to reply `k`. */
  function Answer(c: Setting, k: int): Option<ClaimResponse> {
    match c.out.inbox(k)
    case None => None
    case Some(m) =>
      if m.claim.Some? then Some(ClaimResponse(m.claim.value, CaughtAt(c, k)))
      else if CaughtAt(c, k) then Some(ClaimResponse(PositionAt(c, k), true))
      else None
  }

  /** What turn `i` seals. The Thief's closing turn moves nowhere and claims nothing but its
      answer; the Police always claims the cell it stands on. */
  function TurnAt(c: Setting, i: int): Payload {
    var smell := Shown(FieldAt(c, i - 1));
    if c.role.Police? then Turn(i, Police, Decided(c, i), "", smell, None, Some(PositionAt(c, i)), None, false)
    else if i == 1 then Turn(i, Thief, Decided(c, i), c.out.hint(i), smell, None, None, None, i == c.max)
    else if CaughtAt(c, i - 1) then Turn(i, Thief, None, "", smell, None, None, Answer(c, i - 1), false)
    else Turn(i, Thief, Decided(c, i), c.out.hint(i), smell, None, None, Answer(c, i - 1), i == c.max)
  }

  ghost predicate SealsTurns(c: Setting, sealed: seq<Sealed>) {
    1 <= |sealed| && forall i {:trigger sealed[i]} :: 1 <= i < |sealed| ==> sealed[i] == Sealed(TurnAt(c, i), c.out.nonce(i))
  }

  /** Where the Thief's loop stands says what it has read and been told. */
  ghost predicate ThiefSoFar(c: Setting, l: Loop) {
    && l.role.Thief? && AllRead(c, l.heard) && SealsTurns(c, l.sealed)
    && (match l.pc
        case Sending(k) =>
          && 1 <= k <= c.max && l.heard == k - 1 == |l.sealed| - 1 && NeverCaught(c, l.heard)
          && l.pending == (if k == 1 then None else Answer(c, k - 1))
        case Waiting(k) => 1 <= k && l.heard == k - 1 == |l.sealed| - 2 && NeverCaught(c, l.heard)
        case Closing(k) =>
          && 1 <= l.heard == k - 1 == |l.sealed| - 1 && NeverCaught(c, l.heard - 1) && CaughtAt(c, l.heard)
          && l.pending == Answer(c, k - 1)
        case Done(Capture) =>
          1 <= l.heard == |l.sealed| - 2 && NeverCaught(c, l.heard - 1) && CaughtAt(c, l.heard)
        case Done(Survival) =>
          NeverCaught(c, l.heard) && |l.sealed| == c.max + 1 && l.heard == (if c.max == 0 then 0 else c.max - 1)
        case Done(Timeout) => NeverCaught(c, l.heard) && l.heard == |l.sealed| - 2
        case Aborted => NeverCaught(c, l.heard - 1) && l.heard == |l.sealed| - 2)
  }

  lemma CaughtByIs(c: Setting, k: int, m: Message)
    requires c.out.inbox(k) == Some(m)
    ensures CaughtBy(c, k, m) <==> CaughtAt(c, k)
  {
    CaughtExactly(c.size, Known(c, k), PositionAt(c, k), m.claim, m.barrier);
    hide EvaluateCapture, Known, PositionAt, Enclosed;
  }

  lemma OneMoreSealed(c: Setting, sealed: seq<Sealed>, s: Sealed)
    requires SealsTurns(c, sealed) && s == Sealed(TurnAt(c, |sealed|), c.out.nonce(|sealed|))
    ensures SealsTurns(c, sealed + [s])
  {
    hide TurnAt;
    var all := sealed + [s];
    forall i | 1 <= i < |all| ensures all[i] == Sealed(TurnAt(c, i), c.out.nonce(i)) {
      assert i < |sealed| ==> all[i] == sealed[i];
    }
  }

  /** The turn the Thief's loop posts is the one due. */
  lemma ThiefPostsTurn(c: Setting, l: Loop)
    requires ThiefSoFar(c, l) && CanPost(l) && c.role.Thief?
    ensures TurnPayload(c.max, l, PlayAt(c, l)) == TurnAt(c, l.pc.step) && l.pc.step == |l.sealed|
  {
    hide FieldAt, Answer, Decided, CaughtAt;
    if l.pc.Sending? && 1 < l.pc.step {
      assert !CaughtAt(c, l.heard);
    }
  }

  lemma ThiefPosts(c: Setting, l: Loop, s: Sealed, next: Pc)
    requires ThiefSoFar(c, l) && CanPost(l) && c.role.Thief?
    requires s == Sealed(TurnAt(c, |l.sealed|), c.out.nonce(|l.sealed|)) && l.pc.step == |l.sealed|
    requires next == PcAfterPost(c.max, l) || next == Aborted
    ensures ThiefSoFar(c, Posted(l, s, next))
  {
    hide TurnAt, CaughtAt, Answer;
    OneMoreSealed(c, l.sealed, s);
    hide SealsTurns;
  }

  lemma ThiefTakes(c: Setting, l: Loop, m: Message)
    requires ThiefSoFar(c, l) && l.pc.Waiting? && c.out.inbox(l.pc.step) == Some(m) && l.pc.step < c.max
    ensures ThiefSoFar(c, Taken(c.max, l, m, CaughtAt(c, l.pc.step), PositionAt(c, l.pc.step)))
  {
    hide TurnAt, PositionAt, Known, Enclosed, SealsTurns;
    var k := l.pc.step;
    assert Answer(c, k) == if m.claim.Some? then Some(ClaimResponse(m.claim.value, CaughtAt(c, k)))
                           else if CaughtAt(c, k) then Some(ClaimResponse(PositionAt(c, k), true)) else None;
    hide CaughtAt, Answer;
  }

  /** Below the last step, where a Thief that waits always stands. */
  predicate WaitsBelow(max: nat, l: Loop) {
    && (l.pc.Waiting? ==> l.pc.step < max) && (l.pc.Sending? ==> l.pc.step <= max)
  }

  lemma ThiefStepSoFar(c: Setting, l: Loop)
    requires ThiefSoFar(c, l) && Running(l) && c.role.Thief? && WaitsBelow(c.max, l)
    ensures var moment := NextMoment(c, l);
            var l' := LoopStep(c.max, c.game, l, moment.inbox, moment.choice).0;
            ThiefSoFar(c, l') && WaitsBelow(c.max, l')
  {
    var k := l.pc.step;
    if CanPost(l) {
      ThiefPostsTurn(c, l);
      var how := c.out.sending(k);
      var s := Sealed(TurnPayload(c.max, l, PlayAt(c, l)), c.out.nonce(k));
      hide ThiefSoFar, TurnAt, PlayAt, TurnPayload, MessageOf;
      ThiefPosts(c, l, s, if how.Acked? then PcAfterPost(c.max, l) else Aborted);
    } else if c.out.inbox(k).Some? {
      var m := c.out.inbox(k).value;
      CaughtByIs(c, k, m);
      ThiefTakes(c, l, m);
      hide ThiefSoFar, CaughtAt, CaughtBy, PositionAt;
    } else {
      hide NeverCaught, SealsTurns, AllRead, CaughtAt, Answer;
    }
  }

  lemma ThiefStartSoFar(c: Setting, opening: Sealed)
    requires IsOpening(Thief, opening)
    ensures var l := Start(c.max, Thief, opening); ThiefSoFar(c, l) && WaitsBelow(c.max, l)
  {
    hide TurnAt, Answer, CaughtAt;
  }

  lemma {:induction false} ThiefTraceSoFar(c: Setting, opening: Sealed, trace: seq<Moment>, n: nat)
    requires c.role.Thief? && IsOpening(Thief, opening) && Driven(c, Start(c.max, Thief, opening), trace) && n <= |trace|
    ensures var l := Follow(c.max, c.game, Start(c.max, Thief, opening), trace[..n]).0;
            ThiefSoFar(c, l) && WaitsBelow(c.max, l)
  {
    hide Start, Driven, NextMoment, LoopStep, ThiefSoFar, Running;
    if n == 0 {
      ThiefStartSoFar(c, opening);
    } else {
      hide Follow;
      ThiefTraceSoFar(c, opening, trace, n - 1);
      NextInTrace(c, Start(c.max, Thief, opening), trace, n - 1);
      ThiefStepSoFar(c, Follow(c.max, c.game, Start(c.max, Thief, opening), trace[..n - 1]).0);
    }
  }

  lemma ThiefEndSoFar(c: Setting, opening: Sealed, trace: seq<Moment>, l: Loop, sent: seq<Message>)
    requires c.role.Thief? && IsOpening(Thief, opening) && Reaches(c, Start(c.max, Thief, opening), trace, l, sent)
    ensures ThiefSoFar(c, l)
  {
    ThiefTraceSoFar(c, opening, trace, |trace|);
    assert trace[..|trace|] == trace;
  }

  /** Where the Police's loop stands says what it has sealed. */
  ghost predicate PoliceSoFar(c: Setting, l: Loop) {
    && l.role.Police? && SealsTurns(c, l.sealed) && !l.pc.Closing?
    && (l.pc.Sending? ==> l.pc.step == |l.sealed|) && (l.pc.Waiting? ==> l.pc.step == |l.sealed|)
  }

  lemma PolicePostsTurn(c: Setting, l: Loop)
    requires PoliceSoFar(c, l) && CanPost(l) && c.role.Police?
    ensures TurnPayload(c.max, l, PlayAt(c, l)) == TurnAt(c, l.pc.step) && l.pc.step == |l.sealed|
  {
    hide FieldAt, Decided, PositionAt, SealsTurns;
  }

  lemma PolicePosts(c: Setting, l: Loop, s: Sealed, next: Pc)
    requires PoliceSoFar(c, l) && CanPost(l)
    requires s == Sealed(TurnAt(c, |l.sealed|), c.out.nonce(|l.sealed|)) && l.pc.step == |l.sealed|
    requires next == PcAfterPost(c.max, l) || next == Aborted
    ensures PoliceSoFar(c, Posted(l, s, next))
  {
    hide TurnAt;
    OneMoreSealed(c, l.sealed, s);
    hide SealsTurns;
  }

  lemma PoliceTakes(c: Setting, l: Loop, m: Message, position: Cell)
    requires PoliceSoFar(c, l) && l.pc.Waiting?
    ensures PoliceSoFar(c, Taken(c.max, l, m, false, position))
  {
    hide SealsTurns;
  }

  lemma PoliceStepSoFar(c: Setting, l: Loop)
    requires PoliceSoFar(c, l) && Running(l) && c.role.Police?
    ensures var moment := NextMoment(c, l);
            PoliceSoFar(c, LoopStep(c.max, c.game, l, moment.inbox, moment.choice).0)
  {
    var k := l.pc.step;
    if CanPost(l) {
      PolicePostsTurn(c, l);
      var how := c.out.sending(k);
      var s := Sealed(TurnPayload(c.max, l, PlayAt(c, l)), c.out.nonce(k));
      hide PoliceSoFar, TurnAt, PlayAt, TurnPayload, MessageOf;
      PolicePosts(c, l, s, if how.Acked? then PcAfterPost(c.max, l) else Aborted);
    } else if c.out.inbox(k).Some? {
      PoliceTakes(c, l, c.out.inbox(k).value, PositionAt(c, k - 1));
      hide PoliceSoFar, PositionAt;
    } else {
      hide SealsTurns;
    }
  }

  lemma PoliceStartSoFar(c: Setting, opening: Sealed)
    requires IsOpening(Police, opening)
    ensures var l := Start(c.max, Police, opening); PoliceSoFar(c, l)
  {
    hide TurnAt, Answer, CaughtAt;
  }

  lemma {:induction false} PoliceTraceSoFar(c: Setting, opening: Sealed, trace: seq<Moment>, n: nat)
    requires c.role.Police? && IsOpening(Police, opening) && Driven(c, Start(c.max, Police, opening), trace) && n <= |trace|
    ensures PoliceSoFar(c, Follow(c.max, c.game, Start(c.max, Police, opening), trace[..n]).0)
  {
    hide Start, Driven, NextMoment, LoopStep, PoliceSoFar, Running;
    if n == 0 {
      PoliceStartSoFar(c, opening);
    } else {
      hide Follow;
      PoliceTraceSoFar(c, opening, trace, n - 1);
      NextInTrace(c, Start(c.max, Police, opening), trace, n - 1);
      PoliceStepSoFar(c, Follow(c.max, c.game, Start(c.max, Police, opening), trace[..n - 1]).0);
    }
  }

  lemma PoliceEndSoFar(c: Setting, opening: Sealed, trace: seq<Moment>, l: Loop, sent: seq<Message>)
    requires c.role.Police? && IsOpening(Police, opening) && Reaches(c, Start(c.max, Police, opening), trace, l, sent)
    ensures PoliceSoFar(c, l)
  {
    PoliceTraceSoFar(c, opening, trace, |trace|);
    assert trace[..|trace|] == trace;
  }

  /** What a Thief returns, in terms of the replies it read: capture exactly if the last one
      caught it where it stood, no other one did, and every claim was answered truthfully. */
  ghost predicate ThiefReturns(c: Setting, r: Returned) {
    var last := |r.sealed| - 2;
    && SealsTurns(c, r.sealed) && AllRead(c, last) && NeverCaught(c, last - 1)
    && (r.result == Some(Capture) ==> 1 <= last && CaughtAt(c, last))
    && (r.result == Some(Survival) || r.result == Some(Timeout) ==> NeverCaught(c, last))
    && (r.result == Some(Survival) ==> last == c.max - 1)
  }

  lemma ThiefFiles(c: Setting, l: Loop)
    requires ThiefSoFar(c, l) && (l.pc.Done? || l.pc.Aborted?)
    ensures ThiefReturns(c, ReturnedBy(l))
  {
    hide SealsTurns, CaughtAt, Answer;
  }

  lemma ThiefReturned(c: Setting, opening: Sealed, trace: seq<Moment>, l: Loop, sent: seq<Message>)
    requires c.role.Thief? && IsOpening(Thief, opening) && Reaches(c, Start(c.max, Thief, opening), trace, l, sent)
    requires l.pc.Done? || l.pc.Aborted?
    ensures ThiefReturns(c, ReturnedBy(l))
  {
    ThiefEndSoFar(c, opening, trace, l, sent);
    hide Reaches, Start, SealsTurns, CaughtAt, AllRead;
    ThiefFiles(c, l);
    hide ThiefSoFar, ThiefReturns;
  }

  lemma PoliceReturned(c: Setting, opening: Sealed, trace: seq<Moment>, l: Loop, sent: seq<Message>)
    requires c.role.Police? && IsOpening(Police, opening) && Reaches(c, Start(c.max, Police, opening), trace, l, sent)
    ensures SealsTurns(c, ReturnedBy(l).sealed)
  {
    PoliceEndSoFar(c, opening, trace, l, sent);
    hide Reaches, Start, SealsTurns;
  }

  // ---------- the laws of position and barriers ----------

  /** How many of the first `k` moves go in direction `d`. */
  function Headed(c: Setting, d: Direction, k: int): nat {
    if k <= 0 then 0 else Headed(c, d, k - 1) + (if Decided(c, k) == Some(d) then 1 else 0)
  }

  /** Rows grow to the south and columns to the east, by one for each move made that way. */
  lemma {:induction false} PositionByMoves(c: Setting, k: nat)
    ensures PositionAt(c, k).0 == c.start.0 + Headed(c, S, k) - Headed(c, N, k)
    ensures PositionAt(c, k).1 == c.start.1 + Headed(c, E, k) - Headed(c, W, k)
  {
    if k != 0 {
      PositionByMoves(c, k - 1);
      hide Known;
    }
  }

  /** How many of the turns disclosed up to step `k` move in direction `d`. */
  function Disclosed(sealed: seq<Sealed>, d: Direction, k: int): nat
    requires k < |sealed|
  {
    if k <= 0 then 0
    else
      var p := sealed[k].payload;
      Disclosed(sealed, d, k - 1) + (if p.Turn? && p.move == Some(d) then 1 else 0)
  }

  lemma {:induction false} DisclosedAreHeaded(c: Setting, sealed: seq<Sealed>, d: Direction, k: nat)
    requires SealsTurns(c, sealed) && c.role.Police? && k < |sealed|
    ensures Disclosed(sealed, d, k) == Headed(c, d, k)
  {
    if k != 0 {
      DisclosedAreHeaded(c, sealed, d, k - 1);
      assert sealed[k] == Sealed(TurnAt(c, k), c.out.nonce(k));
      hide Decided, FieldAt;
    }
  }

  /** The capture claims of an honest Police are what its disclosed moves lead to from its
      start, so that whoever replays the disclosure finds every claim true. */
  lemma ClaimsFollowDisclosedMoves(c: Setting, sealed: seq<Sealed>, k: nat)
    requires SealsTurns(c, sealed) && c.role.Police? && 1 <= k < |sealed|
    ensures sealed[k].payload.Turn?
    ensures sealed[k].payload.claim == Some((c.start.0 + Disclosed(sealed, S, k) - Disclosed(sealed, N, k),
                                             c.start.1 + Disclosed(sealed, E, k) - Disclosed(sealed, W, k)))
  {
    PositionByMoves(c, k);
    DisclosedAreHeaded(c, sealed, N, k);
    DisclosedAreHeaded(c, sealed, S, k);
    DisclosedAreHeaded(c, sealed, E, k);
    DisclosedAreHeaded(c, sealed, W, k);
    hide Disclosed, Headed, PositionAt, FieldAt, Decided;
    assert sealed[k] == Sealed(TurnAt(c, k), c.out.nonce(k));
  }

  /** The Thief knows the barriers it started with and those declared in the replies it read,
      and no others. */
  lemma {:induction false} KnownExactly(c: Setting, k: nat, cell: Cell)
    requires c.role.Thief?
    ensures cell in Known(c, k) <==>
            cell in c.known || exists j :: 1 <= j <= k && c.out.inbox(j).Some? && c.out.inbox(j).value.barrier == Some(cell)
  {
    if k != 0 {
      KnownExactly(c, k - 1, cell);
      if c.out.inbox(k).Some? && c.out.inbox(k).value.barrier == Some(cell) {
        assert c.out.inbox(k).Some?;
      }
    }
  }

  /** The cells of the first `k` moves. */
  function PathOf(c: Setting, k: nat): seq<Cell> {
    if k == 0 then [] else PathOf(c, k - 1) + [PositionAt(c, k)]
  }

  lemma FieldExtends(c: Setting, k: nat)
    requires 1 <= k && FieldAt(c, k - 1) == Trail(c.scent, PathOf(c, k - 1))
    ensures FieldAt(c, k) == Trail(c.scent, PathOf(c, k - 1) + [PositionAt(c, k)])
  {
    hide *;
    FieldStep(c, k);
    TrailExtends(c.scent, PathOf(c, k - 1), PositionAt(c, k));
  }

  lemma PathExtends(c: Setting, k: nat)
    requires 1 <= k
    ensures PathOf(c, k) == PathOf(c, k - 1) + [PositionAt(c, k)]
  {
  }

  lemma NoFieldYet(c: Setting)
    requires c.field == map[]
    ensures FieldAt(c, 0) == Trail(c.scent, PathOf(c, 0))
  {
  }

  /** The scent a turn discloses is the trail of all moves made before it. */
  lemma {:induction false} FieldIsTrail(c: Setting, k: nat)
    requires c.field == map[]
    ensures FieldAt(c, k) == Trail(c.scent, PathOf(c, k))
  {
    hide *;
    if k == 0 {
      NoFieldYet(c);
    } else {
      FieldIsTrail(c, k - 1);
      FieldExtends(c, k);
      PathExtends(c, k);
    }
  }

  // ---------- the loops ----------

  method SendTurn(how: Sending, m: Message, sent: seq<Message>) returns (raised: bool, sent': seq<Message>)
    ensures raised == !how.Acked?
    ensures sent' == if how.Lost? then sent else sent + [m]
  {
    raised := !how.Acked?;
    sent' := if how.Lost? then sent else sent + [m];
  }

  /** The concrete locals of a running loop are those of `l`. */
  predicate Mirrors(l: Loop, sealed: seq<Sealed>, peerCommits: map<int, Commit>, myCommits: map<int, Commit>) {
    l.sealed == sealed && l.peerCommits == peerCommits && l.myCommits == myCommits
  }

  /** The own state and scent are those the setting prescribes after `k` moves and replies. */
  ghost predicate Tracks(c: Setting, state: OwnGameState, scent: ScentField, k: int)
    reads state, scent
  {
    && state.position == PositionAt(c, k) && state.knownBarriers == Known(c, k)
    && scent.field == FieldAt(c, k) && scent.settings == c.scent
  }

  /** One move of the own piece, by a strategy that plays legally. */
  method Move(c: Setting, state: OwnGameState, scent: ScentField, k: int) returns (direction: Option<Direction>)
    requires 1 <= k && Tracks(c, state, scent, k - 1) && PlaysLegally(c.brain, c.size)
    modifies state
    ensures direction == Decided(c, k)
    ensures state.position == PositionAt(c, k) && state.knownBarriers == Known(c, k - 1)
  {
    direction := c.brain(state.position, state.knownBarriers, k);
    var legal := state.ApplyMove(direction, c.size);
  }

  /** The Thief's loop: it takes the prescribed steps, and no others, to the end. */
  method PlaySubGame(c: Setting, state: OwnGameState, scent: ScentField, opening: Sealed)
    returns (r: Returned, sent: seq<Message>, ghost trace: seq<Moment>, ghost l: Loop)
    requires c.role.Thief? && IsOpening(Thief, opening) && PlaysLegally(c.brain, c.size)
    requires Tracks(c, state, scent, 0)
    modifies state, scent`field
    ensures Reaches(c, Start(c.max, Thief, opening), trace, l, sent)
    ensures (l.pc.Done? || l.pc.Aborted?) && r == ReturnedBy(l)
    ensures ThiefReturns(c, r)
  {
    hide Reaches, PositionAt, Known, FieldAt, CaughtBy, NextMoment, Decided, EvaluateCapture, MessageOf, ThiefReturns;
    ghost var start := Start(c.max, Thief, opening);
    NothingYet(c, start);
    l, trace, sent := start, [], [];
    var sealed, peerCommits, myCommits := [opening], map[], map[];
    var pending: Option<ClaimResponse> := None;
    var step := 1;
    while step <= c.max
      invariant 1 <= step && Tracks(c, state, scent, step - 1)
      invariant Reaches(c, start, trace, l, sent)
      invariant l.pc == if step <= c.max then Sending(step) else Done(Survival)
      invariant l.role.Thief? && l.pending == pending && Mirrors(l, sealed, peerCommits, myCommits)
    {
      var smell := scent.Snapshot();
      var direction := Move(c, state, scent, step);
      var win := step == c.max;
      var payload := Turn(step, Thief, direction, c.out.hint(step), smell, None, None, pending, win);
      var s := Sealed(payload, c.out.nonce(step));
      sealed, myCommits := sealed + [s], myCommits[step := Commit(s)];
      assert payload == TurnPayload(c.max, l, PlayAt(c, l));
      ghost var sent';
      trace, l, sent' := PostStep(c, start, trace, l, sent);
      var raised;
      raised, sent := SendTurn(c.out.sending(step), MessageOf(c.game, s), sent);
      assert sent == sent';
      if raised {
        r := Returned(None, sealed, peerCommits, myCommits);
        ThiefReturned(c, opening, trace, l, sent);
        return;
      }
      scent.Advance(state.position);
      FieldStep(c, step);
      pending := None;
      if win {
        r := Returned(Some(Survival), sealed, peerCommits, myCommits);
        ThiefReturned(c, opening, trace, l, sent);
        return;
      }
      if c.out.inbox(step).None? {
        trace, l := ExpireStep(c, start, trace, l, sent);
        r := Returned(Some(Timeout), sealed, peerCommits, myCommits);
        ThiefReturned(c, opening, trace, l, sent);
        return;
      }
      var m := c.out.inbox(step).value;
      peerCommits := peerCommits[m.step := m.commit];
      var caught, response := JudgeReply(c.size, state, m);
      KnownStep(c, step);
      CaughtIs(c, step, m);
      trace, l := TakeStep(c, start, trace, l, sent);
      if caught {
        r, sent, trace, l := CloseCaptured(c, start, step + 1, response, scent.Snapshot(),
                                           sealed, peerCommits, myCommits, sent, trace, l);
        ThiefReturned(c, opening, trace, l, sent);
        return;
      }
      pending := response;
      step := step + 1;
    }
    r := Returned(Some(Survival), sealed, peerCommits, myCommits);
    ThiefReturned(c, opening, trace, l, sent);
  }

  lemma FieldStep(c: Setting, k: int)
    requires 1 <= k
    ensures FieldAt(c, k) == Advanced(c.scent, FieldAt(c, k - 1), PositionAt(c, k))
  {
  }

  lemma KnownStep(c: Setting, k: int)
    requires 1 <= k && c.role.Thief? && c.out.inbox(k).Some?
    ensures var m := c.out.inbox(k).value;
            Known(c, k) == Known(c, k - 1) + (if m.barrier.Some? then {m.barrier.value} else {})
  {
  }

  lemma CaughtIs(c: Setting, k: int, m: Message)
    ensures CaughtBy(c, k, m) == EvaluateCapture(c.size, Known(c, k), PositionAt(c, k), m.claim, m.barrier)
  {
  }

  /** Learns the declared barrier, then judges the capture; the answer is truthful. */
  method JudgeReply(size: Size, state: OwnGameState, m: Message)
    returns (caught: bool, response: Option<ClaimResponse>)
    modifies state
    ensures state.position == old(state.position) && state.visited == old(state.visited)
    ensures state.knownBarriers == old(state.knownBarriers) + (if m.barrier.Some? then {m.barrier.value} else {})
    ensures caught == EvaluateCapture(size, state.knownBarriers, state.position, m.claim, m.barrier)
    ensures response == if m.claim.Some? then BuildClaimResponse(m.claim, caught)
                        else if caught then Some(ClaimResponse(state.position, true)) else None
  {
    if m.barrier.Some? {
      state.RecordBarrier(m.barrier.value);
    }
    caught := EvaluateCapture(size, state.knownBarriers, state.position, m.claim, m.barrier);
    response := BuildClaimResponse(m.claim, caught);
    if response.None? && caught {
      response := Some(ClaimResponse(state.position, true));
    }
  }

  /** The caught Thief's one owed message. */
  method CloseCaptured(c: Setting, ghost start: Loop, last: int, response: Option<ClaimResponse>,
                       smell: Field, sealed: seq<Sealed>, peerCommits: map<int, Commit>,
                       myCommits: map<int, Commit>, sent: seq<Message>, ghost trace: seq<Moment>, ghost l: Loop)
    returns (r: Returned, sent': seq<Message>, ghost trace': seq<Moment>, ghost l': Loop)
    requires Reaches(c, start, trace, l, sent) && smell == Shown(FieldAt(c, last - 1))
    requires l.role.Thief? && l.pc == Closing(last) && l.pending == response
    requires Mirrors(l, sealed, peerCommits, myCommits)
    ensures Reaches(c, start, trace', l', sent')
    ensures (l'.pc.Done? || l'.pc.Aborted?) && r == ReturnedBy(l')
  {
    hide Reaches, FieldAt, MessageOf;
    var final := Sealed(Turn(last, Thief, None, "", smell, None, None, response, false), c.out.nonce(last));
    ghost var sentNow;
    trace', l', sentNow := PostStep(c, start, trace, l, sent);
    var raised;
    raised, sent' := SendTurn(c.out.sending(last), MessageOf(c.game, final), sent);
    r := Returned(if raised then None else Some(Capture), sealed + [final], peerCommits, myCommits[last := Commit(final)]);
  }

  /** The Police loop: it takes the prescribed steps to the end and claims the cell it stands on. */
  method PlaySubGameAsPolice(c: Setting, state: OwnGameState, scent: ScentField, opening: Sealed)
    returns (r: Returned, sent: seq<Message>, ghost trace: seq<Moment>, ghost l: Loop)
    requires c.role.Police? && IsOpening(Police, opening) && PlaysLegally(c.brain, c.size)
    requires Tracks(c, state, scent, 0)
    modifies state, scent`field
    ensures Reaches(c, Start(c.max, Police, opening), trace, l, sent)
    ensures (l.pc.Done? || l.pc.Aborted?) && r == ReturnedBy(l)
    ensures sent != [] && r.result.Some? ==> sent[|sent| - 1].claim == Some(state.position)
    ensures SealsTurns(c, r.sealed)
  {
    hide Reaches, PositionAt, Known, FieldAt, CaughtBy, NextMoment, Decided, SealsTurns, Advanced, Shown, Open, Target;
    ghost var start := Start(c.max, Police, opening);
    NothingYet(c, start);
    l, trace, sent := start, [], [];
    var sealed, peerCommits, myCommits := [opening], map[], map[];
    if c.out.inbox(1).None? {
      trace, l := ExpireStep(c, start, trace, l, sent);
      r := Returned(Some(Timeout), sealed, peerCommits, myCommits);
      PoliceReturned(c, opening, trace, l, sent);
      return;
    }
    var m := c.out.inbox(1).value;
    peerCommits := peerCommits[m.step := m.commit];
    trace, l := TakeStep(c, start, trace, l, sent);
    var thiefStep := 1;
    while thiefStep <= c.max
      invariant 1 <= thiefStep && Tracks(c, state, scent, thiefStep - 1)
      invariant Reaches(c, start, trace, l, sent)
      invariant l.pc == if thiefStep <= c.max then TurnLoop.Sending(thiefStep) else Done(Survival)
      invariant l.role.Police? && Mirrors(l, sealed, peerCommits, myCommits)
      invariant sent != [] ==> sent[|sent| - 1].claim == Some(state.position)
    {
      var smell := scent.Snapshot();
      var direction := Move(c, state, scent, thiefStep);
      PoliceLearnsNothing(c, thiefStep - 1);
      PoliceLearnsNothing(c, thiefStep);
      var s := Sealed(Turn(thiefStep, Police, direction, "", smell, None, Some(state.position), None, false),
                      c.out.nonce(thiefStep));
      sealed, myCommits := sealed + [s], myCommits[thiefStep := Commit(s)];
      assert s.payload == TurnPayload(c.max, l, PlayAt(c, l));
      ghost var sent';
      trace, l, sent' := PostStep(c, start, trace, l, sent);
      var raised;
      raised, sent := SendTurn(c.out.sending(thiefStep), MessageOf(c.game, s), sent);
      assert sent == sent';
      if raised {
        r := Returned(None, sealed, peerCommits, myCommits);
        PoliceReturned(c, opening, trace, l, sent);
        return;
      }
      scent.Advance(state.position);
      FieldStep(c, thiefStep);
      if c.out.inbox(thiefStep + 1).None? {
        trace, l := ExpireStep(c, start, trace, l, sent);
        r := Returned(Some(Timeout), sealed, peerCommits, myCommits);
        PoliceReturned(c, opening, trace, l, sent);
        return;
      }
      m := c.out.inbox(thiefStep + 1).value;
      peerCommits := peerCommits[m.step := m.commit];
      trace, l := TakeStep(c, start, trace, l, sent);
      if m.SaysCaught() {
        r := Returned(Some(Capture), sealed, peerCommits, myCommits);
        PoliceReturned(c, opening, trace, l, sent);
        return;
      }
      if m.win {
        r := Returned(Some(Survival), sealed, peerCommits, myCommits);
        PoliceReturned(c, opening, trace, l, sent);
        return;
      }
      thiefStep := thiefStep + 1;
    }
    r := Returned(Some(Survival), sealed, peerCommits, myCommits);
    PoliceReturned(c, opening, trace, l, sent);
  }

  lemma PoliceLearnsNothing(c: Setting, k: int)
    requires c.role.Police?
    ensures Known(c, k) == c.known
  {
  }

  lemma OneMoreAgrees<T>(a: seq<T>, b: seq<T>, n: nat)
    requires 0 < n <= |a| && n <= |b| && a[..n - 1] == b[..n - 1] && a[n - 1] == b[n - 1]
    ensures a[..n] == b[..n]
  {
    assert a[..n] == a[..n - 1] + [a[n - 1]] && b[..n] == b[..n - 1] + [b[n - 1]];
  }

  lemma {:induction false} PrefixAgrees(c: Setting, start: Loop, a: seq<Moment>, b: seq<Moment>, n: nat)
    requires Driven(c, start, a) && Driven(c, start, b) && n <= |a| && n <= |b|
    ensures a[..n] == b[..n]
  {
    if n != 0 {
      hide Driven, NextMoment, Running, Follow;
      PrefixAgrees(c, start, a, b, n - 1);
      DrivenAt(c, start, a, n - 1);
      DrivenAt(c, start, b, n - 1);
      OneMoreAgrees(a, b, n);
    }
  }

  lemma EndedIsLast(c: Setting, start: Loop, a: seq<Moment>, b: seq<Moment>, la: Loop, lb: Loop,
                    sa: seq<Message>, sb: seq<Message>)
    requires Reaches(c, start, a, la, sa) && Reaches(c, start, b, lb, sb) && !Running(la) && a <= b
    ensures a == b && la == lb && sa == sb
  {
    hide NextMoment, Running, Driven;
    assert b[..|a|] == a;
    if |a| < |b| {
      DrivenAt(c, start, b, |a|);
    }
  }

  /** The steps a setting prescribes are one run: two driven traces that both ended are the
      same, so what a loop returns and sends is a function of its setting. */
  lemma DrivenIsUnique(c: Setting, start: Loop, a: seq<Moment>, b: seq<Moment>, la: Loop, lb: Loop,
                       sa: seq<Message>, sb: seq<Message>)
    requires Reaches(c, start, a, la, sa) && Reaches(c, start, b, lb, sb) && !Running(la) && !Running(lb)
    ensures a == b && la == lb && sa == sb
  {
    if |a| <= |b| {
      PrefixAgrees(c, start, a, b, |a|);
      assert a == a[..|a|] == b[..|a|];
      EndedIsLast(c, start, a, b, la, lb, sa, sb);
    } else {
      PrefixAgrees(c, start, a, b, |b|);
      assert b == b[..|b|] == a[..|b|];
      EndedIsLast(c, start, b, a, lb, la, sb, sa);
    }
    hide Reaches, Running;
  }
}
