/** One peer's turn loop for one sub-game, as the steps between its interactions with the
    outside: sealing and sending a turn, consuming the awaited turn, giving up waiting. */
module TurnLoop {
  import opened Options
  import opened Geometry
  import opened Turns

  datatype GameResult = Capture | Survival | Timeout

  /** Where the loop stands. `Closing` is the caught Thief's one owed message. */
  datatype Pc =
    | Sending(step: int)
    | Waiting(step: int)
    | Closing(step: int)
    | Done(result: GameResult)
    | Aborted

  /** The loop's local variables. `heard` counts the peer turns consumed so far. */
  datatype Loop = Loop(role: Role, pc: Pc, heard: nat, pending: Option<ClaimResponse>,
                       sealed: seq<Sealed>, peerCommits: map<int, Commit>, myCommits: map<int, Commit>)

  type Mailbox = map<int, Message>

  /** The strategy's free choices for one turn. */
  datatype Play = Play(move: Option<Direction>, hint: string, smell: map<Cell, real>,
                       barrier: Option<Cell>, claim: Option<Cell>)

  datatype Choice =
    | Post(play: Play, nonce: string)
    | PostFails(play: Play, nonce: string, delivered: bool)
    | Take(caught: bool, position: Cell)
    | Expire

  predicate IsOpening(role: Role, opening: Sealed) {
    opening.payload.Declaration? && opening.payload.declarer == role
  }

  function Start(max: nat, role: Role, opening: Sealed): Loop
    requires IsOpening(role, opening)
  {
    var pc := if role.Police? then Waiting(1) else if 1 <= max then Sending(1) else Done(Survival);
    Loop(role, pc, 0, None, [opening], map[], map[])
  }

  predicate CanPost(l: Loop) {
    l.pc.Sending? || (l.pc.Closing? && l.role.Thief?)
  }

  function TurnPayload(max: nat, l: Loop, play: Play): Payload
    requires CanPost(l)
  {
    match l.role
    case Thief =>
      if l.pc.Closing? then
        Turn(l.pc.step, Thief, None, "", play.smell, None, None, l.pending, false)
      else
        Turn(l.pc.step, Thief, play.move, play.hint, play.smell, None, None, l.pending, l.pc.step == max)
    case Police =>
      Turn(l.pc.step, Police, play.move, "", play.smell, play.barrier, play.claim, None, false)
  }

  function PcAfterPost(max: nat, l: Loop): Pc
    requires CanPost(l)
  {
    if l.pc.Closing? then Done(Capture)
    else if l.role.Police? then Waiting(l.pc.step + 1)
    else if l.pc.step == max then Done(Survival)
    else Waiting(l.pc.step)
  }

  /** The turn is recorded before it is sent, whatever becomes of the sending. */
  function Posted(l: Loop, s: Sealed, next: Pc): Loop
    requires CanPost(l)
  {
    l.(pc := next, pending := None, sealed := l.sealed + [s], myCommits := l.myCommits[l.pc.step := Commit(s)])
  }

  function Taken(max: nat, l: Loop, m: Message, caught: bool, position: Cell): Loop
    requires l.pc.Waiting?
  {
    var k := l.pc.step;
    var heard := l.(heard := l.heard + 1, peerCommits := l.peerCommits[m.step := m.commit]);
    match l.role
    case Thief =>
      if caught then
        var response := if m.claim.Some? then BuildClaimResponse(m.claim, true) else Some(ClaimResponse(position, true));
        heard.(pc := Closing(k + 1), pending := response)
      else
        heard.(pc := Sending(k + 1), pending := BuildClaimResponse(m.claim, false))
    case Police =>
      if 1 < k && m.SaysCaught() then heard.(pc := Done(Capture))
      else if 1 < k && m.win then heard.(pc := Done(Survival))
      else if k <= max then heard.(pc := Sending(k))
      else heard.(pc := Done(Survival))
  }

  /** One step of the loop: the new local state and the message that reached the peer, if
      any. A choice that does not fit the current point changes nothing. */
  function LoopStep(max: nat, game: nat, l: Loop, inbox: Mailbox, c: Choice): (Loop, Option<Message>) {
    match c
    case Post(play, nonce) =>
      if CanPost(l) then
        var s := Sealed(TurnPayload(max, l, play), nonce);
        (Posted(l, s, PcAfterPost(max, l)), Some(MessageOf(game, s)))
      else (l, None)
    case PostFails(play, nonce, delivered) =>
      if CanPost(l) then
        var s := Sealed(TurnPayload(max, l, play), nonce);
        (Posted(l, s, Aborted), if delivered then Some(MessageOf(game, s)) else None)
      else (l, None)
    case Take(caught, position) =>
      if l.pc.Waiting? && l.pc.step in inbox then
        (Taken(max, l, inbox[l.pc.step], caught, position), None)
      else (l, None)
    case Expire =>
      if l.pc.Waiting? then (l.(pc := Done(Timeout)), None) else (l, None)
  }

  function Deliver(box: Mailbox, m: Option<Message>): Mailbox {
    if m.Some? then box[m.value.step := m.value] else box
  }

  // ---------- both peers of one sub-game ----------

  datatype SubGame = SubGame(thief: Loop, police: Loop, toThief: Mailbox, toPolice: Mailbox)

  datatype Event = Event(role: Role, choice: Choice)

  function Opened(max: nat, thiefOpening: Sealed, policeOpening: Sealed): SubGame
    requires IsOpening(Thief, thiefOpening) && IsOpening(Police, policeOpening)
  {
    SubGame(Start(max, Thief, thiefOpening), Start(max, Police, policeOpening), map[], map[])
  }

  function SubStep(max: nat, game: nat, g: SubGame, e: Event): SubGame {
    match e.role
    case Thief =>
      var (l, m) := LoopStep(max, game, g.thief, g.toThief, e.choice);
      g.(thief := l, toPolice := Deliver(g.toPolice, m))
    case Police =>
      var (l, m) := LoopStep(max, game, g.police, g.toPolice, e.choice);
      g.(police := l, toThief := Deliver(g.toThief, m))
  }

  /** Any interleaving of the two loops is some sequence of events. */
  function Run(max: nat, game: nat, g: SubGame, events: seq<Event>): SubGame {
    if events == [] then g
    else SubStep(max, game, Run(max, game, g, events[..|events| - 1]), events[|events| - 1])
  }
}
