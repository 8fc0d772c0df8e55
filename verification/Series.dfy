/** A whole series between two peers: each resets its turn mailbox, negotiates, plays,
    audits, and in the end compares consensus digests, on its own schedule. */
module Series {
  import opened Options
  import opened Turns
  import opened TurnLoop
  import opened Scoring

  /** What was signed into the terms, with the canonical text of the whole. */
  datatype Terms = Terms(max: nat, games: nat, text: string)

  datatype Phase =
    | Between
    | Negotiating(sent: bool)
    | Playing
    | Auditing(sent: bool)
    | Settling(sent: bool)
    | Settled(agreed: bool)
    | Crashed

  datatype Envelope = Envelope(records: seq<Sealed>, claim: GameResult, game: nat)

  /** What one side files about one sub-game. */
  datatype Report = Report(role: Role, end: GameResult, verified: bool, tampered: bool, peerClaim: Option<GameResult>)

  /** One peer and its mailboxes. `epoch` is the sub-game last started; the digest in
      `consensus` is represented by the object it is the digest of. */
  datatype Peer = Peer(group: string, natural: Role, epoch: nat, phase: Phase, loop: Loop, turns: Mailbox,
                       offers: set<nat>, audits: map<nat, Envelope>, consensus: Option<Consensus>,
                       reports: seq<Report>)

  datatype Act =
    | Reset(githubCommit: Option<string>, nonce: string)
    | SendOffer(acked: bool)
    | TakeOffer
    | NegotiationExpires
    | TakeTurn(choice: Choice)
    | SubmitAudit(acked: bool)
    | TakeAudit
    | AuditExpires
    | Settle
    | SubmitConsensus(acked: bool)
    | TakeConsensus
    | ConsensusExpires

  datatype Fault = NoFault | TurnFault | AuditFault

  function Unstarted(group: string, natural: Role): Peer {
    Peer(group, natural, 0, Between, Loop(natural, Aborted, 0, None, [], map[], map[]), map[], {}, map[], None, [])
  }

  function EnvelopeOf(p: Peer): Envelope
    requires p.loop.pc.Done?
  {
    Envelope(p.loop.sealed, p.loop.pc.result, p.epoch)
  }

  function ReportOn(p: Peer, envelope: Envelope): Report
    requires p.loop.pc.Done?
  {
    var clean := AuditOf(envelope.records, p.loop.peerCommits) == [];
    Report(p.loop.role, p.loop.pc.result, clean, !clean, Some(envelope.claim))
  }

  function PlayedOf(reports: seq<Report>): seq<Played> {
    seq(|reports|, i requires 0 <= i < |reports| =>
      Played(reports[i].role, RowResultOf(reports[i].end, reports[i].tampered)))
  }

  function ConsensusOf(t: Terms, p: Peer, them: string): Consensus {
    BuildConsensus(GameId(p.group, them), GameUid(t.text, p.group, them), RowsOf(PlayedOf(p.reports), p.group, them))
  }

  predicate AllClean(reports: seq<Report>) {
    forall i :: 0 <= i < |reports| ==> reports[i].verified
  }

  predicate AllAgreed(reports: seq<Report>) {
    forall i :: 0 <= i < |reports| ==> reports[i].peerClaim == Some(reports[i].end)
  }

  function ConfirmAgreement(t: Terms, p: Peer, them: string): bool {
    AllClean(p.reports) && AllAgreed(p.reports) && p.consensus == Some(ConsensusOf(t, p, them))
  }

  function AfterTurn(p: Peer, loop: Loop): Peer {
    p.(loop := loop,
       phase := if loop.pc.Done? then Auditing(false) else if loop.pc.Aborted? then Crashed else Playing)
  }

  /** One step of `me`: both peers afterwards, and whether the step was a fault. Sending
      writes the other's mailbox; an unacknowledged send may still have arrived. A step that
      does not fit the current phase changes nothing. */
  function PeerStep(t: Terms, me: Peer, you: Peer, act: Act): (Peer, Peer, Fault) {
    match act
    case Reset(githubCommit, nonce) =>
      if me.phase.Between? && me.epoch < t.games then
        var role := RoleFor(me.natural, me.epoch + 1);
        var opening := Sealed(Declaration(role, githubCommit), nonce);
        (me.(epoch := me.epoch + 1, phase := Negotiating(false), turns := map[], loop := Start(t.max, role, opening)),
         you, NoFault)
      else (me, you, NoFault)
    case SendOffer(acked) =>
      if me.phase.Negotiating? then
        (me.(phase := Negotiating(me.phase.sent || acked)), you.(offers := you.offers + {me.epoch}), NoFault)
      else (me, you, NoFault)
    case TakeOffer =>
      if me.phase == Negotiating(true) && me.epoch in me.offers then (AfterTurn(me, me.loop), you, NoFault)
      else (me, you, NoFault)
    case NegotiationExpires =>
      if me.phase.Negotiating? then (me.(phase := Crashed), you, NoFault) else (me, you, NoFault)
    case TakeTurn(choice) =>
      if me.phase.Playing? then
        var (loop, message) := LoopStep(t.max, me.epoch, me.loop, me.turns, choice);
        (AfterTurn(me, loop), you.(turns := Deliver(you.turns, message)),
         if loop.pc == Done(Timeout) || loop.pc.Aborted? then TurnFault else NoFault)
      else (me, you, NoFault)
    case SubmitAudit(acked) =>
      if me.phase.Auditing? && me.loop.pc.Done? then
        (me.(phase := Auditing(me.phase.sent || acked)), you.(audits := you.audits[me.epoch := EnvelopeOf(me)]), NoFault)
      else (me, you, NoFault)
    case TakeAudit =>
      if me.phase == Auditing(true) && me.epoch in me.audits && me.loop.pc.Done? then
        (me.(phase := Between, reports := me.reports + [ReportOn(me, me.audits[me.epoch])]), you, NoFault)
      else (me, you, NoFault)
    case AuditExpires =>
      if me.phase.Auditing? && me.loop.pc.Done? then
        var missing := Report(me.loop.role, me.loop.pc.result, false, false, None);
        (me.(phase := Between, reports := me.reports + [missing]), you, AuditFault)
      else (me, you, NoFault)
    case Settle =>
      if me.phase.Between? && me.epoch == t.games then (me.(phase := Settling(false)), you, NoFault)
      else (me, you, NoFault)
    case SubmitConsensus(acked) =>
      if me.phase.Settling? then
        (me.(phase := Settling(me.phase.sent || acked)),
         you.(consensus := Some(ConsensusOf(t, me, you.group))), NoFault)
      else (me, you, NoFault)
    case TakeConsensus =>
      if me.phase == Settling(true) && me.consensus.Some? then
        (me.(phase := Settled(ConfirmAgreement(t, me, you.group))), you, NoFault)
      else (me, you, NoFault)
    case ConsensusExpires =>
      if me.phase.Settling? then (me.(phase := Settled(false)), you, AuditFault) else (me, you, NoFault)
  }

  /** Both peers, with which kinds of fault have happened so far. */
  datatype World = World(a: Peer, b: Peer, turnFault: bool, auditFault: bool)

  /** `first` says which of the two peers acts. */
  datatype PeerEvent = PeerEvent(first: bool, act: Act)

  function WorldStep(t: Terms, w: World, e: PeerEvent): World {
    var (me, you) := if e.first then (w.a, w.b) else (w.b, w.a);
    var (me', you', fault) := PeerStep(t, me, you, e.act);
    World(if e.first then me' else you', if e.first then you' else me',
          w.turnFault || fault.TurnFault?, w.auditFault || fault.AuditFault?)
  }

  function Opening(ours: string, theirs: string, natural: Role): World {
    World(Unstarted(ours, natural), Unstarted(theirs, Opposite(natural)), false, false)
  }

  /** Any interleaving of the two peers is some sequence of events. */
  function RunSeries(t: Terms, w: World, events: seq<PeerEvent>): World {
    if events == [] then w else WorldStep(t, RunSeries(t, w, events[..|events| - 1]), events[|events| - 1])
  }
}
