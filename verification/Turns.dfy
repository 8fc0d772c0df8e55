/** What the two peers of a sub-game say to each other: roles, sealed payloads, live
    messages and disclosed records. */
module Turns {
  import opened Options
  import opened Geometry
  import Audit

  datatype Role = Thief | Police

  function Opposite(role: Role): Role {
    if role.Thief? then Police else Thief
  }

  /** Odd sub-games play the natural role, even ones the opposite. */
  function RoleFor(natural: Role, game: nat): Role {
    if game % 2 == 1 then natural else Opposite(natural)
  }

  /** Peers with complementary natural roles never meet in the same role. */
  lemma RolesStayComplementary(natural: Role, game: nat)
    ensures RoleFor(Opposite(natural), game) == Opposite(RoleFor(natural, game))
    ensures RoleFor(natural, game + 1) == Opposite(RoleFor(natural, game))
    ensures RoleFor(natural, 1) == natural
  {
  }

  datatype ClaimResponse = ClaimResponse(claim: Cell, caught: bool)

  datatype Payload =
    | Declaration(declarer: Role, githubCommit: Option<string>)
    | Turn(step: int, sender: Role, move: Option<Direction>, hint: string, smell: map<Cell, real>,
           barrier: Option<Cell>, claim: Option<Cell>, response: Option<ClaimResponse>, win: bool)
  {
    predicate SaysCaught() {
      Turn? && response.Some? && response.value.caught
    }

    predicate SaysSurvived() {
      Turn? && win
    }
  }

  /** A payload with the nonce it was sealed under. */
  datatype Sealed = Sealed(payload: Payload, nonce: string)

  /** The commit is a free constructor over what it commits to: an injective hash. */
  datatype Commit = Commit(of: Sealed)

  /** The live message: the public fields and the commit, never the move or the nonce.
      `game` is the sub-game the message was sent in; no step reads it. */
  datatype Message = Message(game: nat, step: int, sender: Role, hint: string, smell: map<Cell, real>,
                             barrier: Option<Cell>, claim: Option<Cell>, response: Option<ClaimResponse>,
                             win: bool, commit: Commit)
  {
    predicate SaysCaught() {
      response.Some? && response.value.caught
    }
  }

  function MessageOf(game: nat, s: Sealed): Message
    requires s.payload.Turn?
  {
    var p := s.payload;
    Message(game, p.step, p.sender, p.hint, p.smell, p.barrier, p.claim, p.response, p.win, Commit(s))
  }

  /** Answers a claim; `None` when no claim was made. */
  function BuildClaimResponse(claim: Option<Cell>, caught: bool): Option<ClaimResponse> {
    if claim.None? then None else Some(ClaimResponse(claim.value, caught))
  }

  // ---------- disclosure ----------

  type Record = Audit.Record<Payload, Commit>

  const SCHEME: Audit.Scheme<Payload, int, Commit> := Audit.Scheme(
      (p: Payload, nonce: string) => Commit(Sealed(p, nonce)),
      (p: Payload) => if p.Turn? then Some(p.step) else None,
      (p: Payload) => p.Declaration?)

  function Disclose(s: Sealed): Record {
    Audit.Record(Some(s.payload), Some(s.nonce), Commit(s))
  }

  function DiscloseAll(ss: seq<Sealed>): seq<Record> {
    seq(|ss|, i requires 0 <= i < |ss| => Disclose(ss[i]))
  }

  /** Turn records filtered out of the disclosure, then audited against the commits held. */
  function AuditOf(ss: seq<Sealed>, commits: map<int, Commit>): seq<Option<int>> {
    Audit.Mismatched(SCHEME, commits, Audit.TurnRecordsOnly(SCHEME, DiscloseAll(ss)))
  }

  /** The honest disclosure passes exactly when a matching commit is held for every turn in it. */
  lemma AuditCleanExactly(ss: seq<Sealed>, commits: map<int, Commit>)
    ensures AuditOf(ss, commits) == [] <==>
            forall i :: 0 <= i < |ss| && ss[i].payload.Turn? ==>
              ss[i].payload.step in commits && commits[ss[i].payload.step] == Commit(ss[i])
  {
    var all := DiscloseAll(ss);
    var turns := Audit.TurnRecordsOnly(SCHEME, all);
    Audit.TurnRecordsExactly(SCHEME, all);
    Audit.CleanExactly(SCHEME, commits, turns);
    forall i | 0 <= i < |ss|
      ensures Disclose(ss[i]) in all
      ensures ss[i].payload.Turn? <==> Disclose(ss[i]) in turns
      ensures ss[i].payload.Turn? ==>
                (Audit.Matches(SCHEME, commits, Disclose(ss[i])) <==>
                 ss[i].payload.step in commits && commits[ss[i].payload.step] == Commit(ss[i]))
    {
      assert all[i] == Disclose(ss[i]);
    }
    forall r | r in turns
      ensures exists i :: 0 <= i < |ss| && ss[i].payload.Turn? && r == Disclose(ss[i])
    {
      var i :| 0 <= i < |all| && all[i] == r;
    }
  }
}
