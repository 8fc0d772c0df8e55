/** The series driver of one side: play each sub-game, audit what the peer disclosed, collect
    rows and verdicts, and settle. What it accumulates is what `Series` files. */
module SeriesLoop {
  import opened Options
  import opened Turns
  import opened TurnLoop
  import opened Scoring
  import opened Series
  import Audit

  /** How a played sub-game ended, and the commits seen live. */
  datatype Outcome = Outcome(end: GameResult, peerCommits: map<int, Commit>)

  /** What the peer disclosed; a claim that is none of the three results is `None`. */
  datatype Disclosure = Disclosure(records: seq<Record>, claim: Option<GameResult>)

  /** The outside of a series: the outcome of sub-game n, and the peer's audit of it unless
      the wait for it ran out. */
  datatype SeriesOutside = SeriesOutside(outcome: nat -> Outcome, audit: nat -> Option<Disclosure>)

  function ReportFor(role: Role, o: Outcome, audit: Option<Disclosure>): Report {
    if audit.None? then Report(role, o.end, false, false, None)
    else
      var clean := Audit.Mismatched(SCHEME, o.peerCommits, Audit.TurnRecordsOnly(SCHEME, audit.value.records)) == [];
      Report(role, o.end, clean, !clean, audit.value.claim)
  }

  function ReportsOf(natural: Role, out: SeriesOutside, games: nat): seq<Report> {
    seq(games, i requires 0 <= i < games => ReportFor(RoleFor(natural, i + 1), out.outcome(i + 1), out.audit(i + 1)))
  }

  /** The report of the series model is the one the driver files for an honest disclosure. */
  lemma HonestReport(p: Peer, envelope: Envelope)
    requires p.loop.pc.Done?
    ensures ReportOn(p, envelope) == ReportFor(p.loop.role, Outcome(p.loop.pc.result, p.loop.peerCommits),
                                               Some(Disclosure(DiscloseAll(envelope.records), Some(envelope.claim))))
  {
  }

  method VerifyDisclosure(o: Outcome, d: Disclosure) returns (verified: bool, tampered: bool)
    ensures verified == !tampered
    ensures verified <==> Audit.Mismatched(SCHEME, o.peerCommits, Audit.TurnRecordsOnly(SCHEME, d.records)) == []
  {
    var turns := Audit.TurnRecordsOnly(SCHEME, d.records);
    var mismatched;
    verified, tampered, mismatched := Audit.VerifyPeerRecords(SCHEME, turns, o.peerCommits);
    Audit.CleanExactly(SCHEME, o.peerCommits, turns);
  }

  method AgreeOnAll(reports: seq<Report>) returns (agreed: bool)
    ensures agreed == AllAgreed(reports)
  {
    for i := 0 to |reports|
      invariant forall j :: 0 <= j < i ==> reports[j].peerClaim == Some(reports[j].end)
    {
      if reports[i].peerClaim != Some(reports[i].end) {
        return false;
      }
    }
    agreed := true;
  }

  /** The driver's loop. A sub-game whose audit never arrived is unverified, not tampered, and
      still gets its row; agreement needs every audit clean, every result confirmed by the peer
      and the peer's digest equal to the own one. */
  method PlaySeries(t: Terms, me: string, them: string, natural: Role, out: SeriesOutside, peerDigest: Option<Consensus>)
    returns (rows: seq<Row>, reports: seq<Report>, consensus: Consensus, agreed: bool)
    ensures reports == ReportsOf(natural, out, t.games)
    ensures rows == RowsOf(PlayedOf(reports), me, them)
    ensures consensus == BuildConsensus(GameId(me, them), GameUid(t.text, me, them), rows)
    ensures agreed <==> AllClean(reports) && AllAgreed(reports) && peerDigest == Some(consensus)
    ensures me != them ==> RowsTell(natural, out, rows, t.games, me, them) && consensus.rows == rows
    ensures agreed <==> AllConfirmed(out, t.games) && peerDigest == Some(consensus)
  {
    hide Audit.Mismatched, Audit.TurnRecordsOnly, BuildConsensus;
    rows, reports := [], [];
    var allClean := true;
    for n := 0 to t.games
      invariant reports == ReportsOf(natural, out, n)
      invariant rows == RowsOf(PlayedOf(reports), me, them)
      invariant allClean == AllClean(reports)
    {
      var role := RoleFor(natural, n + 1);
      var outcome, audit := out.outcome(n + 1), out.audit(n + 1);
      var verified, tampered := false, false;
      var claim: Option<GameResult> := None;
      if audit.Some? {
        verified, tampered := VerifyDisclosure(outcome, audit.value);
        claim := audit.value.claim;
      }
      allClean := allClean && verified;
      var report := Report(role, outcome.end, verified, tampered, claim);
      ReportsGrow(reports, report);
      RowsGrow(PlayedOf(reports), Played(role, RowResultOf(outcome.end, tampered)), me, them);
      rows := rows + [RowFor(n + 1, role, RowResultOf(outcome.end, tampered), me, them)];
      reports := reports + [report];
    }
    consensus := BuildConsensus(GameId(me, them), GameUid(t.text, me, them), rows);
    var allAgreed := AgreeOnAll(reports);
    agreed := allClean && allAgreed && peerDigest == Some(consensus);
    hide ReportsOf, RowsOf, PlayedOf, AllClean, AllAgreed, RowsTell, AllConfirmed;
    if me != them {
      RowsTellAll(natural, out, t.games, me, them);
      RowsStayInOrder(PlayedOf(reports), me, them, GameId(me, them), GameUid(t.text, me, them));
    }
    AgreedMeansConfirmed(natural, out, t.games);
  }

  // ---------- what the rows and the verdict say of the outside ----------

  /** The disclosed record is a turn, or at least no declaration, and is not what was committed
      to live for its step. */
  predicate Falsified(o: Outcome, r: Record) {
    && !(r.payload.Some? && r.payload.value.Declaration?)
    && !(&& r.payload.Some? && r.nonce.Some? && r.payload.value.step in o.peerCommits
         && o.peerCommits[r.payload.value.step] == Commit(Sealed(r.payload.value, r.nonce.value)))
  }

  /** The peer disclosed something it had not committed to. */
  predicate Tampered(o: Outcome, audit: Option<Disclosure>) {
    audit.Some? && exists r :: r in audit.value.records && Falsified(o, r)
  }

  lemma TamperedExactly(o: Outcome, d: Disclosure)
    ensures Tampered(o, Some(d)) <==> Audit.Mismatched(SCHEME, o.peerCommits, Audit.TurnRecordsOnly(SCHEME, d.records)) != []
  {
    var turns := Audit.TurnRecordsOnly(SCHEME, d.records);
    Audit.TurnRecordsExactly(SCHEME, d.records);
    Audit.CleanExactly(SCHEME, o.peerCommits, turns);
    forall r: Record
      ensures Falsified(o, r) <==> Audit.IsTurnRecord(SCHEME, r) && !Audit.Matches(SCHEME, o.peerCommits, r)
    {
    }
    hide Falsified, Audit.Matches, Audit.IsTurnRecord, Audit.Mismatched, Audit.TurnRecordsOnly;
  }

  /** Every row tells how its sub-game ended and whether the peer tampered. */
  ghost predicate RowsTell(natural: Role, out: SeriesOutside, rows: seq<Row>, games: nat, me: string, them: string)
    requires me != them
  {
    && |rows| == games
    && forall i :: 0 <= i < games ==>
         RowTells(rows[i], i + 1, RoleFor(natural, i + 1), out.outcome(i + 1).end,
                  Tampered(out.outcome(i + 1), out.audit(i + 1)), me, them)
  }

  /** Every audit arrived, disclosed nothing but what was committed to, and confirms the end. */
  ghost predicate AllConfirmed(out: SeriesOutside, games: nat) {
    forall n :: 1 <= n <= games ==> Confirmed(out.outcome(n), out.audit(n))
  }

  predicate Confirmed(o: Outcome, audit: Option<Disclosure>) {
    audit.Some? && !Tampered(o, audit) && audit.value.claim == Some(o.end)
  }

  lemma ReportTells(role: Role, o: Outcome, audit: Option<Disclosure>)
    ensures var report := ReportFor(role, o, audit);
            && report.role == role && report.end == o.end && (report.tampered <==> Tampered(o, audit))
            && (report.verified && report.peerClaim == Some(report.end) <==> Confirmed(o, audit))
  {
    if audit.Some? {
      TamperedExactly(o, audit.value);
    }
    hide Tampered, Audit.Mismatched, Audit.TurnRecordsOnly;
  }

  lemma RowsTellAll(natural: Role, out: SeriesOutside, games: nat, me: string, them: string)
    requires me != them
    ensures RowsTell(natural, out, RowsOf(PlayedOf(ReportsOf(natural, out, games)), me, them), games, me, them)
  {
    hide RowTells, ReportFor, Tampered, RowFor, RoleFor;
    var reports := ReportsOf(natural, out, games);
    var rows := RowsOf(PlayedOf(reports), me, them);
    forall i | 0 <= i < games
      ensures RowTells(rows[i], i + 1, RoleFor(natural, i + 1), out.outcome(i + 1).end,
                       Tampered(out.outcome(i + 1), out.audit(i + 1)), me, them)
    {
      ReportTells(RoleFor(natural, i + 1), out.outcome(i + 1), out.audit(i + 1));
      RowIsScored(i + 1, reports[i].role, reports[i].end, reports[i].tampered, me, them);
    }
  }

  /** The rows are collected in order, so that sorting them changes nothing. */
  lemma RowsStayInOrder(played: seq<Played>, me: string, them: string, id: string, uid: string)
    ensures BuildConsensus(id, uid, RowsOf(played, me, them)).rows == RowsOf(played, me, them)
  {
    var rows := RowsOf(played, me, them);
    SortRowsSorts(rows);
    hide RowFor;
    SortedUnique(SortRows(rows), rows);
  }

  lemma AgreedMeansConfirmed(natural: Role, out: SeriesOutside, games: nat)
    ensures var reports := ReportsOf(natural, out, games);
            AllClean(reports) && AllAgreed(reports) <==> AllConfirmed(out, games)
  {
    hide ReportFor, Confirmed;
    var reports := ReportsOf(natural, out, games);
    forall n | 1 <= n <= games
      ensures reports[n - 1].verified && reports[n - 1].peerClaim == Some(reports[n - 1].end)
         <==> Confirmed(out.outcome(n), out.audit(n))
    {
      ReportTells(RoleFor(natural, n), out.outcome(n), out.audit(n));
    }
    if AllClean(reports) && AllAgreed(reports) {
      forall n | 1 <= n <= games ensures Confirmed(out.outcome(n), out.audit(n)) {
        assert reports[n - 1].verified;
      }
    }
    if AllConfirmed(out, games) {
      forall i | 0 <= i < games ensures reports[i].verified && reports[i].peerClaim == Some(reports[i].end) {
        assert Confirmed(out.outcome(i + 1), out.audit(i + 1));
      }
    }
  }

  /** How many of the first `games` sub-games were played in `role`, ended with `end` and were
      not forfeited by tampering. */
  function Ended(natural: Role, out: SeriesOutside, games: nat, role: Role, end: GameResult): nat {
    if games == 0 then 0
    else
      var o := out.outcome(games);
      Ended(natural, out, games - 1, role, end)
      + (if RoleFor(natural, games) == role && o.end == end && !Tampered(o, out.audit(games)) then 1 else 0)
  }

  /** What a row adds to each side's total. */
  lemma RowGains(row: Row, number: nat, role: Role, end: GameResult, tampered: bool, me: string, them: string)
    requires me != them && RowTells(row, number, role, end, tampered, me, them)
    ensures me in row.score && them in row.score
    ensures row.score[me] == if tampered || end.Timeout? then 0
                             else if end.Capture? then if role.Police? then 20 else 5
                             else if role.Police? then 5 else 10
    ensures row.score[them] == if tampered || end.Timeout? then 0
                               else if end.Capture? then if role.Police? then 5 else 20
                               else if role.Police? then 10 else 5
  {
  }

  lemma TellsBefore(natural: Role, out: SeriesOutside, rows: seq<Row>, games: nat, me: string, them: string)
    requires me != them && 1 <= games && RowsTell(natural, out, rows, games, me, them)
    ensures RowsTell(natural, out, rows[..games - 1], games - 1, me, them)
    ensures RowTells(rows[games - 1], games, RoleFor(natural, games), out.outcome(games).end,
                     Tampered(out.outcome(games), out.audit(games)), me, them)
  {
    hide RowTells, Tampered, RoleFor;
    assert RowTells(rows[games - 1], games - 1 + 1, RoleFor(natural, games - 1 + 1), out.outcome(games - 1 + 1).end,
                    Tampered(out.outcome(games - 1 + 1), out.audit(games - 1 + 1)), me, them);
  }

  /** Both raw totals, from how the sub-games ended: twenty points for each capture made and
      five for each suffered, ten for each survival and five for each allowed. */
  lemma {:induction false} TotalsInClosedForm(natural: Role, out: SeriesOutside, rows: seq<Row>, games: nat, me: string, them: string)
    requires me != them && RowsTell(natural, out, rows, games, me, them)
    ensures Gained(rows, me)
         == 20 * Ended(natural, out, games, Police, Capture) + 5 * Ended(natural, out, games, Thief, Capture)
          + 10 * Ended(natural, out, games, Thief, Survival) + 5 * Ended(natural, out, games, Police, Survival)
    ensures Gained(rows, them)
         == 20 * Ended(natural, out, games, Thief, Capture) + 5 * Ended(natural, out, games, Police, Capture)
          + 10 * Ended(natural, out, games, Police, Survival) + 5 * Ended(natural, out, games, Thief, Survival)
  {
    if games != 0 {
      TellsBefore(natural, out, rows, games, me, them);
      assert |rows| == games;
      hide Tampered, RoleFor, RowsTell, RowTells;
      TotalsInClosedForm(natural, out, rows[..games - 1], games - 1, me, them);
      var o := out.outcome(games);
      RowGains(rows[games - 1], games, RoleFor(natural, games), o.end, Tampered(o, out.audit(games)), me, them);
    }
  }

  lemma ReportsGrow(reports: seq<Report>, report: Report)
    ensures PlayedOf(reports + [report]) == PlayedOf(reports) + [Played(report.role, RowResultOf(report.end, report.tampered))]
    ensures AllClean(reports + [report]) <==> AllClean(reports) && report.verified
  {
    var all := reports + [report];
    assert all[|reports|] == report;
    assert forall i :: 0 <= i < |reports| ==> all[i] == reports[i];
  }

  lemma RowsGrow(played: seq<Played>, last: Played, me: string, them: string)
    ensures RowsOf(played + [last], me, them)
         == RowsOf(played, me, them) + [RowFor(|played| + 1, last.role, last.result, me, them)]
  {
  }

  /** Two drivers that filed untampered reports with the same ends, in complementary roles,
      build one consensus object. */
  lemma DriversBuildOneConsensus(t: Terms, me: string, them: string, natural: Role, mine: seq<Report>, theirs: seq<Report>)
    requires me != them && |mine| == |theirs|
    requires forall i :: 0 <= i < |mine| ==>
               && mine[i].role == RoleFor(natural, i + 1) && theirs[i].role == RoleFor(Opposite(natural), i + 1)
               && mine[i].end == theirs[i].end && !mine[i].tampered && !theirs[i].tampered
    ensures BuildConsensus(GameId(me, them), GameUid(t.text, me, them), RowsOf(PlayedOf(mine), me, them))
         == BuildConsensus(GameId(them, me), GameUid(t.text, them, me), RowsOf(PlayedOf(theirs), them, me))
  {
    hide BuildConsensus, GameId, GameUid;
    IdsAreOrderIndependent(t.text, me, them);
    var a, b := RowsOf(PlayedOf(mine), me, them), RowsOf(PlayedOf(theirs), them, me);
    forall i | 0 <= i < |a| ensures a[i] == b[i] {
      RolesStayComplementary(natural, i + 1);
      RowIsSymmetric(i + 1, mine[i].role, RowResultOf(mine[i].end, false), me, them);
    }
    assert a == b;
  }

  /** A capture is won by the Police of that sub-game and a survival by its Thief. */
  lemma {:induction false} WinsInClosedForm(natural: Role, out: SeriesOutside, rows: seq<Row>, games: nat, me: string, them: string)
    requires me != them && RowsTell(natural, out, rows, games, me, them)
    ensures Won(rows, Some(me)) == Ended(natural, out, games, Police, Capture) + Ended(natural, out, games, Thief, Survival)
    ensures Won(rows, Some(them)) == Ended(natural, out, games, Thief, Capture) + Ended(natural, out, games, Police, Survival)
  {
    if games != 0 {
      TellsBefore(natural, out, rows, games, me, them);
      assert |rows| == games;
      hide Tampered, RoleFor, RowsTell;
      WinsInClosedForm(natural, out, rows[..games - 1], games - 1, me, them);
    }
  }
}
