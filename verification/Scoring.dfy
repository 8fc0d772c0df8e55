/** Consensus rows, the consensus object both peers must agree on, and the series total. */
module Scoring {
  import opened Options
  import opened Turns
  import opened TurnLoop
  import Text

  datatype RowResult = Captured | Survived | TimedOut | TechnicalLoss | TamperForfeit

  function RowResultOf(end: GameResult, tampered: bool): RowResult {
    if tampered then TamperForfeit
    else match end
         case Capture => Captured
         case Survival => Survived
         case Timeout => TimedOut
  }

  /** The fixed point table. */
  function Points(result: RowResult, role: Role): int {
    match result
    case Captured => if role.Police? then 20 else 5
    case Survived => if role.Police? then 5 else 10
    case _ => 0
  }

  datatype Row = Row(number: nat, result: RowResult, roles: map<string, Role>, score: map<string, int>,
                     winner: Option<string>)

  function RowFor(number: nat, role: Role, result: RowResult, me: string, them: string): Row {
    var score := map[me := Points(result, role), them := Points(result, Opposite(role))];
    var winner := if score[me] == score[them] then None
                  else if score[them] < score[me] then Some(me) else Some(them);
    Row(number, result, map[me := role, them := Opposite(role)], score, winner)
  }

  /** The two sides of one sub-game write the same row. */
  lemma RowIsSymmetric(number: nat, role: Role, result: RowResult, me: string, them: string)
    requires me != them
    ensures RowFor(number, role, result, me, them) == RowFor(number, Opposite(role), result, them, me)
  {
    var mine := RowFor(number, role, result, me, them);
    var theirs := RowFor(number, Opposite(role), result, them, me);
    assert mine.roles == theirs.roles && mine.score == theirs.score;
  }

  /** What the row of a sub-game says: twenty and five points for a capture, five and ten for a
      survival, the winner being whoever played the role that prevailed; nothing to either side
      after a timeout or a disclosure that did not match. */
  predicate RowTells(row: Row, number: nat, role: Role, end: GameResult, tampered: bool, me: string, them: string)
    requires me != them
  {
    var police, thief := if role.Police? then me else them, if role.Police? then them else me;
    && row.number == number && row.roles == map[police := Police, thief := Thief]
    && (if tampered then row.result.TamperForfeit? && row.score == map[me := 0, them := 0] && row.winner.None?
        else match end
             case Capture => row.result.Captured? && row.score == map[police := 20, thief := 5] && row.winner == Some(police)
             case Survival => row.result.Survived? && row.score == map[police := 5, thief := 10] && row.winner == Some(thief)
             case Timeout => row.result.TimedOut? && row.score == map[me := 0, them := 0] && row.winner.None?)
  }

  lemma RowIsScored(number: nat, role: Role, end: GameResult, tampered: bool, me: string, them: string)
    requires me != them
    ensures RowTells(RowFor(number, role, RowResultOf(end, tampered), me, them), number, role, end, tampered, me, them)
  {
    PairOrder(me, role, them, Opposite(role));
    var result := RowResultOf(end, tampered);
    PairOrder(me, Points(result, role), them, Points(result, Opposite(role)));
  }

  // ---------- the consensus object ----------

  datatype Consensus = Consensus(gameId: string, gameUid: string, rows: seq<Row>)

  function GameId(a: string, b: string): string {
    Text.SortedPair(a, b).0 + "-vs-" + Text.SortedPair(a, b).1
  }

  /** What is hashed into the game uid: the canonical terms and the sorted group ids. */
  function GameUid(terms: string, a: string, b: string): string {
    terms + "|" + Text.SortedPair(a, b).0 + "|" + Text.SortedPair(a, b).1
  }

  lemma IdsAreOrderIndependent(terms: string, a: string, b: string)
    ensures GameId(a, b) == GameId(b, a) && GameUid(terms, a, b) == GameUid(terms, b, a)
  {
    Text.SortedPairSymmetric(a, b);
  }

  function Insert(row: Row, rows: seq<Row>): seq<Row> {
    if rows == [] || rows[|rows| - 1].number <= row.number then rows + [row]
    else Insert(row, rows[..|rows| - 1]) + [rows[|rows| - 1]]
  }

  /** Stable sort by sub-game number. */
  function SortRows(rows: seq<Row>): seq<Row> {
    if rows == [] then [] else Insert(rows[|rows| - 1], SortRows(rows[..|rows| - 1]))
  }

  function BuildConsensus(gameId: string, gameUid: string, rows: seq<Row>): Consensus {
    Consensus(gameId, gameUid, SortRows(rows))
  }

  predicate Ascending(rows: seq<Row>) {
    forall i, j :: 0 <= i < j < |rows| ==> rows[i].number < rows[j].number
  }

  predicate DistinctNumbers(rows: seq<Row>) {
    forall i, j :: 0 <= i < j < |rows| ==> rows[i].number != rows[j].number
  }

  lemma {:induction false} InsertSorts(row: Row, rows: seq<Row>)
    requires Ascending(rows)
    requires forall i :: 0 <= i < |rows| ==> rows[i].number != row.number
    ensures Ascending(Insert(row, rows))
    ensures forall r :: r in Insert(row, rows) <==> r == row || r in rows
  {
    if rows != [] && row.number < rows[|rows| - 1].number {
      var front, last := rows[..|rows| - 1], rows[|rows| - 1];
      InsertSorts(row, front);
      assert rows == front + [last];
      var inserted := Insert(row, front);
      forall i | 0 <= i < |inserted| ensures inserted[i].number < last.number {
        assert inserted[i] in inserted;
      }
    }
  }

  lemma {:induction false} SortRowsSorts(rows: seq<Row>)
    requires DistinctNumbers(rows)
    ensures Ascending(SortRows(rows))
    ensures forall r :: r in SortRows(rows) <==> r in rows
  {
    if rows != [] {
      var front, last := rows[..|rows| - 1], rows[|rows| - 1];
      SortRowsSorts(front);
      var sorted := SortRows(front);
      forall i | 0 <= i < |sorted| ensures sorted[i].number != last.number {
        assert sorted[i] in sorted;
      }
      InsertSorts(last, sorted);
      assert rows == front + [last];
    }
  }

  lemma LastInBoth(a: seq<Row>, b: seq<Row>)
    requires Ascending(a) && Ascending(b) && a != []
    requires forall r :: r in a <==> r in b
    ensures b != [] && a[|a| - 1] == b[|b| - 1]
  {
    var x := a[|a| - 1];
    assert x in a;
    var k :| 0 <= k < |b| && b[k] == x;
    var y := b[|b| - 1];
    assert y in b;
    var l :| 0 <= l < |a| && a[l] == y;
    assert k < |b| - 1 ==> x.number < y.number;
    assert l < |a| - 1 ==> y.number < x.number;
  }

  lemma WithoutLast(a: seq<Row>, r: Row)
    requires Ascending(a) && a != []
    ensures Ascending(a[..|a| - 1])
    ensures r in a[..|a| - 1] <==> r in a && r != a[|a| - 1]
  {
    var front, last := a[..|a| - 1], a[|a| - 1];
    assert a == front + [last];
    if r in front {
      var i :| 0 <= i < |front| && front[i] == r;
      assert a[i].number < last.number;
    }
  }

  lemma {:induction false} SortedUnique(a: seq<Row>, b: seq<Row>)
    requires Ascending(a) && Ascending(b)
    requires forall r :: r in a <==> r in b
    ensures a == b
  {
    assert b != [] ==> b[0] in b;
    if a != [] {
      LastInBoth(a, b);
      var a', b' := a[..|a| - 1], b[..|b| - 1];
      forall r ensures r in a' <==> r in b' {
        WithoutLast(a, r);
        WithoutLast(b, r);
      }
      WithoutLast(a, a[0]);
      WithoutLast(b, b[0]);
      SortedUnique(a', b');
      assert a == a' + [a[|a| - 1]] && b == b' + [b[|b| - 1]];
    }
  }

  /** The consensus object does not depend on the order in which the rows were collected. */
  lemma ConsensusIgnoresOrder(gameId: string, gameUid: string, a: seq<Row>, b: seq<Row>)
    requires DistinctNumbers(a) && DistinctNumbers(b)
    requires forall r :: r in a <==> r in b
    ensures BuildConsensus(gameId, gameUid, a) == BuildConsensus(gameId, gameUid, b)
  {
    SortRowsSorts(a);
    SortRowsSorts(b);
    SortedUnique(SortRows(a), SortRows(b));
  }

  // ---------- the series total ----------

  datatype FinalResult = FinalResult(total: map<string, int>, won: map<string, int>, ties: nat,
                                     winner: Option<string>, seriesTie: bool, reward: map<string, bool>)

  function Gained(rows: seq<Row>, group: string): int {
    if rows == [] then 0
    else
      var score := rows[|rows| - 1].score;
      Gained(rows[..|rows| - 1], group) + (if group in score then score[group] else 0)
  }

  function Won(rows: seq<Row>, winner: Option<string>): nat {
    if rows == [] then 0
    else Won(rows[..|rows| - 1], winner) + (if rows[|rows| - 1].winner == winner then 1 else 0)
  }

  function Settle(rows: seq<Row>, me: string, them: string, counted: bool, first: bool): FinalResult {
    var mine, theirs := Gained(rows, me), Gained(rows, them);
    var bonus := if mine == theirs then 2 else 0;
    var winner := if mine == theirs then None else if theirs < mine then Some(me) else Some(them);
    FinalResult(map[me := mine + bonus, them := theirs + bonus],
                map[me := Won(rows, Some(me)), them := Won(rows, Some(them))],
                Won(rows, None), winner, mine == theirs,
                map[me := counted && first && winner == Some(me), them := counted && first && winner == Some(them)])
  }

  predicate WinnersAmong(rows: seq<Row>, me: string, them: string) {
    forall i :: 0 <= i < |rows| ==> rows[i].winner in {None, Some(me), Some(them)}
  }

  /** The accumulation loop over the rows. */
  method Tally(rows: seq<Row>, me: string, them: string)
    returns (total: map<string, int>, won: map<string, int>, ties: nat)
    requires me != them && WinnersAmong(rows, me, them)
    ensures total.Keys == won.Keys == {me, them} && ties == Won(rows, None)
    ensures total[me] == Gained(rows, me) && total[them] == Gained(rows, them)
    ensures won[me] == Won(rows, Some(me)) && won[them] == Won(rows, Some(them))
  {
    total := map[me := 0, them := 0];
    won := map[me := 0, them := 0];
    ties := 0;
    for i := 0 to |rows|
      invariant total.Keys == won.Keys == {me, them} && ties == Won(rows[..i], None)
      invariant total[me] == Gained(rows[..i], me) && total[them] == Gained(rows[..i], them)
      invariant won[me] == Won(rows[..i], Some(me)) && won[them] == Won(rows[..i], Some(them))
    {
      assert rows[..i + 1][..i] == rows[..i];
      var row := rows[i];
      total := total[me := total[me] + if me in row.score then row.score[me] else 0];
      total := total[them := total[them] + if them in row.score then row.score[them] else 0];
      if row.winner.None? {
        ties := ties + 1;
      } else {
        won := won[row.winner.value := won[row.winner.value] + 1];
      }
    }
    assert rows[..|rows|] == rows;
  }

  lemma TwoKeys<V>(m: map<string, V>, a: string, b: string)
    requires m.Keys == {a, b}
    ensures m == map[a := m[a], b := m[b]]
  {
  }

  method ComputeFinalResult(rows: seq<Row>, me: string, them: string, counted: bool, first: bool)
    returns (result: FinalResult)
    requires me != them && WinnersAmong(rows, me, them)
    ensures result == Settle(rows, me, them, counted, first)
  {
    hide Gained, Won, WinnersAmong;
    var total, won, ties := Tally(rows, me, them);
    TwoKeys(won, me, them);
    var seriesTie, winner := total[me] == total[them], None;
    if seriesTie {
      total := map g | g in total :: total[g] + 2;
    } else {
      winner := if total[them] < total[me] then Some(me) else Some(them);
    }
    TwoKeys(total, me, them);
    var reward := RewardFor(me, them, counted && first, winner);
    result := FinalResult(total, won, ties, winner, seriesTie, reward);
  }

  method RewardFor(me: string, them: string, eligible: bool, winner: Option<string>) returns (reward: map<string, bool>)
    ensures reward == map[me := eligible && winner == Some(me), them := eligible && winner == Some(them)]
  {
    reward := map g | g in {me, them} :: eligible && Some(g) == winner;
  }

  lemma PairOrder<V>(a: string, x: V, b: string, y: V)
    requires a != b
    ensures map[a := x, b := y] == map[b := y, a := x]
  {
  }

  /** Both sides compute the same series result from the same rows. */
  lemma SettleIsSymmetric(rows: seq<Row>, me: string, them: string, counted: bool, first: bool)
    requires me != them
    ensures Settle(rows, me, them, counted, first) == Settle(rows, them, me, counted, first)
  {
    var f := Settle(rows, me, them, counted, first);
    PairOrder(me, f.total[me], them, f.total[them]);
    PairOrder(me, f.won[me], them, f.won[them]);
    PairOrder(me, f.reward[me], them, f.reward[them]);
  }

  /** Exactly one side is the series winner unless the raw totals tie, and then each gets 2. */
  lemma SettleIsZeroSumInHonour(rows: seq<Row>, me: string, them: string, counted: bool, first: bool)
    requires me != them && WinnersAmong(rows, me, them)
    ensures var f := Settle(rows, me, them, counted, first);
            && (f.seriesTie <==> f.winner.None?) && (f.seriesTie <==> f.total[me] == f.total[them])
            && f.won[me] + f.won[them] + f.ties == |rows|
            && f.total[me] + f.total[them] == Gained(rows, me) + Gained(rows, them) + (if f.seriesTie then 4 else 0)
  {
    WonPartitions(rows, me, them);
  }

  /** The winner is the group with the greater raw total, a tie adds two points to each side,
      and only the winner of a first counted meeting is rewarded. */
  lemma SettleNamesTheLeader(rows: seq<Row>, me: string, them: string, counted: bool, first: bool)
    requires me != them
    ensures var f, mine, theirs := Settle(rows, me, them, counted, first), Gained(rows, me), Gained(rows, them);
            && (f.winner == Some(me) <==> theirs < mine) && (f.winner == Some(them) <==> mine < theirs)
            && f.total.Keys == f.reward.Keys == {me, them}
            && f.total[me] == mine + (if mine == theirs then 2 else 0)
            && f.total[them] == theirs + (if mine == theirs then 2 else 0)
            && (f.reward[me] <==> counted && first && theirs < mine)
            && (f.reward[them] <==> counted && first && mine < theirs)
  {
    hide Gained, Won;
  }

  lemma {:induction false} WonPartitions(rows: seq<Row>, me: string, them: string)
    requires me != them && WinnersAmong(rows, me, them)
    ensures Won(rows, Some(me)) + Won(rows, Some(them)) + Won(rows, None) == |rows|
  {
    if rows != [] {
      WonPartitions(rows[..|rows| - 1], me, them);
      assert rows[|rows| - 1].winner in {None, Some(me), Some(them)};
    }
  }

  // ---------- the closed form ----------

  /** One played sub-game from one side's point of view. */
  datatype Played = Played(role: Role, result: RowResult)

  function RowsOf(played: seq<Played>, me: string, them: string): seq<Row> {
    seq(|played|, i requires 0 <= i < |played| => RowFor(i + 1, played[i].role, played[i].result, me, them))
  }

  function Count(played: seq<Played>, p: Played): nat {
    if played == [] then 0
    else Count(played[..|played| - 1], p) + (if played[|played| - 1] == p then 1 else 0)
  }

  /** My raw total minus theirs depends only on who captured and who survived in which role. */
  lemma {:induction false} LeadInClosedForm(played: seq<Played>, me: string, them: string)
    requires me != them
    ensures Gained(RowsOf(played, me, them), me) - Gained(RowsOf(played, me, them), them)
         == 15 * (Count(played, Played(Police, Captured)) - Count(played, Played(Thief, Captured)))
          + 5 * (Count(played, Played(Thief, Survived)) - Count(played, Played(Police, Survived)))
  {
    if played != [] {
      var front, last := played[..|played| - 1], played[|played| - 1];
      LeadInClosedForm(front, me, them);
      assert RowsOf(played, me, them)[..|played| - 1] == RowsOf(front, me, them);
      assert RowsOf(played, me, them)[|played| - 1] == RowFor(|played|, last.role, last.result, me, them);
    }
  }

  /** The role of the i-th sub-game, all with one result. */
  function Alternating(natural: Role, games: nat, result: RowResult): seq<Played> {
    seq(games, i requires 0 <= i < games => Played(RoleFor(natural, i + 1), result))
  }

  lemma {:induction false} AlternatingCounts(natural: Role, games: nat, result: RowResult, other: RowResult)
    requires games % 2 == 0
    ensures Count(Alternating(natural, games, result), Played(Police, other))
         == Count(Alternating(natural, games, result), Played(Thief, other))
  {
    if games != 0 {
      AlternatingCounts(natural, games - 2, result, other);
      var all := Alternating(natural, games, result);
      assert all[..games - 1][..games - 2] == Alternating(natural, games - 2, result);
      RolesStayComplementary(natural, games - 1);
    }
  }

  /** An even alternating series in which every sub-game ends the same way is a tie. */
  lemma RepeatedResultTies(natural: Role, games: nat, result: RowResult, me: string, them: string,
                           counted: bool, first: bool)
    requires me != them && games % 2 == 0
    ensures var rows := RowsOf(Alternating(natural, games, result), me, them);
            var f := Settle(rows, me, them, counted, first);
            f.seriesTie && f.winner == None && f.total[me] == f.total[them] && !f.reward[me] && !f.reward[them]
  {
    LeadInClosedForm(Alternating(natural, games, result), me, them);
    AlternatingCounts(natural, games, result, Captured);
    AlternatingCounts(natural, games, result, Survived);
  }

  /** The ids spelled out: the smaller group first. */
  lemma IdsSpelledOut()
    ensures GameId("b", "a") == "a-vs-b" && GameUid("{}", "b", "a") == "{}|a|b"
  {
    assert Text.LessEq("a", "b") && !Text.LessEq("b", "a");
  }
}
