/** The adaptive Thief: every legal cell is scored by the Cop's best plausible reply, with a
    penalty inside the danger radius, and near-ties are broken by sampling. */
module Brain {
  import opened Options
  import opened Geometry

  const TIE_MARGIN := 0.000001
  const DANGER_RADIUS := 1
  const DANGER_PENALTY := 1000.0
  const DISTANCE_WEIGHT := 1.0
  const MOBILITY_WEIGHT := 1.5
  const RECENCY_WEIGHT := 0.01

  /** Up to this many turns recency can never outweigh danger. */
  const TURN_LIMIT := 99_498

  function CellsOf(moves: seq<Move>): seq<Cell> {
    seq(|moves|, i requires 0 <= i < |moves| => moves[i].1)
  }

  /** Where the Cop could be after its reply: the estimate and every legal step from it. */
  function Replies(size: Size, estimate: Cell): (cells: seq<Cell>)
    ensures cells != [] && cells[0] == estimate
  {
    [estimate] + CellsOf(LegalMoves(size, {}, estimate))
  }

  function WorstDistance(cell: Cell, replies: seq<Cell>): nat
    requires replies != []
  {
    var d := Distance(cell, replies[|replies| - 1]);
    if |replies| == 1 then d
    else
      var rest := WorstDistance(cell, replies[..|replies| - 1]);
      if d < rest then d else rest
  }

  lemma {:induction false} WorstDistanceIsMinimum(cell: Cell, replies: seq<Cell>)
    requires replies != []
    ensures forall r :: r in replies ==> WorstDistance(cell, replies) <= Distance(cell, r)
    ensures exists r :: r in replies && WorstDistance(cell, replies) == Distance(cell, r)
  {
    var last := replies[|replies| - 1];
    assert last in replies;
    if 1 < |replies| {
      var front := replies[..|replies| - 1];
      WorstDistanceIsMinimum(cell, front);
      assert replies == front + [last];
    }
  }

  /** No plausible reply comes within the danger radius. */
  predicate Safe(size: Size, estimate: Cell, cell: Cell) {
    DANGER_RADIUS < WorstDistance(cell, Replies(size, estimate))
  }

  type Visits = map<Cell, int>

  function Score(size: Size, barriers: set<Cell>, estimate: Cell, visits: Visits, cell: Cell): real {
    var worst := WorstDistance(cell, Replies(size, estimate));
    var danger := if worst <= DANGER_RADIUS then DANGER_PENALTY else 0.0;
    var mobility := |LegalMoves(size, barriers, cell)|;
    var recency := if cell in visits then visits[cell] else -1;
    DISTANCE_WEIGHT * worst as real + MOBILITY_WEIGHT * mobility as real - danger - RECENCY_WEIGHT * recency as real
  }

  predicate VisitsUpTo(visits: Visits, turn: int) {
    forall cell :: cell in visits ==> 1 <= visits[cell] <= turn
  }

  /** Danger dominates every other term. */
  lemma SafeBeatsDanger(size: Size, barriers: set<Cell>, estimate: Cell, visits: Visits, turn: int, safe: Cell, risky: Cell)
    requires VisitsUpTo(visits, turn) && 0 <= turn <= TURN_LIMIT
    requires Safe(size, estimate, safe) && !Safe(size, estimate, risky)
    ensures Score(size, barriers, estimate, visits, risky) + TIE_MARGIN < Score(size, barriers, estimate, visits, safe)
  {
    LegalMovesExact(size, barriers, safe);
    LegalMovesExact(size, barriers, risky);
  }

  // ---------- sampling among near-ties ----------

  /** A candidate with its score. */
  type Scored = (real, Move)

  predicate NearBest(scored: seq<Scored>, item: Scored) {
    forall i :: 0 <= i < |scored| ==> scored[i].0 - TIE_MARGIN <= item.0
  }

  function Cumulative(weights: seq<real>, k: nat): real
    requires k <= |weights|
  {
    if k == 0 then 0.0 else Cumulative(weights, k - 1) + weights[k - 1]
  }

  function WeightsOf(weigh: real -> real, tied: seq<Scored>): seq<real> {
    seq(|tied|, i requires 0 <= i < |tied| => weigh(tied[i].0))
  }

  lemma {:induction false} CumulativePositive(weights: seq<real>, k: nat)
    requires k <= |weights| && forall i :: 0 <= i < |weights| ==> 0.0 < weights[i]
    ensures 0.0 <= Cumulative(weights, k) && (0 < k ==> 0.0 < Cumulative(weights, k))
  {
    if 0 < k {
      CumulativePositive(weights, k - 1);
    }
  }

  method BestScore(scored: seq<Scored>) returns (best: real)
    requires scored != []
    ensures exists i :: 0 <= i < |scored| && scored[i].0 == best
    ensures forall i :: 0 <= i < |scored| ==> scored[i].0 <= best
  {
    best := scored[0].0;
    for i := 1 to |scored|
      invariant exists j :: 0 <= j < |scored| && scored[j].0 == best
      invariant forall j :: 0 <= j < i ==> scored[j].0 <= best
    {
      if best < scored[i].0 {
        best := scored[i].0;
      }
    }
  }

  /** The candidates within the margin of `best`, in order. */
  function TiedWith(scored: seq<Scored>, best: real): seq<Scored> {
    if scored == [] then []
    else
      var rest, last := TiedWith(scored[..|scored| - 1], best), scored[|scored| - 1];
      if best - TIE_MARGIN <= last.0 then rest + [last] else rest
  }

  lemma {:induction false} TiedExactly(scored: seq<Scored>, best: real)
    ensures forall item :: item in TiedWith(scored, best) <==> item in scored && best - TIE_MARGIN <= item.0
  {
    if scored != [] {
      var front, last := scored[..|scored| - 1], scored[|scored| - 1];
      TiedExactly(front, best);
      assert scored == front + [last];
    }
  }

  /** The candidates keep their order: those of a list are those of its front, then those of the
      rest, each kept if it is within a millionth of the best. */
  lemma {:induction false} TiedInOrder(a: seq<Scored>, b: seq<Scored>, best: real)
    ensures TiedWith(a + b, best) == TiedWith(a, best) + TiedWith(b, best)
    ensures |b| == 1 ==> TiedWith(b, best) == if best - 0.000001 <= b[0].0 then b else []
  {
    if b == [] {
      assert a + b == a;
    } else {
      TiedInOrder(a, b[..|b| - 1], best);
      assert (a + b)[..|a + b| - 1] == a + b[..|b| - 1];
      assert |b| == 1 ==> b == [b[0]] && TiedWith(b[..0], best) == [];
    }
  }

  method Tied(scored: seq<Scored>, best: real) returns (tied: seq<Scored>)
    ensures tied == TiedWith(scored, best)
  {
    tied := [];
    for i := 0 to |scored|
      invariant tied == TiedWith(scored[..i], best)
    {
      assert scored[..i + 1][..i] == scored[..i];
      if best - TIE_MARGIN <= scored[i].0 {
        tied := tied + [scored[i]];
      }
    }
    assert scored[..|scored|] == scored;
  }

  lemma Proportion(draw: real, total: real)
    requires 0.0 <= draw < 1.0 && 0.0 < total
    ensures 0.0 <= draw * total < total
  {
    assert (1.0 - draw) * total > 0.0;
  }

  /** A uniform draw scaled to the total weight. */
  function Portion(draw: real, total: real): (pick: real)
    requires 0.0 <= draw < 1.0 && 0.0 < total
    ensures 0.0 <= pick < total
  {
    Proportion(draw, total);
    draw * total
  }

  /** The walk along the cumulative weights: each candidate owns an interval as long as its
      weight, and a draw below the total always falls into one of them. */
  method Sample(weights: seq<real>, pick: real) returns (k: nat)
    requires weights != [] && 0.0 <= pick < Cumulative(weights, |weights|)
    ensures k < |weights| && pick <= Cumulative(weights, k + 1)
    ensures 0 < k ==> Cumulative(weights, k) < pick
  {
    var cumulative := 0.0;
    k := 0;
    while k < |weights|
      invariant k <= |weights| && cumulative == Cumulative(weights, k)
      invariant 0 < k ==> cumulative < pick
    {
      cumulative := cumulative + weights[k];
      if pick <= cumulative {
        return;
      }
      k := k + 1;
    }
  }

  predicate IsBest(scored: seq<Scored>, best: real) {
    (exists i :: 0 <= i < |scored| && scored[i].0 == best) && forall i :: 0 <= i < |scored| ==> scored[i].0 <= best
  }

  /** Candidate `k` owns the draw: the scaled draw falls into its stretch of the weights. */
  predicate OwnsDraw(weights: seq<real>, k: nat, draw: real)
    requires k < |weights| && 0.0 <= draw < 1.0 && 0.0 < Cumulative(weights, |weights|)
  {
    var pick := Portion(draw, Cumulative(weights, |weights|));
    (0 < k ==> Cumulative(weights, k) < pick) && pick <= Cumulative(weights, k + 1)
  }

  /** `picked` is the near-best candidate the draw selects; a single one needs no draw. */
  ghost predicate Selects(scored: seq<Scored>, weigh: real -> real, draw: real, best: real, k: nat, picked: Scored) {
    var tied := TiedWith(scored, best);
    var weights := WeightsOf(weigh, tied);
    && IsBest(scored, best) && k < |tied| && picked == tied[k]
    && (1 < |tied| ==> 0.0 <= draw < 1.0 && 0.0 < Cumulative(weights, |weights|) && OwnsDraw(weights, k, draw))
  }

  /** Picks among the candidates within the margin of the best score, by their weights. */
  method SoftmaxPick(scored: seq<Scored>, weigh: real -> real, draw: real) returns (picked: Option<Scored>)
    requires (forall x :: 0.0 < weigh(x)) && 0.0 <= draw < 1.0
    ensures picked.None? <==> scored == []
    ensures picked.Some? ==> exists best, k :: Selects(scored, weigh, draw, best, k, picked.value)
    ensures picked.Some? ==> picked.value in scored && NearBest(scored, picked.value)
  {
    if scored == [] {
      return None;
    }
    var best := BestScore(scored);
    assert IsBest(scored, best);
    var tied := Tied(scored, best);
    TiedExactly(scored, best);
    ghost var top :| 0 <= top < |scored| && scored[top].0 == best;
    assert scored[top] in scored && scored[top] in tied;
    var k := 0;
    if |tied| != 1 {
      var weights := WeightsOf(weigh, tied);
      CumulativePositive(weights, |weights|);
      assert 0 < |tied| == |weights|;
      var total := Cumulative(weights, |weights|);
      k := Sample(weights, Portion(draw, total));
      assert OwnsDraw(weights, k, draw);
    }
    assert tied[k] in tied;
    assert Selects(scored, weigh, draw, best, k, tied[k]);
    picked := Some(tied[k]);
  }

  function ScoredMoves(size: Size, barriers: set<Cell>, estimate: Cell, visits: Visits, moves: seq<Move>): seq<Scored> {
    seq(|moves|, i requires 0 <= i < |moves| => (Score(size, barriers, estimate, visits, moves[i].1), moves[i]))
  }

  /** A near-best candidate is a move, nothing outscores it by more than the margin, and it is
      safe if any candidate is. */
  lemma ChoiceIsGood(size: Size, barriers: set<Cell>, estimate: Cell, visits: Visits, moves: seq<Move>, turn: nat,
                     picked: Scored)
    requires VisitsUpTo(visits, turn)
    requires picked in ScoredMoves(size, barriers, estimate, visits, moves)
    requires NearBest(ScoredMoves(size, barriers, estimate, visits, moves), picked)
    ensures picked.1 in moves
    ensures forall m :: m in moves ==>
              Score(size, barriers, estimate, visits, m.1) - TIE_MARGIN <= Score(size, barriers, estimate, visits, picked.1.1)
    ensures turn <= TURN_LIMIT && (exists m :: m in moves && Safe(size, estimate, m.1)) ==> Safe(size, estimate, picked.1.1)
  {
    hide Score, Safe, VisitsUpTo;
    var scored := ScoredMoves(size, barriers, estimate, visits, moves);
    var k :| 0 <= k < |scored| && scored[k] == picked;
    assert moves[k] == picked.1;
    forall m | m in moves
      ensures Score(size, barriers, estimate, visits, m.1) - TIE_MARGIN <= Score(size, barriers, estimate, visits, picked.1.1)
      ensures turn <= TURN_LIMIT && Safe(size, estimate, m.1) ==> Safe(size, estimate, picked.1.1)
    {
      var j :| 0 <= j < |moves| && moves[j] == m;
      assert scored[j].0 - TIE_MARGIN <= picked.0;
      if turn <= TURN_LIMIT && Safe(size, estimate, m.1) && !Safe(size, estimate, picked.1.1) {
        SafeBeatsDanger(size, barriers, estimate, visits, turn, m.1, picked.1.1);
      }
    }
  }

  class AdaptiveThiefBrain {
    var lastVisitedTurn: Visits
    var turn: nat

    predicate Valid()
      reads this
    {
      VisitsUpTo(lastVisitedTurn, turn)
    }

    constructor ()
      ensures Valid() && turn == 0
    {
      lastVisitedTurn, turn := map[], 0;
    }

    /** One decision. Whenever some candidate is safe from every plausible reply, so is the
        one chosen. */
    method PickMove(size: Size, moves: seq<Move>, position: Cell, barriers: set<Cell>, estimate: Cell,
                    weigh: real -> real, draw: real)
      returns (move: Move)
      requires Valid() && (forall x :: 0.0 < weigh(x)) && 0.0 <= draw < 1.0
      modifies this
      ensures Valid() && turn == old(turn) + 1
      ensures moves == [] ==> move == (None, position) && lastVisitedTurn == old(lastVisitedTurn)
      ensures moves != [] ==> move in moves && lastVisitedTurn == old(lastVisitedTurn)[move.1 := turn]
      ensures moves != [] ==> exists best, k, s ::
                Selects(ScoredMoves(size, barriers, estimate, old(lastVisitedTurn), moves), weigh, draw, best, k, (s, move))
      ensures forall m :: m in moves ==>
                Score(size, barriers, estimate, old(lastVisitedTurn), m.1) - TIE_MARGIN
                  <= Score(size, barriers, estimate, old(lastVisitedTurn), move.1)
      ensures old(turn) <= TURN_LIMIT && (exists m :: m in moves && Safe(size, estimate, m.1)) ==>
                Safe(size, estimate, move.1)
    {
      var scored: seq<Scored> := [];
      for i := 0 to |moves|
        invariant |scored| == i && lastVisitedTurn == old(lastVisitedTurn)
        invariant forall j :: 0 <= j < i ==>
                    scored[j] == (Score(size, barriers, estimate, lastVisitedTurn, moves[j].1), moves[j])
      {
        scored := scored + [(Score(size, barriers, estimate, lastVisitedTurn, moves[i].1), moves[i])];
      }
      hide Score, Safe, TiedWith, NearBest, VisitsUpTo;
      assert scored == ScoredMoves(size, barriers, estimate, lastVisitedTurn, moves);
      var picked := SoftmaxPick(scored, weigh, draw);
      turn := turn + 1;
      if picked.None? {
        return (None, position);
      }
      move := picked.value.1;
      ChoiceIsGood(size, barriers, estimate, lastVisitedTurn, moves, old(turn), picked.value);
      lastVisitedTurn := lastVisitedTurn[move.1 := turn];
    }
  }

  /** Among the legal moves there is a safe one whenever the believed Cop is at least three
      steps away: staying put. */
  lemma FarCopLeavesSafeMove(size: Size, barriers: set<Cell>, position: Cell, estimate: Cell)
    requires 3 <= Distance(position, estimate)
    ensures (None, position) in LegalMoves(size, barriers, position) && Safe(size, estimate, position)
  {
    LegalMovesExact(size, barriers, position);
    var replies := Replies(size, estimate);
    WorstDistanceIsMinimum(position, replies);
    var r :| r in replies && WorstDistance(position, replies) == Distance(position, r);
    if r != estimate {
      var moves := LegalMoves(size, {}, estimate);
      var i :| 0 <= i < |moves| && CellsOf(moves)[i] == r;
      LegalMoveIsShort(size, {}, estimate, moves[i], position);
    }
  }

  /** The choice made over the legal moves keeps at least two steps from every reply the
      believed Cop has, if any legal move does. */
  lemma ChosenIsSafe(size: Size, barriers: set<Cell>, position: Cell, estimate: Cell, visits: Visits, turn: nat, chosen: Move)
    requires VisitsUpTo(visits, turn) && turn <= TURN_LIMIT
    requires chosen in LegalMoves(size, barriers, position)
    requires forall m :: m in LegalMoves(size, barriers, position) ==>
               Score(size, barriers, estimate, visits, m.1) - TIE_MARGIN <= Score(size, barriers, estimate, visits, chosen.1)
    ensures (exists m :: m in LegalMoves(size, barriers, position) && Safe(size, estimate, m.1)) ==>
              forall r :: r in Replies(size, estimate) ==> 2 <= Distance(chosen.1, r)
    ensures 3 <= Distance(position, estimate) ==>
              forall r :: r in Replies(size, estimate) ==> 2 <= Distance(chosen.1, r)
  {
    WorstDistanceIsMinimum(chosen.1, Replies(size, estimate));
    if 3 <= Distance(position, estimate) {
      FarCopLeavesSafeMove(size, barriers, position, estimate);
    }
    if !Safe(size, estimate, chosen.1) {
      forall m | m in LegalMoves(size, barriers, position) ensures !Safe(size, estimate, m.1) {
        if Safe(size, estimate, m.1) {
          SafeBeatsDanger(size, barriers, estimate, visits, turn, m.1, chosen.1);
        }
      }
    }
  }

  // ---------- what the score weighs ----------

  /** The Cop's plausible replies: its believed cell and every cell of the board next to it, known
      barriers notwithstanding. */
  lemma RepliesExactly(size: Size, estimate: Cell, cell: Cell)
    ensures cell in Replies(size, estimate) <==> cell == estimate || (InBounds(size, cell) && Distance(cell, estimate) == 1)
  {
    var moves := LegalMoves(size, {}, estimate);
    LegalMovesExact(size, {}, estimate);
    var cells := CellsOf(moves);
    if cell in cells {
      var i :| 0 <= i < |cells| && cells[i] == cell;
      assert moves[i] in moves;
    }
    if InBounds(size, cell) && Distance(cell, estimate) == 1 {
      var d := if cell.0 < estimate.0 then N else if estimate.0 < cell.0 then S else if cell.1 < estimate.1 then W else E;
      assert (Some(d), cell) in moves;
      var i :| 0 <= i < |moves| && moves[i] == (Some(d), cell);
      assert cells[i] == cell;
    }
  }

  function OpenAt(size: Size, barriers: set<Cell>, row: int, column: int): nat {
    if Closed(size, barriers, row, column) then 0 else 1
  }

  /** How many of the four cells around are open. */
  function Exits(size: Size, barriers: set<Cell>, cell: Cell): nat {
    OpenAt(size, barriers, cell.0 - 1, cell.1) + OpenAt(size, barriers, cell.0 + 1, cell.1)
    + OpenAt(size, barriers, cell.0, cell.1 - 1) + OpenAt(size, barriers, cell.0, cell.1 + 1)
  }

  lemma OpenMovesUnfold(size: Size, barriers: set<Cell>, from: Cell, ds: seq<Direction>, d: Direction)
    ensures |OpenMoves(size, barriers, from, ds + [d])|
         == |OpenMoves(size, barriers, from, ds)| + (if Open(size, barriers, Target(from, d)) then 1 else 0)
  {
    assert (ds + [d])[..|ds|] == ds;
  }

  lemma MovesAreExits(size: Size, barriers: set<Cell>, cell: Cell)
    ensures |LegalMoves(size, barriers, cell)| == 1 + Exits(size, barriers, cell)
  {
    OpenMovesUnfold(size, barriers, cell, [], N);
    OpenMovesUnfold(size, barriers, cell, [N], S);
    OpenMovesUnfold(size, barriers, cell, [N, S], E);
    OpenMovesUnfold(size, barriers, cell, [N, S, E], W);
    assert [] + [N] == [N] && [N] + [S] == [N, S] && [N, S] + [E] == [N, S, E] && [N, S, E] + [W] == ORTHOGONALS;
  }

  /** `d` is the distance from the cell to the nearest of the Cop's plausible replies. */
  ghost predicate Nearest(size: Size, estimate: Cell, cell: Cell, d: nat) {
    && (forall r :: r == estimate || (InBounds(size, r) && Distance(r, estimate) == 1) ==> d <= Distance(cell, r))
    && (exists r :: (r == estimate || (InBounds(size, r) && Distance(r, estimate) == 1)) && d == Distance(cell, r))
  }

  lemma NearestIsWorst(size: Size, estimate: Cell, cell: Cell, d: nat)
    requires Nearest(size, estimate, cell, d)
    ensures WorstDistance(cell, Replies(size, estimate)) == d
  {
    var replies := Replies(size, estimate);
    WorstDistanceIsMinimum(cell, replies);
    var r :| r in replies && WorstDistance(cell, replies) == Distance(cell, r);
    RepliesExactly(size, estimate, r);
    var q :| (q == estimate || (InBounds(size, q) && Distance(q, estimate) == 1)) && d == Distance(cell, q);
    RepliesExactly(size, estimate, q);
  }

  /** What one cell is worth over another: a point for each step further from the nearest reply,
      one and a half for each further exit, a hundredth for each turn it was left alone longer,
      and a thousand for being out of reach when the other is not. */
  lemma ScoreTrades(size: Size, barriers: set<Cell>, estimate: Cell, visits: Visits, a: Cell, b: Cell, da: nat, db: nat)
    requires Nearest(size, estimate, a, da) && Nearest(size, estimate, b, db)
    ensures var last := (cell: Cell) => if cell in visits then visits[cell] else -1;
            Score(size, barriers, estimate, visits, a) - Score(size, barriers, estimate, visits, b)
              == (da - db) as real + 1.5 * (Exits(size, barriers, a) - Exits(size, barriers, b)) as real
                 - 0.01 * (last(a) - last(b)) as real
                 - (if da <= 1 then 1000.0 else 0.0) + (if db <= 1 then 1000.0 else 0.0)
  {
    NearestIsWorst(size, estimate, a, da);
    NearestIsWorst(size, estimate, b, db);
    MovesAreExits(size, barriers, a);
    MovesAreExits(size, barriers, b);
    hide WorstDistance, Replies, LegalMoves, Exits, Nearest;
  }
}
