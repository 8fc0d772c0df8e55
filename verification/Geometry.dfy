/** The pursuit grid: cells, the orthogonal move set, one peer's own mutable state
    and the three capture conditions. */
module Geometry {
  import opened Options

  /** (row, column); rows grow downwards from the top-left corner. */
  type Cell = (int, int)

  datatype Direction = N | S | E | W

  /** A direction, or `None` for STAY, with the cell it leads to. */
  type Move = (Option<Direction>, Cell)

  const ORTHOGONALS: seq<Direction> := [N, S, E, W]

  function Target(cell: Cell, d: Direction): Cell {
    match d
    case N => (cell.0 - 1, cell.1)
    case S => (cell.0 + 1, cell.1)
    case E => (cell.0, cell.1 + 1)
    case W => (cell.0, cell.1 - 1)
  }

  /** The board refuses a size that is not positive. */
  type Size = n: int | n > 0 witness 1

  predicate InBounds(size: Size, cell: Cell) {
    0 <= cell.0 < size && 0 <= cell.1 < size
  }

  function Abs(x: int): nat {
    if x < 0 then -x else x
  }

  function Distance(a: Cell, b: Cell): nat {
    Abs(a.0 - b.0) + Abs(a.1 - b.1)
  }

  // ---------- legal moves ----------

  predicate Open(size: Size, barriers: set<Cell>, cell: Cell) {
    InBounds(size, cell) && cell !in barriers
  }

  function OpenMoves(size: Size, barriers: set<Cell>, from: Cell, ds: seq<Direction>): seq<Move> {
    if ds == [] then []
    else
      var rest := OpenMoves(size, barriers, from, ds[..|ds| - 1]);
      var d := ds[|ds| - 1];
      if Open(size, barriers, Target(from, d)) then rest + [(Some(d), Target(from, d))] else rest
  }

  /** Every open orthogonal step in table order, then STAY. */
  function LegalMoves(size: Size, barriers: set<Cell>, from: Cell): seq<Move> {
    OpenMoves(size, barriers, from, ORTHOGONALS) + [(None, from)]
  }

  /** The list-building loop computes `LegalMoves`. */
  method ListLegalMoves(size: Size, barriers: set<Cell>, from: Cell) returns (moves: seq<Move>)
    ensures moves == LegalMoves(size, barriers, from)
  {
    moves := [];
    for i := 0 to |ORTHOGONALS|
      invariant moves == OpenMoves(size, barriers, from, ORTHOGONALS[..i])
    {
      assert ORTHOGONALS[..i + 1][..i] == ORTHOGONALS[..i];
      var target := Target(from, ORTHOGONALS[i]);
      if Open(size, barriers, target) {
        moves := moves + [(Some(ORTHOGONALS[i]), target)];
      }
    }
    assert ORTHOGONALS[..|ORTHOGONALS|] == ORTHOGONALS;
    moves := moves + [(None, from)];
  }

  lemma {:induction false} OpenMovesMembers(size: Size, barriers: set<Cell>, from: Cell, ds: seq<Direction>)
    ensures |OpenMoves(size, barriers, from, ds)| <= |ds|
    ensures forall m :: m in OpenMoves(size, barriers, from, ds) <==>
              m.0.Some? && m.0.value in ds && m.1 == Target(from, m.0.value) && Open(size, barriers, m.1)
  {
    if ds != [] {
      var front, d := ds[..|ds| - 1], ds[|ds| - 1];
      OpenMovesMembers(size, barriers, from, front);
      assert ds == front + [d];
    }
  }

  /** Exactly the open orthogonal steps and STAY; never fewer than one nor more than five. */
  lemma LegalMovesExact(size: Size, barriers: set<Cell>, from: Cell)
    ensures 1 <= |LegalMoves(size, barriers, from)| <= 5
    ensures forall m :: m in LegalMoves(size, barriers, from) <==>
              || m == (None, from)
              || (m.0.Some? && m.1 == Target(from, m.0.value) && Open(size, barriers, m.1))
  {
    OpenMovesMembers(size, barriers, from, ORTHOGONALS);
    forall d: Direction ensures d in ORTHOGONALS {
      assert ORTHOGONALS == [N, S, E, W];
      match d case N => case S => case E => case W =>
    }
  }

  /** Every legal move changes the Manhattan distance to any cell by at most one. */
  lemma LegalMoveIsShort(size: Size, barriers: set<Cell>, from: Cell, m: Move, other: Cell)
    requires m in LegalMoves(size, barriers, from)
    ensures Distance(from, other) - 1 <= Distance(m.1, other) <= Distance(from, other) + 1
    ensures InBounds(size, from) ==> InBounds(size, m.1)
  {
    LegalMovesExact(size, barriers, from);
  }

  /** Distance counts orthogonal steps: it is zero only on the cell itself, every step changes
      it by one, and some step always brings the other cell one nearer. */
  lemma DistanceCountsSteps(a: Cell, b: Cell)
    ensures Distance(a, b) == 0 <==> a == b
    ensures forall d: Direction ::
              Distance(Target(a, d), b) == Distance(a, b) - 1 || Distance(Target(a, d), b) == Distance(a, b) + 1
    ensures a != b ==> exists d: Direction :: Distance(Target(a, d), b) == Distance(a, b) - 1
  {
    if a != b {
      var d := if b.0 < a.0 then N else if a.0 < b.0 then S else if a.1 < b.1 then E else W;
      assert Distance(Target(a, d), b) == Distance(a, b) - 1;
    }
  }

  // ---------- one peer's own state ----------

  class OwnGameState {
    var position: Cell
    var visited: set<Cell>
    var knownBarriers: set<Cell>
    var stepCount: nat

    constructor (start: Cell)
      ensures position == start && visited == {} && knownBarriers == {} && stepCount == 0
    {
      position, visited, knownBarriers, stepCount := start, {}, {}, 0;
    }

    /** Moves only when the direction is legal; an illegal one leaves every field as it was. */
    method ApplyMove(direction: Option<Direction>, size: Size) returns (legal: bool)
      modifies this
      ensures legal <==> direction.None? || Open(size, old(knownBarriers), Target(old(position), direction.value))
      ensures !legal ==> unchanged(this)
      ensures legal ==>
                && position == (if direction.None? then old(position) else Target(old(position), direction.value))
                && visited == old(visited) + {old(position)}
                && stepCount == old(stepCount) + 1
                && knownBarriers == old(knownBarriers)
    {
      var moves := ListLegalMoves(size, knownBarriers, position);
      LegalMovesExact(size, knownBarriers, position);
      ghost var wanted := (direction, if direction.None? then position else Target(position, direction.value));
      assert direction.None? || Open(size, knownBarriers, wanted.1) ==> wanted in moves;
      var i := 0;
      while i < |moves| && moves[i].0 != direction
        invariant 0 <= i <= |moves|
        invariant forall j :: 0 <= j < i ==> moves[j].0 != direction
      {
        i := i + 1;
      }
      if i == |moves| {
        assert wanted !in moves;
        return false;
      }
      assert moves[i] in moves;
      visited := visited + {position};
      position := moves[i].1;
      stepCount := stepCount + 1;
      return true;
    }

    method RecordBarrier(cell: Cell)
      modifies this`knownBarriers
      ensures knownBarriers == old(knownBarriers) + {cell}
    {
      knownBarriers := knownBarriers + {cell};
    }
  }

  // ---------- capture ----------

  /** No legal direction is left, only STAY. */
  predicate CapturedByStuck(size: Size, barriers: set<Cell>, position: Cell) {
    forall m :: m in LegalMoves(size, barriers, position) ==> m.0.None?
  }

  /** Landing (A) and a barrier on the own cell (B) look at this turn's message; being
      boxed in (C) looks at every barrier learned so far. */
  predicate EvaluateCapture(size: Size, barriers: set<Cell>, position: Cell,
                            claim: Option<Cell>, barrierPlaced: Option<Cell>)
  {
    if claim.Some? && claim.value == position then true
    else if barrierPlaced.Some? && barrierPlaced.value == position then true
    else CapturedByStuck(size, barriers, position)
  }

  /** Condition C in terms of the board: all four neighbours are walls or barriers. */
  lemma StuckExactly(size: Size, barriers: set<Cell>, position: Cell)
    ensures CapturedByStuck(size, barriers, position) <==>
            forall d: Direction :: !Open(size, barriers, Target(position, d))
  {
    LegalMovesExact(size, barriers, position);
    if d: Direction :| Open(size, barriers, Target(position, d)) {
      assert (Some(d), Target(position, d)) in LegalMoves(size, barriers, position);
    }
  }

  /** Off the board, or a barrier. */
  predicate Closed(size: Size, barriers: set<Cell>, row: int, column: int) {
    row < 0 || size <= row || column < 0 || size <= column || (row, column) in barriers
  }

  predicate Enclosed(size: Size, barriers: set<Cell>, at: Cell) {
    && Closed(size, barriers, at.0 - 1, at.1) && Closed(size, barriers, at.0 + 1, at.1)
    && Closed(size, barriers, at.0, at.1 - 1) && Closed(size, barriers, at.0, at.1 + 1)
  }

  /** The verdict in terms of the board: the cell is claimed, the cell is walled over, or all
      four cells around it are closed. */
  lemma CaughtExactly(size: Size, barriers: set<Cell>, position: Cell, claim: Option<Cell>, barrierPlaced: Option<Cell>)
    ensures EvaluateCapture(size, barriers, position, claim, barrierPlaced) <==>
            claim == Some(position) || barrierPlaced == Some(position) || Enclosed(size, barriers, position)
  {
    StuckExactly(size, barriers, position);
    assert Enclosed(size, barriers, position) <==>
           forall d: Direction :: !Open(size, barriers, Target(position, d)) by {
      assert Target(position, N) == (position.0 - 1, position.1) && Target(position, S) == (position.0 + 1, position.1);
      assert Target(position, E) == (position.0, position.1 + 1) && Target(position, W) == (position.0, position.1 - 1);
      forall d: Direction | Enclosed(size, barriers, position) ensures !Open(size, barriers, Target(position, d)) {
        match d case N => case S => case E => case W =>
      }
    }
  }

  /** A verdict of "caught" cannot be taken back by learning further barriers. */
  lemma CaptureIsMonotone(size: Size, fewer: set<Cell>, more: set<Cell>, position: Cell,
                          claim: Option<Cell>, barrierPlaced: Option<Cell>)
    requires fewer <= more
    requires EvaluateCapture(size, fewer, position, claim, barrierPlaced)
    ensures EvaluateCapture(size, more, position, claim, barrierPlaced)
  {
    StuckExactly(size, fewer, position);
    StuckExactly(size, more, position);
  }
}
