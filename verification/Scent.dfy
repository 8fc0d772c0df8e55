/** The scent trail a mover leaves: each turn everything held decays, a fixed 5x5 kernel is
    added around the mover, and the sum is capped. Intensities are exact reals. */
module Scent {
  import opened Geometry
  import opened Reals

  type Field = map<Cell, real>

  /** Board size, kernel, cap, and the share of an intensity that one decay keeps: 1 - rho. */
  datatype Settings = Settings(size: Size, kernel: Kernel, center: real, keep: real)

  /** The kernel as printed, for a centre intensity of 0.9. */
  function ReferenceKernel(dr: int, dc: int): real {
    var far, near := if Abs(dr) < Abs(dc) then Abs(dc) else Abs(dr), if Abs(dr) < Abs(dc) then Abs(dr) else Abs(dc);
    match (far, near)
    case (0, 0) => 0.90
    case (1, 0) => 0.62
    case (1, 1) => 0.42
    case (2, 0) => 0.20
    case (2, 1) => 0.14
    case _ => 0.04
  }

  type Kernel = map<(int, int), real>

  function Offsets(): set<(int, int)> {
    set dr: int, dc: int | -2 <= dr <= 2 && -2 <= dc <= 2 :: (dr, dc)
  }

  /** The kernel scaled to another centre intensity. */
  function ScaledKernel(center: real): Kernel {
    map o: (int, int) | o in Offsets() :: ReferenceKernel(o.0, o.1) * (center / 0.9)
  }

  /** All that the trail needs of a kernel: it covers 5x5 offsets, each deposit is positive,
      and the centre deposit alone reaches the cap. */
  ghost predicate KernelOk(kernel: Kernel, center: real) {
    && (forall o {:trigger o in kernel} :: o in kernel <==> -2 <= o.0 <= 2 && -2 <= o.1 <= 2)
    && (forall o {:trigger kernel[o]} :: o in kernel ==> 0.0 < kernel[o])
    && kernel[(0, 0)] == center
  }

  lemma ReferencePositive(dr: int, dc: int)
    ensures 0.04 <= ReferenceKernel(dr, dc)
  {
  }

  lemma ScaledKernelOk(center: real)
    requires 0.0 < center
    ensures KernelOk(ScaledKernel(center), center)
  {
    var kernel := ScaledKernel(center);
    var k := center / 0.9;
    forall o: (int, int)
      ensures o in kernel <==> -2 <= o.0 <= 2 && -2 <= o.1 <= 2
      ensures o in kernel ==> 0.0 < kernel[o]
    {
      assert o == (o.0, o.1);
      ReferencePositive(o.0, o.1);
      PositiveProduct(ReferenceKernel(o.0, o.1), k);
    }
    assert 0.9 * k == center;
    assert (0, 0) in kernel;
  }

  /** The kernel as printed, row by row. */
  const PRINTED: seq<seq<real>> := [
    [0.04, 0.14, 0.20, 0.14, 0.04],
    [0.14, 0.42, 0.62, 0.42, 0.14],
    [0.20, 0.62, 0.90, 0.62, 0.20],
    [0.14, 0.42, 0.62, 0.42, 0.14],
    [0.04, 0.14, 0.20, 0.14, 0.04]]

  lemma ReferenceAsPrinted(dr: int, dc: int)
    requires -2 <= dr <= 2 && -2 <= dc <= 2
    ensures ReferenceKernel(dr, dc) == PRINTED[dr + 2][dc + 2]
  {
  }

  /** All 25 values: those printed, in proportion to the centre intensity. */
  lemma KernelAsPrinted(center: real, dr: int, dc: int)
    requires -2 <= dr <= 2 && -2 <= dc <= 2
    ensures (dr, dc) in ScaledKernel(center)
    ensures ScaledKernel(center)[(dr, dc)] == PRINTED[dr + 2][dc + 2] * (center / 0.9)
    ensures center == 0.9 ==> ScaledKernel(center)[(dr, dc)] == PRINTED[dr + 2][dc + 2]
  {
    ReferenceAsPrinted(dr, dc);
    assert (dr, dc) in Offsets();
    hide ReferenceKernel;
    var printed := PRINTED[dr + 2][dc + 2];
    assert printed * 1.0 == printed;
  }

  predicate Near(a: Cell, b: Cell) {
    Abs(a.0 - b.0) <= 2 && Abs(a.1 - b.1) <= 2
  }

  function RowCells(r: int, columns: nat): set<Cell> {
    if columns == 0 then {} else RowCells(r, columns - 1) + {(r, columns - 1)}
  }

  function Rectangle(rows: nat, columns: nat): set<Cell> {
    if rows == 0 then {} else Rectangle(rows - 1, columns) + RowCells(rows - 1, columns)
  }

  lemma {:induction false} RowCellsExact(r: int, columns: nat, cell: Cell)
    ensures cell in RowCells(r, columns) <==> cell.0 == r && 0 <= cell.1 < columns
  {
    if columns != 0 {
      RowCellsExact(r, columns - 1, cell);
    }
  }

  lemma {:induction false} RectangleExact(rows: nat, columns: nat, cell: Cell)
    ensures cell in Rectangle(rows, columns) <==> 0 <= cell.0 < rows && 0 <= cell.1 < columns
  {
    if rows != 0 {
      RectangleExact(rows - 1, columns, cell);
      RowCellsExact(rows - 1, columns, cell);
    }
  }

  /** The window of the kernel around a cell, clipped to the board. */
  function Window(size: Size, at: Cell): set<Cell> {
    set cell | cell in Rectangle(size, size) && Near(cell, at)
  }

  lemma WindowIsNear(size: Size, at: Cell, cell: Cell)
    ensures cell in Window(size, at) <==> InBounds(size, cell) && Near(cell, at)
  {
    RectangleExact(size, size, cell);
  }

  function Kept(f: Field, keep: real, cell: Cell): real {
    if cell in f then f[cell] * keep else 0.0
  }

  function DepositAt(kernel: Kernel, at: Cell, cell: Cell): real {
    var o := (cell.0 - at.0, cell.1 - at.1);
    if o in kernel then kernel[o] else 0.0
  }

  /** Decay, deposit, cap: the value one advance leaves in a cell. */
  function Level(s: Settings, f: Field, at: Cell, cell: Cell): real {
    var added := if InBounds(s.size, cell) && Near(cell, at) then DepositAt(s.kernel, at, cell) else 0.0;
    Min(s.center, Max(0.0, Kept(f, s.keep, cell) + added))
  }

  function Advanced(s: Settings, f: Field, at: Cell): Field {
    map cell | cell in f.Keys + Window(s.size, at) && 0.0 < Level(s, f, at, cell) :: Level(s, f, at, cell)
  }

  // ---------- the field ----------

  /** `decayed` after the offsets before (dr, dc), row by row, have been deposited. */
  ghost predicate Deposited(s: Settings, f: Field, decayed: Field, at: Cell, dr: int, dc: int) {
    forall cell: Cell {:trigger cell in decayed} ::
      var done := InBounds(s.size, cell) && Near(cell, at)
                  && (cell.0 - at.0 < dr || (cell.0 - at.0 == dr && cell.1 - at.1 < dc));
      && (cell in decayed <==> cell in f || done)
      && (cell in decayed ==>
            decayed[cell] == Kept(f, s.keep, cell) + (if done then DepositAt(s.kernel, at, cell) else 0.0))
  }

  function Deposit(s: Settings, decayed: Field, at: Cell, dr: int, dc: int): Field {
    var cell := (at.0 + dr, at.1 + dc);
    if InBounds(s.size, cell) then
      decayed[cell := (if cell in decayed then decayed[cell] else 0.0) + DepositAt(s.kernel, at, cell)]
    else decayed
  }

  lemma DepositStep(s: Settings, f: Field, decayed: Field, at: Cell, dr: int, dc: int)
    requires Deposited(s, f, decayed, at, dr, dc) && -2 <= dr <= 2 && -2 <= dc <= 2
    ensures Deposited(s, f, Deposit(s, decayed, at, dr, dc), at, dr, dc + 1)
  {
    var here := (at.0 + dr, at.1 + dc);
    assert here in decayed <==> here in f;
  }

  lemma NextRow(s: Settings, f: Field, decayed: Field, at: Cell, dr: int)
    requires Deposited(s, f, decayed, at, dr, 3)
    ensures Deposited(s, f, decayed, at, dr + 1, -2)
  {
  }

  /** Clamped to the cap, empty cells dropped. */
  function Capped(s: Settings, decayed: Field): Field {
    var clamped: Field := map cell | cell in decayed :: Min(s.center, Max(0.0, decayed[cell]));
    map cell | cell in clamped && 0.0 < clamped[cell] :: clamped[cell]
  }

  lemma DepositedAll(s: Settings, f: Field, decayed: Field, at: Cell)
    requires Deposited(s, f, decayed, at, 3, -2)
    ensures Capped(s, decayed) == Advanced(s, f, at)
  {
    forall cell: Cell
      ensures cell in decayed <==> cell in f.Keys + Window(s.size, at)
      ensures cell in decayed ==> Min(s.center, Max(0.0, decayed[cell])) == Level(s, f, at, cell)
    {
      WindowIsNear(s.size, at, cell);
    }
  }

  /** The positive part of a field, as a snapshot discloses it. */
  function Shown(f: Field): Field {
    map cell | cell in f && 0.0 < f[cell] :: f[cell]
  }

  class ScentField {
    const settings: Settings
    var field: Field

    constructor (size: Size, centerIntensity: real, decayRate: real)
      ensures settings == Settings(size, ScaledKernel(centerIntensity), centerIntensity, 1.0 - decayRate)
      ensures field == map[]
    {
      settings := Settings(size, ScaledKernel(centerIntensity), centerIntensity, 1.0 - decayRate);
      field := map[];
    }

    /** The kernel loop adds its deposits to the decayed field cell by cell. */
    method Advance(mover: Cell)
      modifies this`field
      ensures field == Advanced(settings, old(field), mover)
    {
      ghost var f := field;
      var decayed: Field := map cell | cell in field :: Kept(field, settings.keep, cell);
      for dr := -2 to 3
        invariant Deposited(settings, f, decayed, mover, dr, -2)
      {
        for dc := -2 to 3
          invariant Deposited(settings, f, decayed, mover, dr, dc)
        {
          DepositStep(settings, f, decayed, mover, dr, dc);
          decayed := Deposit(settings, decayed, mover, dr, dc);
        }
        NextRow(settings, f, decayed, mover, dr);
      }
      DepositedAll(settings, f, decayed, mover);
      field := Capped(settings, decayed);
    }

    /** Replaces the field by an opponent's own report of its whole trail. */
    method Absorb(cells: Field)
      modifies this`field
      ensures field == cells
    {
      field := cells;
    }

    function Snapshot(): Field
      reads this
    {
      Shown(field)
    }
  }

  // ---------- a whole trail ----------

  /** The field after advancing along a path from an empty field. */
  function Trail(s: Settings, path: seq<Cell>): Field {
    if path == [] then map[]
    else Advanced(s, Trail(s, path[..|path| - 1]), path[|path| - 1])
  }

  function Pow(x: real, n: nat): real {
    if n == 0 then 1.0 else x * Pow(x, n - 1)
  }

  predicate OnBoard(size: Size, path: seq<Cell>) {
    forall i :: 0 <= i < |path| ==> InBounds(size, path[i])
  }

  ghost predicate Proper(s: Settings) {
    0.0 < s.center && 0.0 < s.keep <= 1.0 && KernelOk(s.kernel, s.center)
  }

  predicate Bounded(f: Field, center: real) {
    forall cell {:trigger f[cell]} :: cell in f ==> 0.0 < f[cell] <= center
  }

  lemma Shrink(x: real, k: real, bound: real)
    requires 0.0 < x <= bound && 0.0 < k <= 1.0
    ensures 0.0 < x * k <= bound
  {
    ScaleMonotone(k, 1.0, x);
  }

  lemma KeptBounds(f: Field, keep: real, center: real, cell: Cell)
    requires 0.0 < keep <= 1.0 && 0.0 < center && (cell in f ==> 0.0 < f[cell] <= center)
    ensures 0.0 <= Kept(f, keep, cell) <= center
    ensures cell in f ==> 0.0 < Kept(f, keep, cell)
  {
    if cell in f {
      Shrink(f[cell], keep, center);
    }
  }

  lemma DepositBounds(s: Settings, at: Cell, cell: Cell)
    requires Proper(s)
    ensures Near(cell, at) ==> 0.0 < DepositAt(s.kernel, at, cell)
    ensures DepositAt(s.kernel, at, at) == s.center
  {
    assert Near(cell, at) ==> (cell.0 - at.0, cell.1 - at.1) in s.kernel;
    assert (0, 0) in s.kernel;
  }

  /** One advance adds exactly the clipped window to the support, keeps every value in
      (0, center] and leaves exactly the centre value under the mover. */
  lemma AdvanceShape(s: Settings, f: Field, at: Cell)
    requires Proper(s) && InBounds(s.size, at) && Bounded(f, s.center)
    ensures Advanced(s, f, at).Keys == f.Keys + Window(s.size, at)
    ensures Bounded(Advanced(s, f, at), s.center)
    ensures at in Advanced(s, f, at) && Advanced(s, f, at)[at] == s.center
    ensures forall cell :: cell in f ==> Kept(f, s.keep, cell) <= Advanced(s, f, at)[cell]
  {
    forall cell | cell in f.Keys + Window(s.size, at)
      ensures 0.0 < Level(s, f, at, cell) <= s.center
      ensures cell in f ==> Kept(f, s.keep, cell) <= Level(s, f, at, cell)
    {
      WindowIsNear(s.size, at, cell);
      KeptBounds(f, s.keep, s.center, cell);
      DepositBounds(s, at, cell);
    }
    WindowIsNear(s.size, at, at);
    KeptBounds(f, s.keep, s.center, at);
    DepositBounds(s, at, at);
  }

  lemma {:induction false} TrailBounded(s: Settings, path: seq<Cell>)
    requires Proper(s) && OnBoard(s.size, path)
    ensures Bounded(Trail(s, path), s.center)
  {
    if path != [] {
      TrailBounded(s, path[..|path| - 1]);
      AdvanceShape(s, Trail(s, path[..|path| - 1]), path[|path| - 1]);
    }
  }

  ghost predicate Smelled(path: seq<Cell>, cell: Cell) {
    exists i :: 0 <= i < |path| && Near(cell, path[i])
  }

  lemma SmelledExtends(path: seq<Cell>, cell: Cell)
    requires path != []
    ensures Smelled(path, cell) <==> Smelled(path[..|path| - 1], cell) || Near(cell, path[|path| - 1])
  {
    var front := path[..|path| - 1];
    if Smelled(front, cell) {
      var i :| 0 <= i < |front| && Near(cell, front[i]);
      assert Near(cell, path[i]);
    }
    if i :| 0 <= i < |path| && Near(cell, path[i]) {
      assert i < |front| ==> Near(cell, front[i]);
    }
  }

  /** The trail's support is exactly the clipped 5x5 windows around the cells visited. */
  lemma {:induction false} TrailSupport(s: Settings, path: seq<Cell>, cell: Cell)
    requires Proper(s) && OnBoard(s.size, path)
    ensures cell in Trail(s, path) <==> InBounds(s.size, cell) && Smelled(path, cell)
  {
    if path != [] {
      var front, at := path[..|path| - 1], path[|path| - 1];
      TrailBounded(s, front);
      TrailSupport(s, front, cell);
      SmelledExtends(path, cell);
      WindowIsNear(s.size, at, cell);
      assert Advanced(s, Trail(s, front), at).Keys == Trail(s, front).Keys + Window(s.size, at) by {
        AdvanceShape(s, Trail(s, front), at);
      }
    }
  }

  /** Every value lies in (0, center] and the mover's own cell holds exactly the centre value. */
  lemma TrailValues(s: Settings, path: seq<Cell>)
    requires Proper(s) && OnBoard(s.size, path)
    ensures forall cell :: cell in Trail(s, path) ==> 0.0 < Trail(s, path)[cell] <= s.center
    ensures path != [] ==>
              path[|path| - 1] in Trail(s, path) && Trail(s, path)[path[|path| - 1]] == s.center
  {
    TrailBounded(s, path);
    if path != [] {
      TrailBounded(s, path[..|path| - 1]);
      AdvanceShape(s, Trail(s, path[..|path| - 1]), path[|path| - 1]);
    }
  }

  lemma ScaleMonotone(x: real, y: real, k: real)
    requires x <= y && 0.0 <= k
    ensures x * k <= y * k
  {
  }

  /** What one decay leaves of a value. */
  function Fade(x: real, keep: real): real {
    x * keep
  }

  /** What k rounds of decay leave of x: x * keep^k. */
  function Faded(x: real, keep: real, k: nat): real {
    if k == 0 then x else Fade(Faded(x, keep, k - 1), keep)
  }

  lemma {:induction false} FadedInClosedForm(x: real, keep: real, k: nat)
    ensures Faded(x, keep, k) == x * Pow(keep, k)
  {
    if k != 0 {
      FadedInClosedForm(x, keep, k - 1);
      var p := Pow(keep, k - 1);
      assert (x * p) * keep == x * (keep * p);
      assert Faded(x, keep, k) == (x * p) * keep;
    }
  }

  lemma FadeStep(f: Field, keep: real, cell: Cell, x: real, k: nat)
    requires 0.0 < keep <= 1.0 && cell in f && Faded(x, keep, k) <= f[cell]
    ensures Faded(x, keep, k + 1) <= Kept(f, keep, cell)
  {
    ScaleMonotone(Faded(x, keep, k), f[cell], keep);
  }

  lemma KeepsShare(s: Settings, f: Field, at: Cell, cell: Cell, share: real)
    requires Proper(s) && InBounds(s.size, at) && Bounded(f, s.center)
    requires cell in f && share <= Kept(f, s.keep, cell)
    ensures cell in Advanced(s, f, at) && share <= Advanced(s, f, at)[cell]
  {
    AdvanceShape(s, f, at);
  }

  lemma OneMoreAdvance(s: Settings, f: Field, at: Cell, cell: Cell, k: nat)
    requires Proper(s) && InBounds(s.size, at) && Bounded(f, s.center)
    requires cell in f && Faded(s.center, s.keep, k) <= f[cell]
    ensures cell in Advanced(s, f, at) && Faded(s.center, s.keep, k + 1) <= Advanced(s, f, at)[cell]
  {
    FadeStep(f, s.keep, cell, s.center, k);
    hide Faded, Advanced, Bounded, Kept, KernelOk;
    KeepsShare(s, f, at, cell, Faded(s.center, s.keep, k + 1));
  }

  lemma TrailSnoc(s: Settings, path: seq<Cell>)
    requires path != []
    ensures Trail(s, path) == Advanced(s, Trail(s, path[..|path| - 1]), path[|path| - 1])
  {
  }

  lemma TrailExtends(s: Settings, path: seq<Cell>, at: Cell)
    ensures Trail(s, path + [at]) == Advanced(s, Trail(s, path), at)
  {
    hide Advanced;
    assert (path + [at])[..|path + [at]| - 1] == path;
  }

  /** The trail value of the i-th visited cell, k advances later. */
  lemma {:induction false} RemembersAfter(s: Settings, path: seq<Cell>, i: nat, k: nat)
    requires Proper(s) && OnBoard(s.size, path) && |path| == i + 1 + k
    ensures path[i] in Trail(s, path) && Faded(s.center, s.keep, k) <= Trail(s, path)[path[i]]
  {
    hide Faded, Advanced, Bounded, Proper, Trail;
    if k == 0 {
      TrailValues(s, path);
      NothingFaded(s.center, s.keep);
    } else {
      var front := path[..|path| - 1];
      TrailSnoc(s, path);
      assert path[i] == front[i];
      RemembersAfter(s, front, i, k - 1);
      TrailBounded(s, front);
      OneMoreAdvance(s, Trail(s, front), path[|path| - 1], path[i], k - 1);
    }
  }

  lemma NothingFaded(x: real, keep: real)
    ensures Faded(x, keep, 0) == x
  {
  }

  /** A cell visited k advances ago still holds at least what k decays leave of the centre
      value, center * keep^k. */
  lemma TrailRemembers(s: Settings, path: seq<Cell>, i: nat)
    requires Proper(s) && OnBoard(s.size, path) && i < |path|
    ensures path[i] in Trail(s, path)
    ensures Faded(s.center, s.keep, |path| - 1 - i) <= Trail(s, path)[path[i]]
  {
    hide Faded, Trail, Proper;
    RemembersAfter(s, path, i, |path| - 1 - i);
  }

  // ---------- the value law of a trail ----------

  function ValueAt(f: Field, cell: Cell): real {
    if cell in f then f[cell] else 0.0
  }

  /** What a visit to `at` leaves in `cell`, by the offset between them. */
  function Share(s: Settings, at: Cell, cell: Cell): real {
    if (cell.0 - at.0, cell.1 - at.1) in s.kernel then s.kernel[(cell.0 - at.0, cell.1 - at.1)] else 0.0
  }

  /** All that the visits of the path left in a cell, each share faded once for every advance
      since, the last visit being `age` advances old. */
  function SharesOf(s: Settings, path: seq<Cell>, cell: Cell, age: nat): real {
    if path == [] then 0.0
    else SharesOf(s, path[..|path| - 1], cell, age + 1) + Faded(Share(s, path[|path| - 1], cell), s.keep, age)
  }

  /** At no moment do the shares add up to more than the cap. */
  ghost predicate CapFree(s: Settings, path: seq<Cell>, cell: Cell) {
    forall n :: 0 <= n <= |path| ==> SharesOf(s, path[..n], cell, 0) <= s.center
  }

  lemma FadeGrows(x: real, y: real, keep: real)
    requires x <= y && 0.0 <= keep
    ensures Fade(x, keep) <= Fade(y, keep)
  {
    ScaleMonotone(x, y, keep);
  }

  lemma FadeAdds(x: real, y: real, keep: real)
    ensures Fade(x + y, keep) == Fade(x, keep) + Fade(y, keep)
  {
    var z := x + y;
    assert Fade(z, keep) == z * keep;
    Distributes(x, y, keep);
  }

  lemma Distributes(x: real, y: real, k: real)
    ensures (x + y) * k == x * k + y * k
  {
  }

  lemma FadeAge(x: real, keep: real, age: nat)
    ensures Faded(x, keep, age + 1) == Fade(Faded(x, keep, age), keep)
  {
    hide Fade;
  }

  lemma FadeBounds(x: real, keep: real, bound: real)
    requires 0.0 <= x <= bound && 0.0 < keep <= 1.0
    ensures 0.0 <= Fade(x, keep) <= bound
  {
    if x == 0.0 {
      assert 0.0 * keep == 0.0;
    } else {
      Shrink(x, keep, bound);
    }
  }

  /** Decay, then add, then cap. */
  lemma AdvanceValue(s: Settings, f: Field, at: Cell, cell: Cell)
    requires Proper(s) && InBounds(s.size, cell) && Bounded(f, s.center)
    ensures 0.0 <= Share(s, at, cell) && 0.0 <= ValueAt(f, cell) <= s.center
    ensures ValueAt(Advanced(s, f, at), cell) == Min(s.center, Fade(ValueAt(f, cell), s.keep) + Share(s, at, cell))
  {
    KeptBounds(f, s.keep, s.center, cell);
    WindowIsNear(s.size, at, cell);
    DepositBounds(s, at, cell);
    assert Near(cell, at) <==> (cell.0 - at.0, cell.1 - at.1) in s.kernel;
    KeptIsFade(f, s.keep, cell);
    hide Kept, Fade, Window, KernelOk, Bounded;
    assert Level(s, f, at, cell) == Min(s.center, Fade(ValueAt(f, cell), s.keep) + Share(s, at, cell));
  }

  lemma KeptIsFade(f: Field, keep: real, cell: Cell)
    ensures Kept(f, keep, cell) == Fade(ValueAt(f, cell), keep)
  {
  }

  lemma SharesSnoc(s: Settings, path: seq<Cell>, cell: Cell, age: nat)
    requires path != []
    ensures SharesOf(s, path, cell, age)
         == SharesOf(s, path[..|path| - 1], cell, age + 1) + Faded(Share(s, path[|path| - 1], cell), s.keep, age)
  {
  }

  /** One advance later every share has faded once more. */
  lemma {:induction false} SharesFade(s: Settings, path: seq<Cell>, cell: Cell, age: nat)
    ensures SharesOf(s, path, cell, age + 1) == Fade(SharesOf(s, path, cell, age), s.keep)
  {
    if path != [] {
      SharesSnoc(s, path, cell, age);
      SharesSnoc(s, path, cell, age + 1);
      hide Share, Faded, SharesOf, Fade;
      var front, share := path[..|path| - 1], Share(s, path[|path| - 1], cell);
      SharesFade(s, front, cell, age + 1);
      FadeAge(share, s.keep, age);
      FadeAdds(SharesOf(s, front, cell, age + 1), Faded(share, s.keep, age), s.keep);
    }
  }

  lemma SharesGrow(s: Settings, path: seq<Cell>, cell: Cell)
    requires path != []
    ensures SharesOf(s, path, cell, 0)
         == Fade(SharesOf(s, path[..|path| - 1], cell, 0), s.keep) + Share(s, path[|path| - 1], cell)
  {
    hide Share, Faded, SharesOf, Fade;
    SharesSnoc(s, path, cell, 0);
    SharesFade(s, path[..|path| - 1], cell, 0);
    NothingFaded(Share(s, path[|path| - 1], cell), s.keep);
  }

  /** The value of a longer trail from that of a shorter one. */
  lemma TrailStep(s: Settings, path: seq<Cell>, cell: Cell)
    requires Proper(s) && OnBoard(s.size, path) && InBounds(s.size, cell) && path != []
    ensures var before, share := ValueAt(Trail(s, path[..|path| - 1]), cell), Share(s, path[|path| - 1], cell);
            && 0.0 <= share && 0.0 <= Fade(before, s.keep) <= s.center
            && ValueAt(Trail(s, path), cell) == Min(s.center, Fade(before, s.keep) + share)
  {
    hide Advanced, Share, Fade, KernelOk, Bounded, ValueAt, Trail;
    var front := path[..|path| - 1];
    TrailBounded(s, front);
    TrailSnoc(s, path);
    AdvanceValue(s, Trail(s, front), path[|path| - 1], cell);
    FadeBounds(ValueAt(Trail(s, front), cell), s.keep, s.center);
  }

  lemma CapAtMost(s: Settings, before: real, shares: real, share: real, now: real, total: real)
    requires before <= shares && 0.0 <= s.keep
    requires now == Min(s.center, Fade(before, s.keep) + share) && total == Fade(shares, s.keep) + share
    ensures now <= Min(s.center, total)
  {
    FadeGrows(before, shares, s.keep);
    hide Fade;
  }

  /** A trail never holds more than all the shares left, nor more than the cap. */
  lemma {:induction false} TrailAtMost(s: Settings, path: seq<Cell>, cell: Cell)
    requires Proper(s) && OnBoard(s.size, path) && InBounds(s.size, cell)
    ensures ValueAt(Trail(s, path), cell) <= Min(s.center, SharesOf(s, path, cell, 0))
  {
    hide Trail, SharesOf, ValueAt, KernelOk, Share, Fade;
    if path == [] {
      NoShares(s, cell);
    } else {
      var front := path[..|path| - 1];
      FrontOnBoard(s, path);
      TrailAtMost(s, front, cell);
      MoreAtMost(s, path, cell);
    }
  }

  lemma MoreAtMost(s: Settings, path: seq<Cell>, cell: Cell)
    requires Proper(s) && OnBoard(s.size, path) && InBounds(s.size, cell) && path != []
    requires ValueAt(Trail(s, path[..|path| - 1]), cell) <= SharesOf(s, path[..|path| - 1], cell, 0)
    ensures ValueAt(Trail(s, path), cell) <= Min(s.center, SharesOf(s, path, cell, 0))
  {
    hide Trail, SharesOf, ValueAt, KernelOk, Share, Fade, Min;
    var front := path[..|path| - 1];
    var before, shares, share := ValueAt(Trail(s, front), cell), SharesOf(s, front, cell, 0), Share(s, path[|path| - 1], cell);
    TrailStep(s, path, cell);
    SharesGrow(s, path, cell);
    CapAtMost(s, before, shares, share, ValueAt(Trail(s, path), cell), SharesOf(s, path, cell, 0));
  }

  lemma FrontOnBoard(s: Settings, path: seq<Cell>)
    requires OnBoard(s.size, path) && path != []
    ensures OnBoard(s.size, path[..|path| - 1])
  {
  }

  lemma NoShares(s: Settings, cell: Cell)
    ensures SharesOf(s, [], cell, 0) == 0.0 == ValueAt(Trail(s, []), cell)
  {
  }

  lemma CapFreeBefore(s: Settings, path: seq<Cell>, cell: Cell)
    requires CapFree(s, path, cell) && path != []
    ensures CapFree(s, path[..|path| - 1], cell) && SharesOf(s, path, cell, 0) <= s.center
  {
    hide SharesOf;
    var front := path[..|path| - 1];
    assert forall n :: 0 <= n <= |front| ==> front[..n] == path[..n];
    assert path[..|path|] == path;
  }

  lemma MoreIsSum(s: Settings, path: seq<Cell>, cell: Cell)
    requires Proper(s) && OnBoard(s.size, path) && InBounds(s.size, cell) && path != []
    requires ValueAt(Trail(s, path[..|path| - 1]), cell) == SharesOf(s, path[..|path| - 1], cell, 0)
    requires SharesOf(s, path, cell, 0) <= s.center
    ensures ValueAt(Trail(s, path), cell) == SharesOf(s, path, cell, 0)
  {
    hide Trail, SharesOf, ValueAt, KernelOk, Share, Fade;
    TrailStep(s, path, cell);
    SharesGrow(s, path, cell);
  }

  /** Until the cap is reached a trail holds exactly the sum of all shares left: deposits add
      up. */
  lemma {:induction false} TrailIsSum(s: Settings, path: seq<Cell>, cell: Cell)
    requires Proper(s) && OnBoard(s.size, path) && InBounds(s.size, cell) && CapFree(s, path, cell)
    ensures ValueAt(Trail(s, path), cell) == SharesOf(s, path, cell, 0)
  {
    hide Trail, SharesOf, ValueAt, KernelOk, CapFree;
    if path == [] {
      NoShares(s, cell);
    } else {
      CapFreeBefore(s, path, cell);
      FrontOnBoard(s, path);
      TrailIsSum(s, path[..|path| - 1], cell);
      MoreIsSum(s, path, cell);
    }
  }

  /** The sum law holds at every moment of a trail exactly if the shares never exceed the cap. */
  lemma SumLawExactly(s: Settings, path: seq<Cell>, cell: Cell)
    requires Proper(s) && OnBoard(s.size, path) && InBounds(s.size, cell)
    ensures CapFree(s, path, cell) <==>
            forall n :: 0 <= n <= |path| ==> ValueAt(Trail(s, path[..n]), cell) == SharesOf(s, path[..n], cell, 0)
  {
    hide Trail, SharesOf, ValueAt, Proper;
    forall n | 0 <= n <= |path|
      ensures ValueAt(Trail(s, path[..n]), cell) <= s.center
      ensures CapFree(s, path, cell) ==> ValueAt(Trail(s, path[..n]), cell) == SharesOf(s, path[..n], cell, 0)
    {
      TrailAtMost(s, path[..n], cell);
      if CapFree(s, path, cell) {
        assert forall m :: 0 <= m <= n ==> path[..n][..m] == path[..m];
        TrailIsSum(s, path[..n], cell);
      }
    }
  }

  /** A trail holds at least what is left of any one visit's share, capped when it was made. */
  lemma {:induction false} TrailAtLeast(s: Settings, path: seq<Cell>, cell: Cell, i: nat)
    requires Proper(s) && OnBoard(s.size, path) && InBounds(s.size, cell) && i < |path|
    ensures Faded(Min(s.center, Share(s, path[i], cell)), s.keep, |path| - 1 - i) <= ValueAt(Trail(s, path), cell)
  {
    hide Trail, Share, ValueAt, KernelOk, Faded, Fade;
    var front := path[..|path| - 1];
    TrailStep(s, path, cell);
    var visit := Min(s.center, Share(s, path[i], cell));
    if i == |front| {
      NothingFaded(visit, s.keep);
    } else {
      TrailAtLeast(s, front, cell, i);
      assert front[i] == path[i];
      FadeAge(visit, s.keep, |front| - 1 - i);
      FadeGrows(Faded(visit, s.keep, |front| - 1 - i), ValueAt(Trail(s, front), cell), s.keep);
    }
  }

  /** A snapshot of a trail conceals nothing of it. */
  lemma TrailIsShown(s: Settings, path: seq<Cell>)
    requires Proper(s) && OnBoard(s.size, path)
    ensures Shown(Trail(s, path)) == Trail(s, path)
  {
    TrailBounded(s, path);
    hide Trail;
  }
}
