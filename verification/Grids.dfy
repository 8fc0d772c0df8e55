/** Square grids of exact reals, their totals, and pointwise operations on them. */
module Grids {
  import opened Geometry

  type Grid = seq<seq<real>>

  predicate Square(g: Grid, n: nat) {
    |g| == n && forall r :: 0 <= r < n ==> |g[r]| == n
  }

  function Sum(xs: seq<real>): real {
    if xs == [] then 0.0 else Sum(xs[..|xs| - 1]) + xs[|xs| - 1]
  }

  function Total(g: Grid): real {
    if g == [] then 0.0 else Total(g[..|g| - 1]) + Sum(g[|g| - 1])
  }

  function At(g: Grid, n: nat, cell: Cell): real
    requires Square(g, n) && 0 <= cell.0 < n && 0 <= cell.1 < n
  {
    g[cell.0][cell.1]
  }

  function Put(g: Grid, n: nat, cell: Cell, v: real): (p: Grid)
    requires Square(g, n) && 0 <= cell.0 < n && 0 <= cell.1 < n
    ensures Square(p, n)
  {
    g[cell.0 := g[cell.0][cell.1 := v]]
  }

  lemma {:induction false} SumUpdate(xs: seq<real>, i: nat, v: real)
    requires i < |xs|
    ensures Sum(xs[i := v]) == Sum(xs) - xs[i] + v
  {
    var ys := xs[i := v];
    if i < |xs| - 1 {
      SumUpdate(xs[..|xs| - 1], i, v);
      assert ys[..|xs| - 1] == xs[..|xs| - 1][i := v];
    } else {
      assert ys[..|xs| - 1] == xs[..|xs| - 1];
    }
  }

  lemma {:induction false} TotalReplaceRow(g: Grid, r: nat, row: seq<real>)
    requires r < |g|
    ensures Total(g[r := row]) == Total(g) - Sum(g[r]) + Sum(row)
  {
    var h := g[r := row];
    if r < |g| - 1 {
      TotalReplaceRow(g[..|g| - 1], r, row);
      assert h[..|g| - 1] == g[..|g| - 1][r := row];
    } else {
      assert h[..|g| - 1] == g[..|g| - 1];
    }
  }

  lemma TotalPut(g: Grid, n: nat, cell: Cell, v: real)
    requires Square(g, n) && 0 <= cell.0 < n && 0 <= cell.1 < n
    ensures Total(Put(g, n, cell, v)) == Total(g) - At(g, n, cell) + v
  {
    SumUpdate(g[cell.0], cell.1, v);
    TotalReplaceRow(g, cell.0, g[cell.0][cell.1 := v]);
  }

  // ---------- pointwise operations ----------

  lemma PointwiseUnique(g: Grid, h: Grid, n: nat)
    requires Square(g, n) && Square(h, n)
    requires forall r, c :: 0 <= r < n && 0 <= c < n ==> g[r][c] == h[r][c]
    ensures g == h
  {
    forall r | 0 <= r < n ensures g[r] == h[r] {
      assert forall c :: 0 <= c < n ==> g[r][c] == h[r][c];
    }
  }

  /** A map of two reals that respects sums; totals commute with it. */
  ghost predicate Additive(lin: (real, real) -> real) {
    lin(0.0, 0.0) == 0.0 && forall x, x', y, y' :: AddsUp(lin, x, x', y, y')
  }

  predicate AddsUp(lin: (real, real) -> real, x: real, x': real, y: real, y': real) {
    lin(x + x', y + y') == lin(x, y) + lin(x', y')
  }

  ghost predicate Combines(h: seq<real>, lin: (real, real) -> real, f: seq<real>, g: seq<real>) {
    |h| == |f| == |g| && forall c {:trigger h[c]} :: 0 <= c < |h| ==> h[c] == lin(f[c], g[c])
  }

  lemma {:induction false} SumCombines(h: seq<real>, lin: (real, real) -> real, f: seq<real>, g: seq<real>)
    requires Additive(lin) && Combines(h, lin, f, g)
    ensures Sum(h) == lin(Sum(f), Sum(g))
  {
    if h != [] {
      var k := |h| - 1;
      SumCombines(h[..k], lin, f[..k], g[..k]);
      assert AddsUp(lin, Sum(f[..k]), f[k], Sum(g[..k]), g[k]);
    }
  }

  ghost predicate CombinesRows(h: Grid, lin: (real, real) -> real, f: Grid, g: Grid) {
    |h| == |f| == |g| && forall r {:trigger h[r]} :: 0 <= r < |h| ==> Combines(h[r], lin, f[r], g[r])
  }

  lemma {:induction false} TotalCombines(h: Grid, lin: (real, real) -> real, f: Grid, g: Grid)
    requires Additive(lin) && CombinesRows(h, lin, f, g)
    ensures Total(h) == lin(Total(f), Total(g))
  {
    if h != [] {
      var k := |h| - 1;
      TotalCombines(h[..k], lin, f[..k], g[..k]);
      SumCombines(h[k], lin, f[k], g[k]);
      assert AddsUp(lin, Total(f[..k]), Sum(f[k]), Total(g[..k]), Sum(g[k]));
    }
  }

  lemma Distribute(a: real, x: real, x': real)
    ensures a * (x + x') == a * x + a * x'
  {
  }

  /** h is f + g, cell by cell. */
  ghost predicate SumOf(h: Grid, n: nat, f: Grid, g: Grid) {
    && Square(h, n) && Square(f, n) && Square(g, n)
    && forall r, c :: 0 <= r < n && 0 <= c < n ==> h[r][c] == f[r][c] + g[r][c]
  }

  lemma TotalSum(h: Grid, n: nat, f: Grid, g: Grid)
    requires SumOf(h, n, f, g)
    ensures Total(h) == Total(f) + Total(g)
  {
    var lin := (x: real, y: real) => x + y;
    assert forall x, x', y, y' :: AddsUp(lin, x, x', y, y');
    TotalCombines(h, lin, f, g);
  }

  /** h is g scaled by a. */
  ghost predicate ScaledBy(h: Grid, n: nat, a: real, g: Grid) {
    Square(h, n) && Square(g, n) && forall r, c :: 0 <= r < n && 0 <= c < n ==> h[r][c] == a * g[r][c]
  }

  lemma TotalScaled(h: Grid, n: nat, a: real, g: Grid)
    requires ScaledBy(h, n, a, g)
    ensures Total(h) == a * Total(g)
  {
    var lin := (x: real, y: real) => a * x;
    forall x, x', y, y' ensures AddsUp(lin, x, x', y, y') {
      Distribute(a, x, x');
    }
    assert lin(0.0, 0.0) == 0.0;
    TotalCombines(h, lin, g, g);
  }

  // ---------- order ----------

  predicate AllPositive(g: Grid) {
    forall r, c :: 0 <= r < |g| && 0 <= c < |g[r]| ==> 0.0 < g[r][c]
  }

  predicate AllNonNegative(g: Grid) {
    forall r, c :: 0 <= r < |g| && 0 <= c < |g[r]| ==> 0.0 <= g[r][c]
  }

  lemma {:induction false} SumNonNegative(xs: seq<real>)
    requires forall i :: 0 <= i < |xs| ==> 0.0 <= xs[i]
    ensures 0.0 <= Sum(xs)
    ensures forall i :: 0 <= i < |xs| ==> xs[i] <= Sum(xs)
  {
    if xs != [] {
      var front := xs[..|xs| - 1];
      SumNonNegative(front);
      forall i | 0 <= i < |xs| ensures xs[i] <= Sum(xs) {
        assert i < |front| ==> front[i] == xs[i];
      }
    }
  }

  lemma {:induction false} TotalNonNegative(g: Grid)
    requires AllNonNegative(g)
    ensures 0.0 <= Total(g)
    ensures forall r, c :: 0 <= r < |g| && 0 <= c < |g[r]| ==> g[r][c] <= Total(g)
  {
    if g != [] {
      var front, last := g[..|g| - 1], g[|g| - 1];
      TotalNonNegative(front);
      SumNonNegative(last);
      forall r, c | 0 <= r < |g| && 0 <= c < |g[r]| ensures g[r][c] <= Total(g) {
        assert r < |front| ==> front[r] == g[r];
      }
    }
  }

  lemma {:induction false} TotalOfZeros(g: Grid)
    requires forall r, c :: 0 <= r < |g| && 0 <= c < |g[r]| ==> g[r][c] == 0.0
    ensures Total(g) == 0.0
  {
    if g != [] {
      TotalOfZeros(g[..|g| - 1]);
      SumOfZeros(g[|g| - 1]);
    }
  }

  lemma {:induction false} SumOfZeros(xs: seq<real>)
    requires forall i :: 0 <= i < |xs| ==> xs[i] == 0.0
    ensures Sum(xs) == 0.0
  {
    if xs != [] {
      SumOfZeros(xs[..|xs| - 1]);
    }
  }

  lemma {:induction false} SumUniform(xs: seq<real>, x: real)
    requires forall i :: 0 <= i < |xs| ==> xs[i] == x
    ensures Sum(xs) == |xs| as real * x
  {
    if xs != [] {
      SumUniform(xs[..|xs| - 1], x);
      assert |xs| as real * x == (|xs| - 1) as real * x + x;
    }
  }

  lemma {:induction false} TotalUniform(g: Grid, n: nat, x: real)
    requires forall r :: 0 <= r < |g| ==> |g[r]| == n
    requires forall r, c :: 0 <= r < |g| && 0 <= c < n ==> g[r][c] == x
    ensures Total(g) == |g| as real * (n as real * x)
  {
    if g != [] {
      TotalUniform(g[..|g| - 1], n, x);
      SumUniform(g[|g| - 1], x);
      var y := n as real * x;
      assert |g| as real * y == (|g| - 1) as real * y + y;
    }
  }
}
