/** The believed opponent position as a probability grid: scent reweights it, a stated
    position concentrates it, a move spreads it. */
module Belief {
  import opened Options
  import opened Geometry
  import opened Grids

  ghost predicate Distribution(g: Grid, n: nat) {
    Square(g, n) && AllPositive(g) && Total(g) == 1.0
  }

  // ---------- reweighting and normalizing ----------

  function Scaled(g: Grid, n: nat, w: (int, int) -> real): (h: Grid)
    requires Square(g, n)
    ensures Square(h, n)
  {
    seq(n, r requires 0 <= r < n => seq(n, c requires 0 <= c < n => g[r][c] * w(r, c)))
  }

  function Normalized(g: Grid, n: nat): (h: Grid)
    requires Square(g, n) && Total(g) != 0.0
    ensures Square(h, n)
  {
    var total := Total(g);
    seq(n, r requires 0 <= r < n => seq(n, c requires 0 <= c < n => g[r][c] / total))
  }

  lemma Positive(x: real, y: real)
    requires 0.0 < x && 0.0 < y
    ensures 0.0 < x * y && 0.0 < x / y
  {
  }

  lemma DivideIsScale(x: real, t: real)
    requires t != 0.0
    ensures x / t == (1.0 / t) * x
  {
  }

  lemma PositiveTotal(g: Grid, n: nat)
    requires 0 < n && Square(g, n) && AllPositive(g)
    ensures 0.0 < Total(g)
  {
    TotalNonNegative(g);
    assert g[0][0] <= Total(g);
  }

  lemma Inverse(t: real)
    requires t != 0.0
    ensures (1.0 / t) * t == 1.0
  {
  }

  lemma NormalizedIsScaled(g: Grid, n: nat, t: real)
    requires Square(g, n) && t == Total(g) != 0.0
    ensures ScaledBy(Normalized(g, n), n, 1.0 / t, g)
  {
    forall r, c | 0 <= r < n && 0 <= c < n ensures Normalized(g, n)[r][c] == (1.0 / t) * g[r][c] {
      DivideIsScale(g[r][c], t);
    }
  }

  lemma NormalizedTotal(g: Grid, n: nat)
    requires Square(g, n) && Total(g) != 0.0
    ensures Total(Normalized(g, n)) == 1.0
  {
    hide *;
    NormalizedIsScaled(g, n, Total(g));
    TotalScaled(Normalized(g, n), n, 1.0 / Total(g), g);
    Inverse(Total(g));
  }

  lemma NormalizedIsDistribution(g: Grid, n: nat)
    requires 0 < n && Square(g, n) && AllPositive(g)
    ensures Total(g) != 0.0 && Distribution(Normalized(g, n), n)
  {
    PositiveTotal(g, n);
    NormalizedTotal(g, n);
    var t, h := Total(g), Normalized(g, n);
    forall r, c | 0 <= r < n && 0 <= c < n ensures 0.0 < h[r][c] {
      Positive(g[r][c], t);
    }
  }

  lemma NormalizedKeepsUnit(g: Grid, n: nat)
    requires Square(g, n) && Total(g) == 1.0
    ensures Normalized(g, n) == g
  {
    PointwiseUnique(Normalized(g, n), g, n);
  }

  lemma ScaledPositive(g: Grid, n: nat, w: (int, int) -> real)
    requires Square(g, n) && AllPositive(g)
    requires forall r, c :: 0 <= r < n && 0 <= c < n ==> 0.0 < w(r, c)
    ensures AllPositive(Scaled(g, n, w))
  {
    var h := Scaled(g, n, w);
    forall r, c | 0 <= r < n && 0 <= c < n ensures 0.0 < h[r][c] {
      Positive(g[r][c], w(r, c));
    }
  }

  // ---------- scent ----------

  function Intensity(cells: map<Cell, real>, cell: Cell): real {
    if cell in cells then cells[cell] else 0.0
  }

  predicate NonNegative(cells: map<Cell, real>) {
    forall cell :: cell in cells ==> 0.0 <= cells[cell]
  }

  function ScentWeight(cells: map<Cell, real>): (int, int) -> real {
    (r, c) => 1.0 + Intensity(cells, (r, c))
  }

  lemma SmelledIsDistribution(g: Grid, n: nat, cells: map<Cell, real>)
    requires 0 < n && Distribution(g, n) && NonNegative(cells)
    ensures var h := Scaled(g, n, ScentWeight(cells)); Total(h) != 0.0 && Distribution(Normalized(h, n), n)
  {
    ScaledPositive(g, n, ScentWeight(cells));
    NormalizedIsDistribution(Scaled(g, n, ScentWeight(cells)), n);
  }

  function Smelled(g: Grid, n: nat, cells: map<Cell, real>): (h: Grid)
    requires Square(g, n) && Total(Scaled(g, n, ScentWeight(cells))) != 0.0
    ensures Square(h, n)
  {
    Normalized(Scaled(g, n, ScentWeight(cells)), n)
  }

  lemma ScaleCommutes(x: real, t: real, a: real)
    requires t != 0.0
    ensures (x / t) * a == (1.0 / t) * (x * a)
  {
    var i := 1.0 / t;
    DivideIsScale(x, t);
    assert (i * x) * a == i * (x * a);
  }

  lemma QuotientIs(y: real, v: real, q: real)
    requires v != 0.0 && q * v == y
    ensures y / v == q
  {
  }

  lemma Regroup(q: real, k: real, u: real)
    ensures q * (k * u) == k * (q * u)
  {
  }

  /** A common factor cancels from a quotient. */
  lemma FactorCancels(k: real, x: real, u: real, y: real, v: real)
    requires u != 0.0 && v != 0.0 && y == k * x && v == k * u
    ensures y / v == x / u
  {
    var q := x / u;
    assert q * u == x;
    Regroup(q, k, u);
    QuotientIs(y, v, q);
  }

  lemma NonZeroProduct(x: real, y: real)
    requires x != 0.0 && y != 0.0
    ensures x * y != 0.0
  {
  }

  lemma NormalizedCell(g: Grid, h: Grid, n: nat, k: real, r: nat, c: nat)
    requires ScaledBy(h, n, k, g) && k != 0.0 && Total(g) != 0.0 && r < n && c < n
    requires Total(h) == k * Total(g) && Total(h) != 0.0
    ensures Normalized(h, n)[r][c] == Normalized(g, n)[r][c]
  {
    hide Total;
    var x, y := g[r][c], h[r][c];
    assert y == k * x;
    FactorCancels(k, x, Total(g), y, Total(h));
  }

  lemma NormalizedIgnoresScale(g: Grid, h: Grid, n: nat, k: real)
    requires ScaledBy(h, n, k, g) && k != 0.0 && Total(g) != 0.0
    ensures Total(h) != 0.0 && Normalized(h, n) == Normalized(g, n)
  {
    hide Total, Normalized, ScaledBy;
    TotalScaled(h, n, k, g);
    NonZeroProduct(k, Total(g));
    ScaledBySquare(h, n, k, g);
    forall r, c | 0 <= r < n && 0 <= c < n ensures Normalized(h, n)[r][c] == Normalized(g, n)[r][c] {
      NormalizedCell(g, h, n, k, r, c);
    }
    PointwiseUnique(Normalized(h, n), Normalized(g, n), n);
  }

  lemma ScaledBySquare(h: Grid, n: nat, k: real, g: Grid)
    requires ScaledBy(h, n, k, g)
    ensures Square(h, n) && Square(g, n)
  {
  }

  ghost predicate Weights(w: (int, int) -> real, n: nat) {
    forall r, c :: 0 <= r < n && 0 <= c < n ==> 0.0 < w(r, c)
  }

  /** Reweighting after normalizing, normalized again, is both reweightings normalized once. */
  lemma ReweighTwice(g: Grid, n: nat, wa: (int, int) -> real, wb: (int, int) -> real)
    requires 0 < n && Square(g, n) && AllPositive(g) && Weights(wa, n) && Weights(wb, n)
    ensures var once := Scaled(g, n, wa);
            && Total(once) != 0.0 && Total(Scaled(once, n, wb)) != 0.0
            && Total(Scaled(Normalized(once, n), n, wb)) != 0.0
            && Normalized(Scaled(Normalized(once, n), n, wb), n) == Normalized(Scaled(once, n, wb), n)
  {
    var once := Scaled(g, n, wa);
    ScaledPositive(g, n, wa);
    ScaledPositive(once, n, wb);
    PositiveTotal(once, n);
    PositiveTotal(Scaled(once, n, wb), n);
    ScaledQuotient(once, n, Total(once), wb);
    Positive(1.0, Total(once));
    NormalizedIgnoresScale(Scaled(once, n, wb), Scaled(Normalized(once, n), n, wb), n, 1.0 / Total(once));
  }

  lemma ScaledQuotientCell(g: Grid, n: nat, t: real, w: (int, int) -> real, r: nat, c: nat)
    requires Square(g, n) && t == Total(g) != 0.0 && r < n && c < n
    ensures Scaled(Normalized(g, n), n, w)[r][c] == (1.0 / t) * Scaled(g, n, w)[r][c]
  {
    hide Total;
    var x, a := g[r][c], w(r, c);
    var q := Normalized(g, n)[r][c];
    assert q == x / t;
    ScaleCommutes(x, t, a);
    assert Scaled(Normalized(g, n), n, w)[r][c] == q * a;
  }

  lemma ScaledQuotient(g: Grid, n: nat, t: real, w: (int, int) -> real)
    requires Square(g, n) && t == Total(g) != 0.0
    ensures ScaledBy(Scaled(Normalized(g, n), n, w), n, 1.0 / t, Scaled(g, n, w))
  {
    hide Scaled, Normalized;
    forall r, c | 0 <= r < n && 0 <= c < n
      ensures Scaled(Normalized(g, n), n, w)[r][c] == (1.0 / t) * Scaled(g, n, w)[r][c]
    {
      ScaledQuotientCell(g, n, t, w, r, c);
    }
  }

  lemma ScaledSwaps(g: Grid, n: nat, wa: (int, int) -> real, wb: (int, int) -> real)
    requires Square(g, n)
    ensures Scaled(Scaled(g, n, wa), n, wb) == Scaled(Scaled(g, n, wb), n, wa)
  {
    var ab, ba := Scaled(Scaled(g, n, wa), n, wb), Scaled(Scaled(g, n, wb), n, wa);
    forall r, c | 0 <= r < n && 0 <= c < n ensures ab[r][c] == ba[r][c] {
      SwapFactors(g[r][c], wa(r, c), wb(r, c));
    }
    PointwiseUnique(ab, ba, n);
  }

  lemma ScentWeights(cells: map<Cell, real>, n: nat)
    requires NonNegative(cells)
    ensures Weights(ScentWeight(cells), n)
  {
  }

  lemma SwapFactors(x: real, a: real, b: real)
    ensures (x * a) * b == (x * b) * a
  {
  }

  /** Two scent reports can be folded in in either order. */
  lemma SmellingCommutes(g: Grid, n: nat, a: map<Cell, real>, b: map<Cell, real>)
    requires 0 < n && Distribution(g, n) && NonNegative(a) && NonNegative(b)
    ensures && Total(Scaled(g, n, ScentWeight(a))) != 0.0 && Total(Scaled(g, n, ScentWeight(b))) != 0.0
            && Total(Scaled(Smelled(g, n, a), n, ScentWeight(b))) != 0.0
            && Total(Scaled(Smelled(g, n, b), n, ScentWeight(a))) != 0.0
            && Smelled(Smelled(g, n, a), n, b) == Smelled(Smelled(g, n, b), n, a)
  {
    ScentWeights(a, n);
    ScentWeights(b, n);
    ReweighTwice(g, n, ScentWeight(a), ScentWeight(b));
    ReweighTwice(g, n, ScentWeight(b), ScentWeight(a));
    ScaledSwaps(g, n, ScentWeight(a), ScentWeight(b));
  }

  lemma CrossQuotients(x: real, y: real, t: real)
    requires t != 0.0
    ensures (x / t) * y == (y / t) * x
  {
    var p, q := x / t, y / t;
    assert x == p * t && y == q * t;
    Regroup(p, q, t);
    Regroup(q, p, t);
    assert p * (q * t) == q * (p * t);
  }

  lemma LargerQuotient(x: real, y: real, t: real)
    requires 0.0 < t && x < y
    ensures x / t < y / t
  {
    var p, q := x / t, y / t;
    assert p * t == x && q * t == y;
    assert (q - p) * t == q * t - p * t;
    QuotientIs(y - x, t, q - p);
    Positive(y - x, t);
  }

  predicate IsPart(h: real, x: real, w: real, total: real) {
    0.0 < total && h == (x * w) / total
  }

  lemma SmelledCell(g: Grid, n: nat, cells: map<Cell, real>, at: Cell)
    requires 0 < n && Distribution(g, n) && NonNegative(cells) && OnGrid(n, at)
    ensures 0.0 < g[at.0][at.1]
    ensures var total := Total(Scaled(g, n, ScentWeight(cells)));
            total != 0.0 && IsPart(Smelled(g, n, cells)[at.0][at.1], g[at.0][at.1], 1.0 + Intensity(cells, at), total)
  {
    hide Total;
    ScentWeights(cells, n);
    ScaledPositive(g, n, ScentWeight(cells));
    PositiveTotal(Scaled(g, n, ScentWeight(cells)), n);
  }

  lemma PartsShift(ha: real, x: real, wa: real, hb: real, y: real, wb: real, total: real)
    requires IsPart(ha, x, wa, total) && IsPart(hb, y, wb, total)
    ensures ha * (y * wb) == hb * (x * wa)
  {
    CrossQuotients(x * wa, y * wb, total);
  }

  lemma PartsOrder(ha: real, hb: real, x: real, more: real, less: real, total: real)
    requires IsPart(ha, x, 1.0 + more, total) && IsPart(hb, x, 1.0 + less, total) && 0.0 < x && less < more
    ensures hb < ha
  {
    var d := more - less;
    Positive(x, d);
    var w := 1.0 + less;
    assert 1.0 + more == w + d;
    assert x * (w + d) == x * w + x * d;
    LargerQuotient(x * w, x * (w + d), total);
  }

  /** What scent does to belief: the odds between two cells change in the ratio of one plus
      their intensities. */
  lemma ScentShiftsOdds(g: Grid, n: nat, cells: map<Cell, real>, a: Cell, b: Cell)
    requires 0 < n && Distribution(g, n) && NonNegative(cells) && OnGrid(n, a) && OnGrid(n, b)
    ensures var smell := (at: Cell) => if at in cells then cells[at] else 0.0;
            && Total(Scaled(g, n, ScentWeight(cells))) != 0.0
            && var h := Smelled(g, n, cells);
               h[a.0][a.1] * (g[b.0][b.1] * (1.0 + smell(b))) == h[b.0][b.1] * (g[a.0][a.1] * (1.0 + smell(a)))
  {
    hide Total, Scaled, Smelled, IsPart, AllPositive;
    SmelledCell(g, n, cells, a);
    SmelledCell(g, n, cells, b);
    var h := Smelled(g, n, cells);
    PartsShift(h[a.0][a.1], g[a.0][a.1], 1.0 + Intensity(cells, a), h[b.0][b.1], g[b.0][b.1], 1.0 + Intensity(cells, b),
               Total(Scaled(g, n, ScentWeight(cells))));
  }

  /** Of two cells believed equally, the one that smells more becomes the more likely. */
  lemma ScentAttractsBelief(g: Grid, n: nat, cells: map<Cell, real>, a: Cell, b: Cell)
    requires 0 < n && Distribution(g, n) && NonNegative(cells) && OnGrid(n, a) && OnGrid(n, b)
    requires g[a.0][a.1] == g[b.0][b.1]
    requires (if b in cells then cells[b] else 0.0) < (if a in cells then cells[a] else 0.0)
    ensures Total(Scaled(g, n, ScentWeight(cells))) != 0.0
    ensures Smelled(g, n, cells)[b.0][b.1] < Smelled(g, n, cells)[a.0][a.1]
  {
    hide Total, Scaled, Smelled, IsPart, AllPositive;
    SmelledCell(g, n, cells, a);
    SmelledCell(g, n, cells, b);
    var h := Smelled(g, n, cells);
    PartsOrder(h[a.0][a.1], h[b.0][b.1], g[a.0][a.1], Intensity(cells, a), Intensity(cells, b),
               Total(Scaled(g, n, ScentWeight(cells))));
  }

  // ---------- a stated position ----------

  predicate OnGrid(n: nat, at: Cell) {
    0 <= at.0 < n && 0 <= at.1 < n
  }

  /** The in-bounds Manhattan ball; empty for a negative radius or a centre far off the board. */
  predicate InBall(n: nat, center: Cell, radius: int, at: Cell) {
    0 <= at.0 < n && 0 <= at.1 < n && Distance(at, center) <= radius
  }

  function Masked(g: Grid, n: nat, center: Cell, radius: int, inside: bool): (h: Grid)
    requires Square(g, n)
    ensures Square(h, n)
  {
    seq(n, r requires 0 <= r < n => seq(n, c requires 0 <= c < n =>
      if InBall(n, center, radius, (r, c)) == inside then g[r][c] else 0.0))
  }

  /** The probability of the ball. */
  function Mass(g: Grid, n: nat, center: Cell, radius: int): real
    requires Square(g, n)
  {
    Total(Masked(g, n, center, radius, true))
  }

  function BallWeight(n: nat, center: Cell, radius: int, boost: real, fade: real): (int, int) -> real {
    (r, c) => if InBall(n, center, radius, (r, c)) then boost else fade
  }

  /** A stated position: `trust` goes to the ball, the rest is scaled down in proportion. A
      ball of no mass, or of all of it, changes nothing. */
  function Declared(g: Grid, n: nat, center: Cell, radius: int, trust: real): (h: Grid)
    requires Square(g, n)
    ensures Square(h, n)
  {
    var inside := Mass(g, n, center, radius);
    var remaining := 1.0 - inside;
    if inside <= 0.0 || remaining <= 0.0 then g
    else
      var h := Scaled(g, n, BallWeight(n, center, radius, trust / inside, (1.0 - trust) / remaining));
      if Total(h) == 0.0 then h else Normalized(h, n)
  }

  lemma MaskedParts(g: Grid, n: nat, center: Cell, radius: int)
    requires Square(g, n)
    ensures SumOf(g, n, Masked(g, n, center, radius, true), Masked(g, n, center, radius, false))
  {
  }

  lemma MassSplits(g: Grid, n: nat, center: Cell, radius: int)
    requires Square(g, n)
    ensures Total(g) == Mass(g, n, center, radius) + Total(Masked(g, n, center, radius, false))
  {
    hide Masked, SumOf, Total;
    MaskedParts(g, n, center, radius);
    TotalSum(g, n, Masked(g, n, center, radius, true), Masked(g, n, center, radius, false));
  }

  /** The ball has mass exactly when it meets the board, and all of it exactly when it covers it. */
  lemma MassMeansCells(g: Grid, n: nat, center: Cell, radius: int)
    requires Distribution(g, n)
    ensures 0.0 < Mass(g, n, center, radius) <==> exists at :: InBall(n, center, radius, at)
    ensures Mass(g, n, center, radius) < 1.0 <==> exists at :: OnGrid(n, at) && !InBall(n, center, radius, at)
  {
    MassSplits(g, n, center, radius);
    MaskedMass(g, n, center, radius, true);
    MaskedMass(g, n, center, radius, false);
  }

  lemma MaskedMass(g: Grid, n: nat, center: Cell, radius: int, inside: bool)
    requires Square(g, n) && AllPositive(g)
    ensures 0.0 <= Total(Masked(g, n, center, radius, inside))
    ensures 0.0 < Total(Masked(g, n, center, radius, inside)) <==>
            exists at :: OnGrid(n, at) && InBall(n, center, radius, at) == inside
  {
    var h := Masked(g, n, center, radius, inside);
    TotalNonNegative(h);
    if at :| OnGrid(n, at) && InBall(n, center, radius, at) == inside {
      assert at == (at.0, at.1);
      assert h[at.0][at.1] == g[at.0][at.1];
    } else {
      forall r, c | 0 <= r < n && 0 <= c < n ensures h[r][c] == 0.0 {
        assert OnGrid(n, (r, c));
      }
      TotalOfZeros(h);
    }
  }

  lemma MaskedCell(x: real, w: real, k: real, shown: bool)
    requires shown ==> w == k
    ensures (if shown then x * w else 0.0) == k * (if shown then x else 0.0)
  {
  }

  lemma MaskedScaledCell(g: Grid, n: nat, center: Cell, radius: int, w: (int, int) -> real, k: real, inside: bool, r: nat, c: nat)
    requires Square(g, n) && r < n && c < n
    requires InBall(n, center, radius, (r, c)) == inside ==> w(r, c) == k
    ensures Masked(Scaled(g, n, w), n, center, radius, inside)[r][c] == k * Masked(g, n, center, radius, inside)[r][c]
  {
    MaskedCell(g[r][c], w(r, c), k, InBall(n, center, radius, (r, c)) == inside);
  }

  ghost predicate ConstantOn(n: nat, center: Cell, radius: int, inside: bool, w: (int, int) -> real, k: real) {
    forall r, c {:trigger w(r, c)} :: InBall(n, center, radius, (r, c)) == inside ==> w(r, c) == k
  }

  lemma MaskedIsScaled(g: Grid, n: nat, center: Cell, radius: int, w: (int, int) -> real, k: real, inside: bool)
    requires Square(g, n) && ConstantOn(n, center, radius, inside, w, k)
    ensures ScaledBy(Masked(Scaled(g, n, w), n, center, radius, inside), n, k, Masked(g, n, center, radius, inside))
  {
    var a, b := Masked(g, n, center, radius, inside), Masked(Scaled(g, n, w), n, center, radius, inside);
    forall r, c | 0 <= r < n && 0 <= c < n ensures b[r][c] == k * a[r][c] {
      MaskedScaledCell(g, n, center, radius, w, k, inside, r, c);
    }
  }

  lemma MaskedScales(g: Grid, n: nat, center: Cell, radius: int, w: (int, int) -> real, k: real, inside: bool)
    requires Square(g, n) && ConstantOn(n, center, radius, inside, w, k)
    ensures Total(Masked(Scaled(g, n, w), n, center, radius, inside)) == k * Total(Masked(g, n, center, radius, inside))
  {
    hide Masked, Scaled, Total, ConstantOn, ScaledBy;
    MaskedIsScaled(g, n, center, radius, w, k, inside);
    TotalScaled(Masked(Scaled(g, n, w), n, center, radius, inside), n, k, Masked(g, n, center, radius, inside));
  }

  lemma ShareBack(trust: real, m: real)
    requires m != 0.0
    ensures (trust / m) * m == trust
  {
  }

  /** Weights that bring the ball to `trust` and the rest to 1 - trust bring the whole to 1. */
  lemma ReweighedTotals(g: Grid, n: nat, center: Cell, radius: int, w: (int, int) -> real, boost: real, fade: real, trust: real)
    requires Square(g, n)
    requires ConstantOn(n, center, radius, true, w, boost) && ConstantOn(n, center, radius, false, w, fade)
    requires boost * Total(Masked(g, n, center, radius, true)) == trust
    requires fade * Total(Masked(g, n, center, radius, false)) == 1.0 - trust
    ensures Total(Scaled(g, n, w)) == 1.0 && Mass(Scaled(g, n, w), n, center, radius) == trust
  {
    hide Masked, Scaled, Total, ConstantOn;
    MaskedScales(g, n, center, radius, w, boost, true);
    MaskedScales(g, n, center, radius, w, fade, false);
    MassSplits(Scaled(g, n, w), n, center, radius);
  }

  lemma BallWeightConstant(n: nat, center: Cell, radius: int, boost: real, fade: real)
    ensures ConstantOn(n, center, radius, true, BallWeight(n, center, radius, boost, fade), boost)
    ensures ConstantOn(n, center, radius, false, BallWeight(n, center, radius, boost, fade), fade)
  {
  }

  lemma DeclaredTotals(g: Grid, n: nat, center: Cell, radius: int, trust: real, inside: real)
    requires Distribution(g, n) && 0.0 < trust < 1.0 && inside == Mass(g, n, center, radius) && 0.0 < inside < 1.0
    ensures var h := Scaled(g, n, BallWeight(n, center, radius, trust / inside, (1.0 - trust) / (1.0 - inside)));
            AllPositive(h) && Total(h) == 1.0 && Mass(h, n, center, radius) == trust
  {
    hide Masked, Scaled, Total, ConstantOn;
    var boost, fade := trust / inside, (1.0 - trust) / (1.0 - inside);
    var w := BallWeight(n, center, radius, boost, fade);
    MassSplits(g, n, center, radius);
    ShareBack(trust, inside);
    ShareBack(1.0 - trust, 1.0 - inside);
    BallWeightConstant(n, center, radius, boost, fade);
    ReweighedTotals(g, n, center, radius, w, boost, fade, trust);
    Positive(trust, inside);
    Positive(1.0 - trust, 1.0 - inside);
    ScaledPositive(g, n, w);
  }

  /** A declaration that is not degenerate leaves exactly `trust` on the ball, keeps a
      distribution, and wipes no cell out; a degenerate one leaves the belief alone. */
  lemma DeclarationExact(g: Grid, n: nat, center: Cell, radius: int, trust: real)
    requires Distribution(g, n) && 0.0 < trust < 1.0
    ensures var meets := exists at :: InBall(n, center, radius, at);
            var covers := forall at :: OnGrid(n, at) ==> InBall(n, center, radius, at);
            var h := Declared(g, n, center, radius, trust);
            && Distribution(h, n)
            && (meets && !covers ==> Mass(h, n, center, radius) == trust)
            && (!meets || covers ==> h == g)
  {
    hide Masked, Scaled, Total, Mass;
    MassMeansCells(g, n, center, radius);
    var inside := Mass(g, n, center, radius);
    if 0.0 < inside < 1.0 {
      DeclaredTotals(g, n, center, radius, trust, inside);
      NormalizedKeepsUnit(Scaled(g, n, BallWeight(n, center, radius, trust / inside, (1.0 - trust) / (1.0 - inside))), n);
    }
  }

  lemma CommonFactor(x: real, y: real, k: real)
    ensures (x * k) * y == (y * k) * x
  {
    SwapFactors(x, k, y);
    SwapFactors(y, k, x);
    assert (x * y) * k == (y * x) * k;
  }

  /** A declaration says nothing about cells on the same side of it: the odds between two cells
      both in the ball, or both outside, stay what they were. */
  lemma DeclarationKeepsOdds(g: Grid, n: nat, center: Cell, radius: int, trust: real, a: Cell, b: Cell)
    requires Distribution(g, n) && 0.0 < trust < 1.0 && OnGrid(n, a) && OnGrid(n, b)
    requires Distance(a, center) <= radius <==> Distance(b, center) <= radius
    ensures var h := Declared(g, n, center, radius, trust);
            h[a.0][a.1] * g[b.0][b.1] == h[b.0][b.1] * g[a.0][a.1]
  {
    hide Masked, Total, Mass, Distance;
    var inside := Mass(g, n, center, radius);
    if 0.0 < inside < 1.0 {
      var w := BallWeight(n, center, radius, trust / inside, (1.0 - trust) / (1.0 - inside));
      DeclaredTotals(g, n, center, radius, trust, inside);
      NormalizedKeepsUnit(Scaled(g, n, w), n);
      assert w(a.0, a.1) == w(b.0, b.1) by {
        assert a == (a.0, a.1) && b == (b.0, b.1);
      }
      var k := w(a.0, a.1);
      CommonFactor(g[a.0][a.1], g[b.0][b.1], k);
    }
  }

  // ---------- one unseen move ----------

  function NeighboursAmong(n: nat, cell: Cell, ds: seq<Direction>): seq<Cell> {
    if ds == [] then [cell]
    else
      var rest := NeighboursAmong(n, cell, ds[..|ds| - 1]);
      var target := Target(cell, ds[|ds| - 1]);
      if OnGrid(n, target) then rest + [target] else rest
  }

  /** The cell itself (STAY is always legal) and its in-bounds neighbours, in table order. */
  function Neighbours(n: nat, cell: Cell): seq<Cell> {
    NeighboursAmong(n, cell, ORTHOGONALS)
  }

  predicate Adjacent(a: Cell, b: Cell) {
    a == b || exists d: Direction :: Target(a, d) == b
  }

  predicate Distinct(cells: seq<Cell>) {
    forall i, j :: 0 <= i < j < |cells| ==> cells[i] != cells[j]
  }

  lemma NeighboursExact(n: nat, cell: Cell)
    requires OnGrid(n, cell)
    ensures 1 <= |Neighbours(n, cell)| <= 5 && Distinct(Neighbours(n, cell))
    ensures forall at :: at in Neighbours(n, cell) <==> OnGrid(n, at) && Adjacent(cell, at)
  {
    var ds := ORTHOGONALS;
    assert ds[..4] == ds && ds[..3][..2] == ds[..2] && ds[..2][..1] == ds[..1] && ds[..4][..3] == ds[..3];
    var s0 := NeighboursAmong(n, cell, ds[..0]);
    var s1 := NeighboursAmong(n, cell, ds[..1]);
    var s2 := NeighboursAmong(n, cell, ds[..2]);
    var s3 := NeighboursAmong(n, cell, ds[..3]);
    var s4 := NeighboursAmong(n, cell, ds[..4]);
    assert ds[..1][..0] == ds[..0];
    assert s1 == if OnGrid(n, Target(cell, N)) then s0 + [Target(cell, N)] else s0;
    assert s2 == if OnGrid(n, Target(cell, S)) then s1 + [Target(cell, S)] else s1;
    assert s3 == if OnGrid(n, Target(cell, E)) then s2 + [Target(cell, E)] else s2;
    assert s4 == if OnGrid(n, Target(cell, W)) then s3 + [Target(cell, W)] else s3;
    forall at ensures Adjacent(cell, at) <==> at in [cell, Target(cell, N), Target(cell, S), Target(cell, E), Target(cell, W)] {
      if d: Direction :| Target(cell, d) == at {
        match d case N => case S => case E => case W =>
      }
    }
  }

  ghost predicate AllOnGrid(n: nat, cells: seq<Cell>) {
    forall i :: 0 <= i < |cells| ==> OnGrid(n, cells[i])
  }

  /** A share added to each of some cells, one after the other. */
  ghost function AddTo(g: Grid, n: nat, cells: seq<Cell>, share: real): (h: Grid)
    requires Square(g, n) && AllOnGrid(n, cells)
    ensures Square(h, n)
  {
    if cells == [] then g
    else
      var k := |cells| - 1;
      var h := AddTo(g, n, cells[..k], share);
      Put(h, n, cells[k], At(h, n, cells[k]) + share)
  }

  /** k times a share. */
  ghost function Times(k: nat, share: real): real {
    if k == 0 then 0.0 else Times(k - 1, share) + share
  }

  lemma {:induction false} TimesIsProduct(k: nat, share: real)
    ensures Times(k, share) == k as real * share
  {
    if k == 0 {
      assert 0 as real * share == 0.0;
    } else {
      TimesIsProduct(k - 1, share);
      assert k as real * share == (k - 1) as real * share + share;
    }
  }

  lemma {:induction false} AddToTotal(g: Grid, n: nat, cells: seq<Cell>, share: real)
    requires Square(g, n) && AllOnGrid(n, cells)
    ensures Total(AddTo(g, n, cells, share)) == Total(g) + Times(|cells|, share)
  {
    if cells != [] {
      var k := |cells| - 1;
      AddToTotal(g, n, cells[..k], share);
      var h := AddTo(g, n, cells[..k], share);
      TotalPut(h, n, cells[k], At(h, n, cells[k]) + share);
    }
  }

  lemma {:induction false} AddToAt(g: Grid, n: nat, cells: seq<Cell>, share: real, at: Cell)
    requires Square(g, n) && AllOnGrid(n, cells) && Distinct(cells) && OnGrid(n, at)
    ensures At(AddTo(g, n, cells, share), n, at) == At(g, n, at) + (if at in cells then share else 0.0)
  {
    if cells != [] {
      var k := |cells| - 1;
      AddToAt(g, n, cells[..k], share, at);
      assert cells == cells[..k] + [cells[k]];
    }
  }

  lemma NeighboursOnGrid(n: nat, cell: Cell)
    requires OnGrid(n, cell)
    ensures AllOnGrid(n, Neighbours(n, cell)) && 1 <= |Neighbours(n, cell)|
  {
    NeighboursExact(n, cell);
    forall i | 0 <= i < |Neighbours(n, cell)| ensures OnGrid(n, Neighbours(n, cell)[i]) {
      assert Neighbours(n, cell)[i] in Neighbours(n, cell);
    }
  }

  ghost function Share(g: Grid, n: nat, cell: Cell): real
    requires Square(g, n) && OnGrid(n, cell)
  {
    NeighboursOnGrid(n, cell);
    At(g, n, cell) / |Neighbours(n, cell)| as real
  }

  function Zeros(n: nat): Grid {
    seq(n, r => seq(n, c => 0.0))
  }

  /** The spread grid when the cells before (r, c) in reading order have given their mass away. */
  ghost function Scattered(g: Grid, n: nat, r: nat, c: nat): (h: Grid)
    requires Square(g, n) && r <= n && c <= n && (r == n ==> c == 0)
    ensures Square(h, n)
    decreases r, c
  {
    if 0 < c then
      NeighboursOnGrid(n, (r, c - 1));
      AddTo(Scattered(g, n, r, c - 1), n, Neighbours(n, (r, c - 1)), Share(g, n, (r, c - 1)))
    else if 0 < r then Scattered(g, n, r - 1, n)
    else Zeros(n)
  }

  lemma SharesMakeUp(m: real, k: int)
    requires 1 <= k
    ensures Times(k, m / k as real) == m
  {
    TimesIsProduct(k, m / k as real);
    assert k as real * (m / k as real) == m;
  }

  lemma ScatterOnce(g: Grid, n: nat, r: nat, c: nat)
    requires Square(g, n) && r < n && 0 < c <= n
    ensures Total(Scattered(g, n, r, c)) == Total(Scattered(g, n, r, c - 1)) + g[r][c - 1]
  {
    NeighboursOnGrid(n, (r, c - 1));
    var k := |Neighbours(n, (r, c - 1))|;
    AddToTotal(Scattered(g, n, r, c - 1), n, Neighbours(n, (r, c - 1)), Share(g, n, (r, c - 1)));
    SharesMakeUp(g[r][c - 1], k);
  }

  /** Scattering moves mass and neither makes nor loses any. */
  lemma {:induction false} ScatteredTotal(g: Grid, n: nat, r: nat, c: nat)
    requires Square(g, n) && r <= n && c <= n && (r == n ==> c == 0)
    ensures Total(Scattered(g, n, r, c)) == Total(g[..r]) + (if r < n then Sum(g[r][..c]) else 0.0)
    decreases r, c
  {
    hide Share, AddTo, Neighbours, NeighboursAmong;
    if 0 < c {
      ScatteredTotal(g, n, r, c - 1);
      ScatterOnce(g, n, r, c);
      assert g[r][..c][..c - 1] == g[r][..c - 1];
    } else if 0 < r {
      ScatteredTotal(g, n, r - 1, n);
      assert g[..r][..r - 1] == g[..r - 1] && g[r - 1][..n] == g[r - 1];
    } else {
      TotalOfZeros(Zeros(n));
    }
  }

  // ---------- what a cell receives ----------

  predicate Before(cell: Cell, r: int, c: int) {
    cell.0 < r || (cell.0 == r && cell.1 < c)
  }

  ghost function Gift(g: Grid, n: nat, from: Cell, r: int, c: int): real
    requires Square(g, n)
  {
    if OnGrid(n, from) && Before(from, r, c) then Share(g, n, from) else 0.0
  }

  /** The shares a cell has from itself and its four neighbours. */
  ghost function Received(g: Grid, n: nat, at: Cell, r: int, c: int): real
    requires Square(g, n)
  {
    Gift(g, n, at, r, c) + Gift(g, n, Target(at, N), r, c) + Gift(g, n, Target(at, S), r, c)
    + Gift(g, n, Target(at, E), r, c) + Gift(g, n, Target(at, W), r, c)
  }

  lemma GiftStep(g: Grid, n: nat, from: Cell, r: nat, c: nat)
    requires Square(g, n) && r < n && 0 < c <= n
    ensures Gift(g, n, from, r, c) ==
            Gift(g, n, from, r, c - 1) + (if from == (r, c - 1) then Share(g, n, (r, c - 1)) else 0.0)
  {
  }

  lemma ReceivedStep(g: Grid, n: nat, at: Cell, r: nat, c: nat)
    requires Square(g, n) && r < n && 0 < c <= n
    ensures Received(g, n, at, r, c) ==
            Received(g, n, at, r, c - 1) + (if Adjacent((r, c - 1), at) then Share(g, n, (r, c - 1)) else 0.0)
  {
    GiftStep(g, n, at, r, c);
    GiftStep(g, n, Target(at, N), r, c);
    GiftStep(g, n, Target(at, S), r, c);
    GiftStep(g, n, Target(at, E), r, c);
    GiftStep(g, n, Target(at, W), r, c);
    AdjacentCases((r, c - 1), at);
  }

  lemma AdjacentCases(from: Cell, at: Cell)
    ensures Adjacent(from, at) <==>
            at == from || Target(at, N) == from || Target(at, S) == from || Target(at, E) == from || Target(at, W) == from
  {
    if d: Direction :| Target(from, d) == at {
      match d case N => case S => case E => case W =>
    }
    assert Target(at, N) == from ==> Target(from, S) == at;
    assert Target(at, S) == from ==> Target(from, N) == at;
    assert Target(at, E) == from ==> Target(from, W) == at;
    assert Target(at, W) == from ==> Target(from, E) == at;
  }

  lemma ScatteredStep(g: Grid, n: nat, r: nat, c: nat, at: Cell)
    requires Square(g, n) && r < n && 0 < c <= n && OnGrid(n, at)
    ensures At(Scattered(g, n, r, c), n, at) ==
            At(Scattered(g, n, r, c - 1), n, at) + (if Adjacent((r, c - 1), at) then Share(g, n, (r, c - 1)) else 0.0)
  {
    NeighboursExact(n, (r, c - 1));
    NeighboursOnGrid(n, (r, c - 1));
    AddToAt(Scattered(g, n, r, c - 1), n, Neighbours(n, (r, c - 1)), Share(g, n, (r, c - 1)), at);
  }

  lemma {:induction false} ScatteredAt(g: Grid, n: nat, r: nat, c: nat, at: Cell)
    requires Square(g, n) && r <= n && c <= n && (r == n ==> c == 0) && OnGrid(n, at)
    ensures At(Scattered(g, n, r, c), n, at) == Received(g, n, at, r, c)
    decreases r, c
  {
    if 0 < c {
      ScatteredAt(g, n, r, c - 1, at);
      ScatteredStep(g, n, r, c, at);
      ReceivedStep(g, n, at, r, c);
    } else if 0 < r {
      ScatteredAt(g, n, r - 1, n, at);
      NextRowReceived(g, n, at, r);
    }
  }

  lemma NextRowReceived(g: Grid, n: nat, at: Cell, r: nat)
    requires Square(g, n) && 0 < r <= n
    ensures Received(g, n, at, r, 0) == Received(g, n, at, r - 1, n)
  {
    forall from: Cell ensures Gift(g, n, from, r, 0) == Gift(g, n, from, r - 1, n) {
    }
  }

  ghost function Diffused(g: Grid, n: nat): (h: Grid)
    requires Square(g, n)
    ensures Square(h, n)
  {
    Scattered(g, n, n, 0)
  }

  /** Handing mass out cell by cell is the same as every cell collecting an even share from
      itself and each in-bounds neighbour; the total is conserved and no cell runs empty. */
  lemma DiffuseExact(g: Grid, n: nat)
    requires 0 < n && Square(g, n) && AllPositive(g)
    ensures Total(Diffused(g, n)) == Total(g) && AllPositive(Diffused(g, n))
    ensures forall at :: OnGrid(n, at) ==> At(Diffused(g, n), n, at) == Received(g, n, at, n, 0)
  {
    ScatteredTotal(g, n, n, 0);
    assert g[..n] == g;
    forall at | OnGrid(n, at)
      ensures At(Diffused(g, n), n, at) == Received(g, n, at, n, 0)
      ensures 0.0 < At(Diffused(g, n), n, at)
    {
      ScatteredAt(g, n, n, 0, at);
      forall from: Cell ensures 0.0 <= Gift(g, n, from, n, 0) && (OnGrid(n, from) ==> 0.0 < Gift(g, n, from, n, 0)) {
        if OnGrid(n, from) {
          NeighboursOnGrid(n, from);
          Positive(At(g, n, from), |Neighbours(n, from)| as real);
        }
      }
    }
    forall r, c | 0 <= r < n && 0 <= c < n ensures 0.0 < Diffused(g, n)[r][c] {
      assert OnGrid(n, (r, c)) && At(Diffused(g, n), n, (r, c)) == Diffused(g, n)[r][c];
    }
  }

  /** What a cell hands to each cell it reaches: its own belief in equal parts for itself and
      each side on which the board goes on. */
  ghost function Part(g: Grid, n: nat, r: int, c: int): real
    requires Square(g, n)
  {
    if 0 <= r < n && 0 <= c < n then
      var sides := (if 0 < r then 1 else 0) + (if r < n - 1 then 1 else 0) + (if 0 < c then 1 else 0) + (if c < n - 1 then 1 else 0);
      g[r][c] / (1 + sides) as real
    else 0.0
  }

  lemma NeighboursUnfold(n: nat, cell: Cell, ds: seq<Direction>, d: Direction)
    ensures |NeighboursAmong(n, cell, ds + [d])|
         == |NeighboursAmong(n, cell, ds)| + (if OnGrid(n, Target(cell, d)) then 1 else 0)
  {
    assert (ds + [d])[..|ds|] == ds;
  }

  lemma NeighboursCounted(n: nat, r: int, c: int)
    requires 0 <= r < n && 0 <= c < n
    ensures |Neighbours(n, (r, c))|
         == 1 + (if 0 < r then 1 else 0) + (if r < n - 1 then 1 else 0) + (if 0 < c then 1 else 0) + (if c < n - 1 then 1 else 0)
  {
    var cell := (r, c);
    NeighboursUnfold(n, cell, [], N);
    NeighboursUnfold(n, cell, [N], S);
    NeighboursUnfold(n, cell, [N, S], E);
    NeighboursUnfold(n, cell, [N, S, E], W);
    assert [] + [N] == [N] && [N] + [S] == [N, S] && [N, S] + [E] == [N, S, E] && [N, S, E] + [W] == ORTHOGONALS;
  }

  lemma GiftIsPart(g: Grid, n: nat, r: int, c: int)
    requires Square(g, n)
    ensures Gift(g, n, (r, c), n, 0) == Part(g, n, r, c)
  {
    if OnGrid(n, (r, c)) {
      NeighboursCounted(n, r, c);
      hide Neighbours;
    }
  }

  lemma ReceivedAround(g: Grid, n: nat, r: int, c: int)
    requires Square(g, n)
    ensures Received(g, n, (r, c), n, 0)
         == Gift(g, n, (r, c), n, 0) + Gift(g, n, (r - 1, c), n, 0) + Gift(g, n, (r + 1, c), n, 0)
          + Gift(g, n, (r, c + 1), n, 0) + Gift(g, n, (r, c - 1), n, 0)
  {
    hide Gift;
  }

  lemma DiffusedAt(g: Grid, n: nat, r: nat, c: nat)
    requires 0 < n && Square(g, n) && AllPositive(g) && r < n && c < n
    ensures Diffused(g, n)[r][c] == Received(g, n, (r, c), n, 0)
  {
    DiffuseExact(g, n);
    hide Received, Diffused, Total, AllPositive;
    assert OnGrid(n, (r, c)) && At(Diffused(g, n), n, (r, c)) == Diffused(g, n)[r][c];
  }

  /** The spread on the board: each cell collects an equal part from itself and from each of the
      four cells around it. */
  lemma DiffuseByParts(g: Grid, n: nat, r: nat, c: nat)
    requires 0 < n && Square(g, n) && AllPositive(g) && r < n && c < n
    ensures Diffused(g, n)[r][c]
         == Part(g, n, r, c) + Part(g, n, r - 1, c) + Part(g, n, r + 1, c) + Part(g, n, r, c + 1) + Part(g, n, r, c - 1)
  {
    hide Gift, Part, Diffused, Received, AllPositive;
    DiffusedAt(g, n, r, c);
    ReceivedAround(g, n, r, c);
    GiftIsPart(g, n, r, c);
    GiftIsPart(g, n, r - 1, c);
    GiftIsPart(g, n, r + 1, c);
    GiftIsPart(g, n, r, c + 1);
    GiftIsPart(g, n, r, c - 1);
  }

  // ---------- the grid in place ----------

  lemma UniformTotal(n: Size)
    ensures n as real * (n as real * (1.0 / (n as real * n as real))) == 1.0
    ensures 0.0 < 1.0 / (n as real * n as real)
  {
    var x := n as real;
    assert 0.0 < x * x;
    var u := 1.0 / (x * x);
    assert x * (x * u) == (x * x) * u;
  }

  /** No cell is likelier than another. */
  function Uniform(n: Size): (g: Grid)
    ensures Distribution(g, n)
    ensures forall r, c :: 0 <= r < n && 0 <= c < n ==> g[r][c] == g[0][0]
  {
    var uniform := 1.0 / (n as real * n as real);
    var g := seq(n, r requires 0 <= r < n => seq(n, c => uniform));
    assert Distribution(g, n) by {
      TotalUniform(g, n, uniform);
      UniformTotal(n);
    }
    g
  }

  class BeliefGrid {
    const size: Size
    var matrix: Grid

    ghost predicate Valid()
      reads this
    {
      Distribution(matrix, size)
    }

    constructor (size: Size)
      ensures this.size == size && Valid() && matrix == Uniform(size)
    {
      this.size := size;
      matrix := Uniform(size);
    }

    method Normalize()
      requires Square(matrix, size) && Total(matrix) != 0.0
      modifies this`matrix
      ensures matrix == Normalized(old(matrix), size)
    {
      matrix := Normalized(matrix, size);
    }

    /** The nested loops that multiply every cell by its own weight, in place. */
    method Reweigh(w: (int, int) -> real)
      requires Square(matrix, size)
      modifies this`matrix
      ensures matrix == Scaled(old(matrix), size, w)
    {
      ghost var g := matrix;
      for r := 0 to size
        invariant Square(matrix, size)
        invariant forall i, j :: 0 <= i < size && 0 <= j < size ==>
                    matrix[i][j] == if i < r then Scaled(g, size, w)[i][j] else g[i][j]
      {
        for c := 0 to size
          invariant Square(matrix, size)
          invariant forall i, j :: 0 <= i < size && 0 <= j < size ==>
                      matrix[i][j] == if i < r || (i == r && j < c) then Scaled(g, size, w)[i][j] else g[i][j]
        {
          matrix := matrix[r := matrix[r][c := matrix[r][c] * w(r, c)]];
        }
      }
      PointwiseUnique(matrix, Scaled(g, size, w), size);
    }

    method ObserveScent(cells: map<Cell, real>)
      requires Valid() && NonNegative(cells)
      modifies this`matrix
      ensures Valid()
      ensures Total(Scaled(old(matrix), size, ScentWeight(cells))) != 0.0
      ensures matrix == Smelled(old(matrix), size, cells)
    {
      SmelledIsDistribution(matrix, size, cells);
      Reweigh(ScentWeight(cells));
      Normalize();
    }

    method ObserveDeclaration(cell: Cell, radius: int, trust: real)
      requires Valid() && 0.0 < trust < 1.0
      modifies this`matrix
      ensures Valid() && matrix == Declared(old(matrix), size, cell, radius, trust)
    {
      hide Masked, Scaled, Total, Mass;
      var inside := Mass(matrix, size, cell, radius);
      var remaining := 1.0 - inside;
      if inside <= 0.0 || remaining <= 0.0 {
        return;
      }
      var w := BallWeight(size, cell, radius, trust / inside, (1.0 - trust) / remaining);
      DeclaredTotals(matrix, size, cell, radius, trust, inside);
      NormalizedKeepsUnit(Scaled(matrix, size, w), size);
      Reweigh(w);
      Normalize();
    }

    /** The inner loop over one cell's neighbours. */
    static method HandOut(n: nat, spread: Grid, neighbours: seq<Cell>, share: real) returns (given: Grid)
      requires Square(spread, n) && AllOnGrid(n, neighbours)
      ensures given == AddTo(spread, n, neighbours, share)
    {
      given := spread;
      for i := 0 to |neighbours|
        invariant given == AddTo(spread, n, neighbours[..i], share)
      {
        assert neighbours[..i + 1][..i] == neighbours[..i];
        var at := neighbours[i];
        given := given[at.0 := given[at.0][at.1 := given[at.0][at.1] + share]];
      }
      assert neighbours[..|neighbours|] == neighbours;
    }

    /** The scatter loops. */
    method Diffuse()
      requires Valid()
      modifies this`matrix
      ensures Valid() && matrix == Diffused(old(matrix), size)
    {
      var spread := Zeros(size);
      for r := 0 to size
        invariant matrix == old(matrix) && spread == Scattered(matrix, size, r, 0)
      {
        for c := 0 to size
          invariant matrix == old(matrix) && spread == Scattered(matrix, size, r, c)
        {
          NeighboursOnGrid(size, (r, c));
          var neighbours := Neighbours(size, (r, c));
          var mass := matrix[r][c];
          var share := mass / |neighbours| as real;
          spread := HandOut(size, spread, neighbours, share);
        }
      }
      DiffuseExact(matrix, size);
      NormalizedKeepsUnit(spread, size);
      matrix := spread;
      Normalize();
    }

    /** The first cell, in reading order, of greatest probability. */
    method MostLikely() returns (best: Cell)
      requires Valid()
      ensures InBounds(size, best)
      ensures forall r, c :: 0 <= r < size && 0 <= c < size ==> matrix[r][c] <= matrix[best.0][best.1]
      ensures forall r, c :: 0 <= r < size && 0 <= c < size && Before((r, c), best.0, best.1) ==>
                matrix[r][c] < matrix[best.0][best.1]
    {
      best := (0, 0);
      var bestP := -1.0;
      for r := 0 to size
        invariant InBounds(size, best) && (r == 0 ==> bestP == -1.0 && best == (0, 0))
        invariant 0 < r ==> bestP == matrix[best.0][best.1] && best.0 < r
        invariant forall i, j :: 0 <= i < r && 0 <= j < size ==> matrix[i][j] <= bestP
        invariant forall i, j :: 0 <= i < r && 0 <= j < size && Before((i, j), best.0, best.1) ==> matrix[i][j] < bestP
      {
        for c := 0 to size
          invariant InBounds(size, best) && (r == c == 0 ==> bestP == -1.0 && best == (0, 0))
          invariant 0 < r || 0 < c ==> bestP == matrix[best.0][best.1] && Before(best, r, c)
          invariant forall i, j :: 0 <= i < size && 0 <= j < size && Before((i, j), r, c) ==> matrix[i][j] <= bestP
          invariant forall i, j :: 0 <= i < size && 0 <= j < size && Before((i, j), best.0, best.1) ==> matrix[i][j] < bestP
        {
          if matrix[r][c] > bestP {
            best, bestP := (r, c), matrix[r][c];
          }
        }
      }
    }
  }

  // ---------- every history of evidence ----------

  datatype Evidence = Unseen | Smell(cells: map<Cell, real>) | Stated(cell: Cell, radius: int, trust: real)

  predicate Sound(e: Evidence) {
    match e
    case Unseen => true
    case Smell(cells) => NonNegative(cells)
    case Stated(_, _, trust) => 0.0 < trust < 1.0
  }

  ghost function Update(g: Grid, n: nat, e: Evidence): (h: Grid)
    requires 0 < n && Distribution(g, n) && Sound(e)
    ensures Distribution(h, n)
  {
    match e
    case Unseen =>
      DiffuseExact(g, n);
      Diffused(g, n)
    case Smell(cells) =>
      SmelledIsDistribution(g, n, cells);
      Smelled(g, n, cells)
    case Stated(cell, radius, trust) =>
      DeclarationExact(g, n, cell, radius, trust);
      Declared(g, n, cell, radius, trust)
  }

  /** Whatever is observed in whatever order, the belief stays a probability distribution in
      which no cell is ruled out. */
  ghost function After(n: Size, history: seq<Evidence>): (g: Grid)
    requires forall i :: 0 <= i < |history| ==> Sound(history[i])
    ensures Distribution(g, n)
  {
    if history == [] then Uniform(n)
    else Update(After(n, history[..|history| - 1]), n, history[|history| - 1])
  }
}
