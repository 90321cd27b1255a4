/**
 The star stencil of radius r on an n x n grid: what one time step computes, the plain
 kernel's point, and the indirect-stream kernel's 2x2 block.

 Grids are flat, row by row: cell (y, x) is element y * n + x.  Values are exact reals.
 */
module StarStencil {
  import opened Arithmetic

  datatype Coefs = Coefs(cc: real, xm: seq<real>, xp: seq<real>, ym: seq<real>, yp: seq<real>) {
    ghost predicate OfRadius(r: nat) {
      |xm| == |xp| == |ym| == |yp| == r
    }
  }

  function Cell(g: seq<real>, i: int): (v: real) {
    if 0 <= i < |g| then g[i] else 0.0
  }

  /** A coefficient times a grid value. */
  ghost function Term(w: real, v: real): (t: real) {
    w * v
  }

  /** The first `j` cells of each of the four arms around cell `i`. */
  ghost function Arms(g: seq<real>, n: nat, c: Coefs, i: int, j: nat): (v: real)
    requires j <= |c.xm| && c.OfRadius(|c.xm|)
  {
    if j == 0 then 0.0
    else
      Arms(g, n, c, i, j - 1)
      + Term(c.xm[j - 1], Cell(g, i - j)) + Term(c.xp[j - 1], Cell(g, i + j))
      + Term(c.ym[j - 1], Cell(g, i - j * n)) + Term(c.yp[j - 1], Cell(g, i + j * n))
  }

  ghost function Star(g: seq<real>, n: nat, r: nat, c: Coefs, i: int): (v: real)
    requires c.OfRadius(r)
  {
    Term(c.cc, Cell(g, i)) + Arms(g, n, c, i, r)
  }

  /** Cells at least `r` away from every edge. */
  predicate Interior(n: nat, r: nat, i: nat)
    requires n > 0
  {
    r <= i / n < n - r && r <= i % n < n - r
  }

  /** One time step: interior cells of `dst` get the stencil of `src`, the others stay. */
  ghost function Step(n: nat, r: nat, c: Coefs, src: seq<real>, dst: seq<real>): (g: seq<real>)
    requires c.OfRadius(r) && |src| == |dst| == n * n && n > 0
    ensures |g| == n * n
  {
    seq(n * n, i requires 0 <= i < n * n => if Interior(n, r, i) then Star(src, n, r, c, i) else dst[i])
  }

  // ----- Arithmetic of cells

  lemma {:induction false} CellOf(n: nat, y: nat, x: nat)
    requires y < n && x < n
    ensures y * n + x < n * n
    ensures (y * n + x) / n == y && (y * n + x) % n == x
  {
    assert (y + 1) * n <= n * n by { MulMono(y + 1, n, n); }
    DivModUnique(y * n + x, n, y, x);
  }

  lemma {:induction false} MulMono(a: nat, b: nat, n: nat)
    requires a <= b
    ensures a * n <= b * n
  {
    assert b * n == a * n + (b - a) * n;
    assert (b - a) * n >= 0;
  }

  lemma {:induction false} RowCol(n: nat, i: nat)
    requires i < n * n
    ensures n > 0 && i / n < n && i == (i / n) * n + i % n
  {
    if i / n >= n {
      MulMono(n, i / n, n);
    }
  }

  /** The arm cells of an interior cell are in the grid. */
  lemma {:induction false} ArmInGrid(n: nat, r: nat, y: nat, x: nat, j: nat)
    requires r <= y && y + r < n && r <= x && x + r < n && j <= r
    ensures 0 <= y * n + x - j * n && y * n + x + j * n < n * n
    ensures 0 <= y * n + x - j && y * n + x + j < n * n
    ensures y * n + x - j * n == (y - j) * n + x && y * n + x + j * n == (y + j) * n + x
  {
    assert (y - j) * n == y * n - j * n && (y + j) * n == y * n + j * n;
    CellOf(n, y - j, x);
    CellOf(n, y + j, x);
    CellOf(n, y, x - j);
    CellOf(n, y, x + j);
  }

  // ----- The stencil in rows and columns

  /** The cell in row `y` and column `x`. */
  function At(g: seq<real>, n: nat, y: nat, x: nat): (v: real)
    requires |g| == n * n && y < n && x < n
  {
    CellOf(n, y, x);
    g[y * n + x]
  }

  /** The cell times the centre coefficient, and for each distance up to `d` the four neighbours at that
      distance times their coefficients. */
  ghost function Weighted(g: seq<real>, n: nat, c: Coefs, y: nat, x: nat, d: nat): (v: real)
    requires |g| == n * n && d <= |c.xm| && c.OfRadius(|c.xm|)
    requires d <= y && y + d < n && d <= x && x + d < n
  {
    if d == 0 then c.cc * At(g, n, y, x) else Weighted(g, n, c, y, x, d - 1) + Ring(g, n, c, y, x, d)
  }

  /** The four neighbours at distance `d` times their coefficients. */
  ghost function Ring(g: seq<real>, n: nat, c: Coefs, y: nat, x: nat, d: nat): (v: real)
    requires |g| == n * n && 1 <= d <= |c.xm| && c.OfRadius(|c.xm|)
    requires d <= y && y + d < n && d <= x && x + d < n
  {
    c.xm[d - 1] * At(g, n, y, x - d) + c.xp[d - 1] * At(g, n, y, x + d)
    + c.ym[d - 1] * At(g, n, y - d, x) + c.yp[d - 1] * At(g, n, y + d, x)
  }

  lemma {:induction false} TermIsProduct(w: real, v: real)
    ensures Term(w, v) == w * v
  {}

  lemma {:induction false} CellAt(g: seq<real>, n: nat, y: nat, x: nat)
    requires |g| == n * n && y < n && x < n
    ensures Cell(g, y * n + x) == At(g, n, y, x)
  {
    CellOf(n, y, x);
  }

  lemma {:induction false} RingIs(g: seq<real>, n: nat, c: Coefs, y: nat, x: nat, d: nat)
    requires |g| == n * n && 1 <= d <= |c.xm| && c.OfRadius(|c.xm|)
    requires d <= y && y + d < n && d <= x && x + d < n
    ensures var i := y * n + x;
      Term(c.xm[d - 1], Cell(g, i - d)) + Term(c.xp[d - 1], Cell(g, i + d))
      + Term(c.ym[d - 1], Cell(g, i - d * n)) + Term(c.yp[d - 1], Cell(g, i + d * n)) == Ring(g, n, c, y, x, d)
  {
    hide Term, Cell, At;
    ArmInGrid(n, d, y, x, d);
    CellAt(g, n, y, x - d);
    CellAt(g, n, y, x + d);
    CellAt(g, n, y - d, x);
    CellAt(g, n, y + d, x);
    TermIsProduct(c.xm[d - 1], At(g, n, y, x - d));
    TermIsProduct(c.xp[d - 1], At(g, n, y, x + d));
    TermIsProduct(c.ym[d - 1], At(g, n, y - d, x));
    TermIsProduct(c.yp[d - 1], At(g, n, y + d, x));
  }

  lemma {:induction false} ArmsAreWeighted(g: seq<real>, n: nat, c: Coefs, y: nat, x: nat, d: nat)
    requires |g| == n * n && d <= |c.xm| && c.OfRadius(|c.xm|)
    requires d <= y && y + d < n && d <= x && x + d < n
    ensures Term(c.cc, Cell(g, y * n + x)) + Arms(g, n, c, y * n + x, d) == Weighted(g, n, c, y, x, d)
  {
    hide Arms, Term, Cell, At, Ring;
    if d == 0 {
      NoArms(g, n, c, y * n + x);
      CellAt(g, n, y, x);
      TermIsProduct(c.cc, At(g, n, y, x));
    } else {
      ArmsAreWeighted(g, n, c, y, x, d - 1);
      ArmsStep(g, n, c, y * n + x, d);
      RingIs(g, n, c, y, x, d);
    }
  }

  lemma {:induction false} StarIsWeighted(g: seq<real>, n: nat, r: nat, c: Coefs, y: nat, x: nat)
    requires |g| == n * n && c.OfRadius(r) && r <= y && y + r < n && r <= x && x + r < n
    ensures Star(g, n, r, c, y * n + x) == Weighted(g, n, c, y, x, r)
  {
    ArmsAreWeighted(g, n, c, y, x, r);
  }

  /** `dst` is `before` with the weighted sum of `src` in every cell at least `r` away from the edges. */
  ghost predicate Stepped(src: seq<real>, before: seq<real>, dst: seq<real>, n: nat, r: nat, c: Coefs)
    requires |src| == |before| == |dst| == n * n && c.OfRadius(r)
  {
    forall y: nat, x: nat :: y < n && x < n ==>
      At(dst, n, y, x) == if r <= y && y + r < n && r <= x && x + r < n then Weighted(src, n, c, y, x, r)
                          else At(before, n, y, x)
  }

  lemma {:induction false} StepIsStepped(n: nat, r: nat, c: Coefs, src: seq<real>, before: seq<real>)
    requires c.OfRadius(r) && |src| == |before| == n * n && n > 0
    ensures Stepped(src, before, Step(n, r, c, src, before), n, r, c)
  {
    hide Star, Weighted, At, Step;
    forall y: nat, x: nat | y < n && x < n
      ensures At(Step(n, r, c, src, before), n, y, x)
           == if r <= y && y + r < n && r <= x && x + r < n then Weighted(src, n, c, y, x, r) else At(before, n, y, x)
    {
      StepAt(n, r, c, src, before, y, x);
    }
  }

  lemma {:induction false} StepAt(n: nat, r: nat, c: Coefs, src: seq<real>, before: seq<real>, y: nat, x: nat)
    requires c.OfRadius(r) && |src| == |before| == n * n && y < n && x < n
    ensures At(Step(n, r, c, src, before), n, y, x)
         == if r <= y && y + r < n && r <= x && x + r < n then Weighted(src, n, c, y, x, r) else At(before, n, y, x)
  {
    hide Star, Weighted;
    CellOf(n, y, x);
    if r <= y && y + r < n && r <= x && x + r < n {
      StarIsWeighted(src, n, r, c, y, x);
    }
  }

  // ----- What the stencil means

  ghost function Zeros(r: nat): (s: seq<real>)
    ensures |s| == r && forall j :: 0 <= j < r ==> s[j] == 0.0
  {
    seq(r, _ => 0.0)
  }

  /** All coefficients zero but the centre one. */
  ghost function Centre(r: nat, w: real): (c: Coefs)
    ensures c.OfRadius(r)
  {
    Coefs(w, Zeros(r), Zeros(r), Zeros(r), Zeros(r))
  }

  lemma {:induction false} CentreIsWeight(g: seq<real>, n: nat, r: nat, w: real, y: nat, x: nat, d: nat)
    requires |g| == n * n && d <= r && d <= y && y + d < n && d <= x && x + d < n
    ensures Weighted(g, n, Centre(r, w), y, x, d) == w * At(g, n, y, x)
  {
    hide At, Ring;
    if d > 0 {
      CentreIsWeight(g, n, r, w, y, x, d - 1);
      CentreRing(g, n, r, w, y, x, d);
    }
  }

  lemma {:induction false} CentreRing(g: seq<real>, n: nat, r: nat, w: real, y: nat, x: nat, d: nat)
    requires |g| == n * n && 1 <= d <= r && d <= y && y + d < n && d <= x && x + d < n
    ensures Ring(g, n, Centre(r, w), y, x, d) == 0.0
  {
    hide At;
    NoWeight(At(g, n, y, x - d));
    NoWeight(At(g, n, y, x + d));
    NoWeight(At(g, n, y - d, x));
    NoWeight(At(g, n, y + d, x));
  }

  /** With a centre coefficient of one and no other, the stencil is the cell itself. */
  lemma {:induction false} CentreOnly(g: seq<real>, n: nat, r: nat, y: nat, x: nat)
    requires |g| == n * n && r <= y && y + r < n && r <= x && x + r < n
    ensures Star(g, n, r, Centre(r, 1.0), y * n + x) == At(g, n, y, x)
  {
    hide Star;
    StarIsWeighted(g, n, r, Centre(r, 1.0), y, x);
    CentreIsWeight(g, n, r, 1.0, y, x, r);
  }

  datatype Direction = West | East | South | North

  /** All coefficients zero but the one at distance `j + 1` in one direction. */
  ghost function Single(r: nat, j: nat, dir: Direction): (c: Coefs)
    requires j < r
    ensures c.OfRadius(r)
  {
    var (z, one) := (Zeros(r), Zeros(r)[j := 1.0]);
    match dir
    case West => Coefs(0.0, one, z, z, z)
    case East => Coefs(0.0, z, one, z, z)
    case South => Coefs(0.0, z, z, one, z)
    case North => Coefs(0.0, z, z, z, one)
  }

  lemma {:induction false} SingleIsNeighbour(g: seq<real>, n: nat, r: nat, j: nat, dir: Direction, y: nat, x: nat, d: nat)
    requires |g| == n * n && j < r && d <= r && r <= y && y + r < n && r <= x && x + r < n
    ensures Weighted(g, n, Single(r, j, dir), y, x, d)
         == if d <= j then 0.0
            else match dir
                 case West => At(g, n, y, x - (j + 1)) case East => At(g, n, y, x + (j + 1))
                 case South => At(g, n, y - (j + 1), x) case North => At(g, n, y + (j + 1), x)
  {
    hide At, Single, Ring;
    if d == 0 {
      NoCentre(r, j, dir);
      NoWeight(At(g, n, y, x));
    } else {
      SingleIsNeighbour(g, n, r, j, dir, y, x, d - 1);
      SingleRing(g, n, r, j, dir, y, x, d);
    }
  }

  lemma {:induction false} NoCentre(r: nat, j: nat, dir: Direction)
    requires j < r
    ensures Single(r, j, dir).cc == 0.0
  {}

  lemma {:induction false} NoWeight(v: real)
    ensures 0.0 * v == 0.0
  {}

  lemma {:induction false} SingleRing(g: seq<real>, n: nat, r: nat, j: nat, dir: Direction, y: nat, x: nat, d: nat)
    requires |g| == n * n && j < r && 1 <= d <= r && d <= y && y + d < n && d <= x && x + d < n
    ensures Ring(g, n, Single(r, j, dir), y, x, d)
         == if d != j + 1 then 0.0
            else match dir
                 case West => At(g, n, y, x - d) case East => At(g, n, y, x + d)
                 case South => At(g, n, y - d, x) case North => At(g, n, y + d, x)
  {
    hide At;
    NoWeight(At(g, n, y, x - d));
    NoWeight(At(g, n, y, x + d));
    NoWeight(At(g, n, y - d, x));
    NoWeight(At(g, n, y + d, x));
  }

  /** With a single coefficient of one, the stencil is the neighbour at its distance and in its direction. */
  lemma {:induction false} SingleOnly(g: seq<real>, n: nat, r: nat, j: nat, dir: Direction, y: nat, x: nat)
    requires |g| == n * n && j < r && r <= y && y + r < n && r <= x && x + r < n
    ensures Star(g, n, r, Single(r, j, dir), y * n + x)
         == match dir
            case West => At(g, n, y, x - (j + 1)) case East => At(g, n, y, x + (j + 1))
            case South => At(g, n, y - (j + 1), x) case North => At(g, n, y + (j + 1), x)
  {
    hide Star;
    StarIsWeighted(g, n, r, Single(r, j, dir), y, x);
    SingleIsNeighbour(g, n, r, j, dir, y, x, r);
  }

  ghost function Sum(a: seq<real>, b: seq<real>): (s: seq<real>)
    requires |a| == |b|
    ensures |s| == |a| && forall j :: 0 <= j < |a| ==> s[j] == a[j] + b[j]
  {
    seq(|a|, j requires 0 <= j < |a| => a[j] + b[j])
  }

  ghost function Multiple(k: real, a: seq<real>): (s: seq<real>)
    ensures |s| == |a| && forall j :: 0 <= j < |a| ==> s[j] == k * a[j]
  {
    seq(|a|, j requires 0 <= j < |a| => k * a[j])
  }

  /** `k` times the coefficients of `b`, added to those of `a`. */
  ghost function Combined(a: Coefs, k: real, b: Coefs, r: nat): (c: Coefs)
    requires a.OfRadius(r) && b.OfRadius(r)
    ensures c.OfRadius(r)
  {
    Coefs(a.cc + k * b.cc, Sum(a.xm, Multiple(k, b.xm)), Sum(a.xp, Multiple(k, b.xp)),
          Sum(a.ym, Multiple(k, b.ym)), Sum(a.yp, Multiple(k, b.yp)))
  }

  lemma {:induction false} Distributes(a: real, k: real, b: real, v: real)
    ensures (a + k * b) * v == a * v + k * (b * v)
  {}

  lemma {:induction false} WeightedIsLinear(g: seq<real>, n: nat, r: nat, a: Coefs, k: real, b: Coefs, y: nat, x: nat, d: nat)
    requires |g| == n * n && a.OfRadius(r) && b.OfRadius(r) && d <= r
    requires d <= y && y + d < n && d <= x && x + d < n
    ensures Weighted(g, n, Combined(a, k, b, r), y, x, d) == Weighted(g, n, a, y, x, d) + k * Weighted(g, n, b, y, x, d)
  {
    hide At, Ring, Combined;
    if d == 0 {
      CombinedCentre(a, k, b, r, At(g, n, y, x));
    } else {
      WeightedIsLinear(g, n, r, a, k, b, y, x, d - 1);
      RingIsLinear(g, n, r, a, k, b, y, x, d);
      Adds(Weighted(g, n, b, y, x, d - 1), Ring(g, n, b, y, x, d), k);
    }
  }

  lemma {:induction false} Adds(u: real, v: real, k: real)
    ensures k * (u + v) == k * u + k * v
  {}

  lemma {:induction false} CombinedCentre(a: Coefs, k: real, b: Coefs, r: nat, v: real)
    requires a.OfRadius(r) && b.OfRadius(r)
    ensures Combined(a, k, b, r).cc * v == a.cc * v + k * (b.cc * v)
  {
    Distributes(a.cc, k, b.cc, v);
  }

  lemma {:induction false} FourTerms(a: real, b: real, c: real, d: real, k: real)
    ensures k * (a + b + c + d) == k * a + k * b + k * c + k * d
  {}

  lemma {:induction false} RingIsLinear(g: seq<real>, n: nat, r: nat, a: Coefs, k: real, b: Coefs, y: nat, x: nat, d: nat)
    requires |g| == n * n && a.OfRadius(r) && b.OfRadius(r) && 1 <= d <= r
    requires d <= y && y + d < n && d <= x && x + d < n
    ensures Ring(g, n, Combined(a, k, b, r), y, x, d) == Ring(g, n, a, y, x, d) + k * Ring(g, n, b, y, x, d)
  {
    hide At;
    var j := d - 1;
    var (w, e, s, t) := (At(g, n, y, x - d), At(g, n, y, x + d), At(g, n, y - d, x), At(g, n, y + d, x));
    Distributes(a.xm[j], k, b.xm[j], w);
    Distributes(a.xp[j], k, b.xp[j], e);
    Distributes(a.ym[j], k, b.ym[j], s);
    Distributes(a.yp[j], k, b.yp[j], t);
    FourTerms(b.xm[j] * w, b.xp[j] * e, b.ym[j] * s, b.yp[j] * t, k);
  }

  /** The stencil is linear in its coefficients. */
  lemma {:induction false} StarIsLinear(g: seq<real>, n: nat, r: nat, a: Coefs, k: real, b: Coefs, y: nat, x: nat)
    requires |g| == n * n && a.OfRadius(r) && b.OfRadius(r) && r <= y && y + r < n && r <= x && x + r < n
    ensures Star(g, n, r, Combined(a, k, b, r), y * n + x)
         == Star(g, n, r, a, y * n + x) + k * Star(g, n, r, b, y * n + x)
  {
    hide Star, Weighted;
    StarIsWeighted(g, n, r, Combined(a, k, b, r), y, x);
    StarIsWeighted(g, n, r, a, y, x);
    StarIsWeighted(g, n, r, b, y, x);
    WeightedIsLinear(g, n, r, a, k, b, y, x, r);
  }

  // ----- The plain kernel

  /** The accumulation of one grid point. */
  method PlainPoint(src: array<real>, n: nat, r: nat, c: Coefs, y: nat, x: nat) returns (acc: real)
    requires c.OfRadius(r) && src.Length == n * n
    requires r <= y && y + r < n && r <= x && x + r < n
    ensures acc == Star(src[..], n, r, c, y * n + x)
    ensures acc == Weighted(src[..], n, c, y, x, r)
  {
    hide Arms, Cell, Term, Weighted;
    ghost var (g, i) := (src[..], y * n + x);
    ArmInGrid(n, r, y, x, 0);
    CellIs(g, i, src[y * n + x]);
    TermIsProduct(c.cc, src[y * n + x]);
    acc := c.cc * src[y * n + x];
    NoArms(g, n, c, i);
    for dr := 0 to r
      invariant acc == Term(c.cc, Cell(g, i)) + Arms(g, n, c, i, dr)
    {
      ghost var j := dr + 1;
      ArmInGrid(n, r, y, x, j);
      var (west, east) := (src[y * n + (x - 1 - dr)], src[y * n + (x + 1 + dr)]);
      var (south, north) := (src[(y - 1 - dr) * n + x], src[(y + 1 + dr) * n + x]);
      CellIs(g, i - j, west);
      CellIs(g, i + j, east);
      CellIs(g, i - j * n, south);
      CellIs(g, i + j * n, north);
      ArmsStep(g, n, c, i, j);
      TermIsProduct(c.xm[dr], west);
      TermIsProduct(c.xp[dr], east);
      TermIsProduct(c.ym[dr], south);
      TermIsProduct(c.yp[dr], north);
      acc := acc + c.xm[dr] * west;
      acc := acc + c.xp[dr] * east;
      acc := acc + c.ym[dr] * south;
      acc := acc + c.yp[dr] * north;
    }
    StarIsWeighted(g, n, r, c, y, x);
  }

  lemma CellIs(g: seq<real>, i: int, v: real)
    requires 0 <= i < |g| && g[i] == v
    ensures Cell(g, i) == v
  {
  }

  lemma NoArms(g: seq<real>, n: nat, c: Coefs, i: int)
    requires c.OfRadius(|c.xm|)
    ensures Arms(g, n, c, i, 0) == 0.0
  {
  }

  lemma ArmsStep(g: seq<real>, n: nat, c: Coefs, i: int, j: nat)
    requires c.OfRadius(|c.xm|) && 1 <= j <= |c.xm|
    ensures Arms(g, n, c, i, j)
            == Arms(g, n, c, i, j - 1) + Term(c.xm[j - 1], Cell(g, i - j)) + Term(c.xp[j - 1], Cell(g, i + j))
               + Term(c.ym[j - 1], Cell(g, i - j * n)) + Term(c.yp[j - 1], Cell(g, i + j * n))
  {
  }

  // ----- The indirect-stream kernel: index and coefficient tables

  const INDEX_RANGE: nat := 0x1_0000

  function Index(v: int): (i: nat) {
    v % INDEX_RANGE
  }

  function Points(r: nat): (k: nat) {
    1 + 4 * r
  }

  /** Offset of the k-th stencil point from the corner of the stencil's bounding box. */
  ghost function PointOffset(n: nat, r: nat, k: nat): (o: int) {
    var (cc, j) := (r * n + r, (k + 3) / 4);
    if k == 0 then cc
    else match (k - 1) % 4 case 0 => cc - j * n case 1 => cc - j case 2 => cc + j case _ => cc + j * n
  }

  ghost function PointCoef(c: Coefs, k: nat): (v: real)
    requires k < Points(|c.xm|) && c.OfRadius(|c.xm|)
  {
    if k == 0 then c.cc
    else
      var j := (k - 1) / 4;
      match (k - 1) % 4 case 0 => c.ym[j] case 1 => c.xm[j] case 2 => c.xp[j] case _ => c.yp[j]
  }

  /** The sum over the first `k` stencil points, in stream order. */
  ghost function Dot(g: seq<real>, n: nat, r: nat, c: Coefs, base: int, k: nat): (v: real)
    requires c.OfRadius(r) && k <= Points(r)
  {
    if k == 0 then 0.0
    else Dot(g, n, r, c, base, k - 1) + Term(PointCoef(c, k - 1), Cell(g, base + PointOffset(n, r, k - 1)))
  }

  /** The k-th point, counted by arm distance and direction. */
  lemma {:induction false} PointAt(n: nat, r: nat, c: Coefs, j: nat, d: nat)
    requires c.OfRadius(r) && 1 <= j <= r && d < 4
    ensures var (k, j') := (4 * j - 3 + d, j as int);
      && k < Points(r)
      && PointOffset(n, r, k) == (r * n + r) + (if d == 0 then -(j' * n) else if d == 1 then -j' else if d == 2 then j' else j' * n)
      && PointCoef(c, k) == (if d == 0 then c.ym else if d == 1 then c.xm else if d == 2 then c.xp else c.yp)[j - 1]
  {
    var k := 4 * j - 3 + d;
    assert (k + 3) / 4 == j && (k - 1) / 4 == j - 1 && (k - 1) % 4 == d;
  }

  lemma DotStep(g: seq<real>, n: nat, r: nat, c: Coefs, base: int, k: nat)
    requires c.OfRadius(r) && k < Points(r)
    ensures Dot(g, n, r, c, base, k + 1)
            == Dot(g, n, r, c, base, k) + Term(PointCoef(c, k), Cell(g, base + PointOffset(n, r, k)))
  {
  }

  lemma {:induction false} DotArm(g: seq<real>, n: nat, r: nat, c: Coefs, base: int, j: nat)
    requires c.OfRadius(r) && 1 <= j <= r
    ensures var (i, k) := (base + r * n + r, 4 * j - 3);
      && Dot(g, n, r, c, base, k + 1) == Dot(g, n, r, c, base, k) + Term(c.ym[j - 1], Cell(g, i - j * n))
      && Dot(g, n, r, c, base, k + 2) == Dot(g, n, r, c, base, k + 1) + Term(c.xm[j - 1], Cell(g, i - j))
      && Dot(g, n, r, c, base, k + 3) == Dot(g, n, r, c, base, k + 2) + Term(c.xp[j - 1], Cell(g, i + j))
      && Dot(g, n, r, c, base, k + 4) == Dot(g, n, r, c, base, k + 3) + Term(c.yp[j - 1], Cell(g, i + j * n))
  {
    hide Dot, Cell, PointOffset, PointCoef, Term;
    var k := 4 * j - 3;
    PointAt(n, r, c, j, 0);
    DotStep(g, n, r, c, base, k);
    PointAt(n, r, c, j, 1);
    DotStep(g, n, r, c, base, k + 1);
    PointAt(n, r, c, j, 2);
    DotStep(g, n, r, c, base, k + 2);
    PointAt(n, r, c, j, 3);
    DotStep(g, n, r, c, base, k + 3);
  }

  lemma DotCenter(g: seq<real>, n: nat, r: nat, c: Coefs, base: int)
    requires c.OfRadius(r)
    ensures Dot(g, n, r, c, base, 1) == Term(c.cc, Cell(g, base + r * n + r))
  {
    assert Dot(g, n, r, c, base, 0) == 0.0;
  }

  /** The stream order sums the same products as the arms do. */
  lemma {:induction false} DotIsArms(g: seq<real>, n: nat, r: nat, c: Coefs, base: int, j: nat)
    requires c.OfRadius(r) && j <= r
    ensures Dot(g, n, r, c, base, 1 + 4 * j)
            == Term(c.cc, Cell(g, base + r * n + r)) + Arms(g, n, c, base + r * n + r, j)
  {
    hide Dot, Arms, Cell, Term, PointOffset, PointCoef;
    var i := base + r * n + r;
    if j == 0 {
      DotCenter(g, n, r, c, base);
      NoArms(g, n, c, i);
    } else {
      DotIsArms(g, n, r, c, base, j - 1);
      DotArm(g, n, r, c, base, j);
      ArmsStep(g, n, c, i, j);
      assert 4 * j - 3 == 1 + 4 * (j - 1) && 4 * j - 3 + 4 == 1 + 4 * j;
    }
  }
}
