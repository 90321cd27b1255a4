/**
 The two star stencil kernels as the cores run them.

 The plain kernel deals the interior cells out to the cores one by one.  The
 indirect-stream kernel deals out 2x2 blocks, reads the grid through two index tables and
 the coefficients through a repeated stream, and rotates every core's start offsets from
 row to row and from step to step.
 */
module StencilKernels {
  import opened Arithmetic
  import opened StarStencil
  import opened SsrStreams

  // ----- Tables

  ghost predicate IndexTables(n: nat, r: nat, i0: seq<nat>, i1: seq<nat>, count: nat) {
    && |i0| == |i1| == 2 * count
    && (forall k :: 0 <= k < count ==> i0[2 * k] == Index(PointOffset(n, r, k)) && i0[2 * k + 1] == Index(PointOffset(n, r, k) + n))
    && (forall k :: 0 <= k < count ==> i1[2 * k] == Index(PointOffset(n, r, k) + 1) && i1[2 * k + 1] == Index(PointOffset(n, r, k) + n + 1))
  }

  method FillIndices(n: nat, r: nat) returns (i0: seq<nat>, i1: seq<nat>)
    ensures IndexTables(n, r, i0, i1, Points(r))
  {
    hide PointOffset, Index;
    var cc := r * n + r;
    CenterOffset(n, r);
    i0, i1 := [Index(cc), Index(cc + n)], [Index(cc + 1), Index(cc + n + 1)];
    for j := 1 to r + 1
      invariant IndexTables(n, r, i0, i1, 4 * j - 3)
    {
      var (bb, ll, rr, tt) := (cc - j * n, cc - j, cc + j, cc + j * n);
      ArmOffsets(n, r, j);
      ghost var (p0, p1) := (i0, i1);
      i0 := i0 + [Index(bb), Index(bb + n), Index(ll), Index(ll + n), Index(rr), Index(rr + n), Index(tt), Index(tt + n)];
      i1 := i1 + [Index(bb + 1), Index(bb + n + 1), Index(ll + 1), Index(ll + n + 1),
                  Index(rr + 1), Index(rr + n + 1), Index(tt + 1), Index(tt + n + 1)];
      forall k | 0 <= k < 4 * j + 1
        ensures i0[2 * k] == Index(PointOffset(n, r, k)) && i0[2 * k + 1] == Index(PointOffset(n, r, k) + n)
        ensures i1[2 * k] == Index(PointOffset(n, r, k) + 1) && i1[2 * k + 1] == Index(PointOffset(n, r, k) + n + 1)
      {
        if k < 4 * j - 3 {
          assert i0[2 * k] == p0[2 * k] && i0[2 * k + 1] == p0[2 * k + 1];
          assert i1[2 * k] == p1[2 * k] && i1[2 * k + 1] == p1[2 * k + 1];
        } else {
          assert k == 4 * j - 3 || k == 4 * j - 2 || k == 4 * j - 1 || k == 4 * j;
        }
      }
    }
  }

  lemma CenterOffset(n: nat, r: nat)
    ensures PointOffset(n, r, 0) == r * n + r
  {
  }

  lemma {:induction false} ArmOffsets(n: nat, r: nat, j: nat)
    requires 1 <= j <= r
    ensures var cc := r * n + r;
      && PointOffset(n, r, 4 * j - 3) == cc - j * n
      && PointOffset(n, r, 4 * j - 2) == cc - j
      && PointOffset(n, r, 4 * j - 1) == cc + j
      && PointOffset(n, r, 4 * j) == cc + j * n
  {
    assert (4 * j - 3 + 3) / 4 == j && (4 * j - 2 + 3) / 4 == j && (4 * j - 1 + 3) / 4 == j && (4 * j + 3) / 4 == j;
    assert (4 * j - 4) % 4 == 0 && (4 * j - 3) % 4 == 1 && (4 * j - 2) % 4 == 2 && (4 * j - 1) % 4 == 3;
  }

  ghost predicate CoefTable(c: Coefs, ca: seq<real>, count: nat)
    requires c.OfRadius(|c.xm|) && count <= Points(|c.xm|)
  {
    |ca| == count && forall k :: 0 <= k < count ==> ca[k] == PointCoef(c, k)
  }

  method FillCoefs(c: Coefs, r: nat) returns (ca: seq<real>)
    requires c.OfRadius(r)
    ensures CoefTable(c, ca, Points(r))
  {
    hide PointCoef;
    CenterCoef(c);
    ca := [c.cc];
    for j := 0 to r
      invariant CoefTable(c, ca, 4 * j + 1)
    {
      ArmCoefs(c, r, j);
      ghost var p := ca;
      ca := ca + [c.ym[j], c.xm[j], c.xp[j], c.yp[j]];
      forall k | 0 <= k < 4 * j + 5 ensures ca[k] == PointCoef(c, k) {
        if k < 4 * j + 1 {
          assert ca[k] == p[k];
        } else {
          assert k == 4 * j + 1 || k == 4 * j + 2 || k == 4 * j + 3 || k == 4 * j + 4;
        }
      }
    }
  }

  lemma CenterCoef(c: Coefs)
    requires c.OfRadius(|c.xm|)
    ensures PointCoef(c, 0) == c.cc
  {
  }

  lemma {:induction false} ArmCoefs(c: Coefs, r: nat, j: nat)
    requires c.OfRadius(r) && j < r
    ensures PointCoef(c, 4 * j + 1) == c.ym[j] && PointCoef(c, 4 * j + 2) == c.xm[j]
    ensures PointCoef(c, 4 * j + 3) == c.xp[j] && PointCoef(c, 4 * j + 4) == c.yp[j]
  {
    assert (4 * j) / 4 == j && (4 * j + 1) / 4 == j && (4 * j + 2) / 4 == j && (4 * j + 3) / 4 == j;
    assert (4 * j) % 4 == 0 && (4 * j + 1) % 4 == 1 && (4 * j + 2) % 4 == 2 && (4 * j + 3) % 4 == 3;
  }

  // ----- Streams

  /** The value that the coefficient stream delivers at its `p`-th read: every element is
      repeated four times, and the table starts over after its last element. */
  function CoefAt(ca: seq<real>, p: nat): (v: real)
    requires |ca| > 0
  {
    ca[(p / 4) % |ca|]
  }

  /** This is the stream that the kernel programs: `len` elements of 8 bytes, `count` times over. */
  lemma CoefStream(len: nat, count: nat, p: nat)
    requires 1 <= len <= WORD && 1 <= count <= WORD && p < 4 * (len * count)
    ensures |NestOffsets([len, count], [8, 0])| == len * count
    ensures NestOffsets([len, count], [8, 0])[p / 4] == 8 * ((p / 4) % len)
  {
    var (q, b, s) := (p / 4, [len, count], [8, 0]);
    var idx := [q % len, q / len];
    assert q / len < count by {
      if q / len >= count {
        MulMono(count, q / len, len);
      }
    }
    assert b[..1] == [len] && s[..1] == [8] && idx[..1] == [q % len];
    assert b[..1][..0] == [] && s[..1][..0] == [] && idx[..1][..0] == [];
    assert Product([len]) == Product([]) * len == len;
    assert Product(b) == len * count;
    assert Rank([q % len], [len]) == Rank([], []) + (q % len) * Product([]) == q % len;
    assert Rank(idx, b) == q % len + (q / len) * len == q;
    assert Offset([q % len], [8]) == Offset([], []) + (q % len) * 8;
    assert Offset(idx, s) == (q % len) * 8;
    NestOffsetAtRank(b, s, idx);
  }

  /** The `p`-th read, each element being repeated four times, is inside the stream that runs `count`
      times over the table, and delivers `CoefAt(ca, p)`. */
  ghost predicate Delivers(ca: seq<real>, count: nat, p: nat)
    requires |ca| > 0
  {
    var s := NestOffsets([|ca|, count], [8, 0]);
    p / 4 < |s| && s[p / 4] % 8 == 0 && 0 <= s[p / 4] / 8 < |ca| && ca[s[p / 4] / 8] == CoefAt(ca, p)
  }

  lemma {:induction false} CoefStreamDelivers(ca: seq<real>, count: nat, p: nat)
    requires 1 <= |ca| <= WORD && 1 <= count <= WORD && p < 4 * (|ca| * count)
    ensures Delivers(ca, count, p)
  {
    hide NestOffsets;
    CoefStream(|ca|, count, p);
    EightTimes(p / 4 % |ca|);
  }

  lemma {:induction false} EightTimes(k: nat)
    ensures 8 * k % 8 == 0 && 8 * k / 8 == k
  {}

  lemma {:induction false} CoefOfPoint(len: nat, p: nat, k: nat, d: nat)
    requires len > 0 && p % (4 * len) == 0 && k < len && d < 4
    ensures ((p + 4 * k + d) / 4) % len == k
  {
    var m := p / (4 * len);
    assert p == 4 * (m * len) by {
      assert p == (4 * len) * m;
    }
    DivModUnique(p + 4 * k + d, 4, m * len + k, d);
    DivModUnique(m * len + k, len, m, k);
  }

  // ----- One block

  lemma {:induction false} CoefAtPoint(ca: seq<real>, p: nat, k: nat)
    requires |ca| > 0 && p % (4 * |ca|) == 0 && k < |ca|
    ensures var q := p + 4 * k;
      CoefAt(ca, q) == CoefAt(ca, q + 1) == CoefAt(ca, q + 2) == CoefAt(ca, q + 3) == ca[k]
  {
    CoefOfPoint(|ca|, p, k, 0);
    CoefOfPoint(|ca|, p, k, 1);
    CoefOfPoint(|ca|, p, k, 2);
    CoefOfPoint(|ca|, p, k, 3);
  }

  lemma {:induction false} PointOnArm(n: nat, r: nat, k: nat) returns (j: nat)
    requires k < Points(r)
    ensures j <= r
    ensures var (cc, o) := (r * n + r, PointOffset(n, r, k));
      o == cc - j * n || o == cc - j || o == cc + j || o == cc + j * n
  {
    j := (k + 3) / 4;
  }

  /** The k-th point of the stencil box at cell (y, x) is in the grid and its index fits. */
  lemma {:induction false} PointInGrid(n: nat, r: nat, y: nat, x: nat, k: nat)
    requires y + 2 * r < n && x + 2 * r < n && k < Points(r)
    ensures 0 <= PointOffset(n, r, k)
    ensures y * n + x + PointOffset(n, r, k) < n * n
    ensures PointOffset(n, r, k) <= 2 * (r * n) + r
  {
    hide PointOffset;
    var j := PointOnArm(n, r, k);
    FarArmInGrid(n, r, y, x, j);
    MulMono(1, n, j);
    MulMono(j, r, n);
    OffsetBetween(y * n, r * n, j * n, n * n, x, r, j, PointOffset(n, r, k));
  }

  lemma {:induction false} FarArmInGrid(n: nat, r: nat, y: nat, x: nat, j: nat)
    requires y + 2 * r < n && x + 2 * r < n && j <= r
    ensures y * n + r * n + x + r + j * n < n * n
    ensures y * n + r * n + x + r + j < n * n
  {
    ArmInGrid(n, r, y + r, x + r, j);
    MulDistribute(y, r, n);
  }

  lemma OffsetBetween(yn: int, rn: int, jn: int, nn: int, x: nat, r: nat, j: nat, o: int)
    requires 0 <= j <= jn <= rn && j <= r
    requires yn + rn + x + r + jn < nn && yn + rn + x + r + j < nn
    requires o == rn + r - jn || o == rn + r - j || o == rn + r + j || o == rn + r + jn
    ensures 0 <= o <= 2 * rn + r && yn + x + o < nn
  {
  }

  lemma MulDistribute(a: int, b: int, n: int)
    ensures (a + b) * n == a * n + b * n
  {
  }

  ghost predicate IndicesFit(n: nat, r: nat) {
    2 * (r * n) + r + n + 1 < INDEX_RANGE
  }

  /** The entries of both tables for the k-th point are the offsets of the four cells of a block. */
  ghost predicate ExactEntries(n: nat, r: nat, i0: seq<nat>, i1: seq<nat>, k: nat)
    requires |i0| == |i1| == 2 * Points(r) && k < Points(r)
  {
    var o := PointOffset(n, r, k);
    && i0[2 * k] == o && i0[2 * k + 1] == o + n
    && i1[2 * k] == o + 1 && i1[2 * k + 1] == o + n + 1
  }

  /** The 16-bit tables hold every index exactly when the largest one fits. */
  lemma {:induction false} IndicesExactIffFit(n: nat, r: nat, i0: seq<nat>, i1: seq<nat>)
    requires 1 <= r && 2 * r < n && IndexTables(n, r, i0, i1, Points(r))
    ensures (forall k :: 0 <= k < Points(r) ==> ExactEntries(n, r, i0, i1, k)) <==> IndicesFit(n, r)
  {
    hide PointOffset, Index;
    ArmOffsets(n, r, r);
    if IndicesFit(n, r) {
      forall k | 0 <= k < Points(r) ensures ExactEntries(n, r, i0, i1, k) {
        PointInGrid(n, r, 0, 0, k);
        var o := PointOffset(n, r, k);
        IndexFits(o);
        IndexFits(o + n);
        IndexFits(o + 1);
        IndexFits(o + n + 1);
      }
    } else {
      IndexIsShort(PointOffset(n, r, 4 * r) + n + 1);
      assert !ExactEntries(n, r, i0, i1, 4 * r);
    }
  }

  lemma {:induction false} IndexIsShort(v: int)
    ensures 0 <= Index(v) < INDEX_RANGE
  {}

  /** With radius 1 and 21846 columns, the last index 65540 is stored as 4. */
  lemma {:induction false} IndexCounterexample(n: nat, r: nat)
    requires n == 21846 && r == 1
    ensures !IndicesFit(n, r) && PointOffset(n, r, 4) + n + 1 == 65540 && Index(PointOffset(n, r, 4) + n + 1) == 4
  {
    ArmOffsets(n, r, 1);
  }

  lemma IndexFits(v: int)
    requires 0 <= v < INDEX_RANGE
    ensures Index(v) == v
  {
  }

  /** What the two grid streams deliver for the k-th point, at the four cells of the block. */
  lemma {:induction false} StreamedCells(n: nat, r: nat, y: nat, x: nat, i0: seq<nat>, i1: seq<nat>, k: nat)
    requires y + 1 + 2 * r < n && x + 1 + 2 * r < n && k < Points(r)
    requires IndicesFit(n, r) && IndexTables(n, r, i0, i1, Points(r))
    ensures var (base, o) := (y * n + x, PointOffset(n, r, k));
      && base + i0[2 * k] == base + o < n * n
      && base + i0[2 * k + 1] == base + n + o < n * n
      && base + i1[2 * k] == base + 1 + o < n * n
      && base + i1[2 * k + 1] == base + n + 1 + o < n * n
  {
    hide PointOffset, Index;
    PointInGrid(n, r, y, x, k);
    PointInGrid(n, r, y, x + 1, k);
    PointInGrid(n, r, y + 1, x, k);
    PointInGrid(n, r, y + 1, x + 1, k);
    assert (y + 1) * n == y * n + n;
    var o := PointOffset(n, r, k);
    IndexFits(o);
    IndexFits(o + n);
    IndexFits(o + 1);
    IndexFits(o + n + 1);
  }

  /** The product of a multiply-add. */
  method Multiply(w: real, v: real) returns (t: real)
    ensures t == Term(w, v)
  {
    t := w * v;
  }

  /** Four reads of the coefficient stream and two of each grid stream: the products of the
      k-th point, at the four cells of the block. */
  method Products(src: array<real>, n: nat, r: nat, ghost c: Coefs, y: nat, x: nat, i0: seq<nat>, i1: seq<nat>, ca: seq<real>,
                  ghost p0: nat, p: nat, k: nat)
    returns (t0: real, t1: real, t2: real, t3: real)
    requires c.OfRadius(r) && src.Length == n * n && IndicesFit(n, r)
    requires IndexTables(n, r, i0, i1, Points(r)) && CoefTable(c, ca, Points(r))
    requires y + 1 + 2 * r < n && x + 1 + 2 * r < n && k < Points(r)
    requires p0 % (4 * Points(r)) == 0 && p == p0 + 4 * k
    ensures var (g, i, w) := (src[..], y * n + x + PointOffset(n, r, k), PointCoef(c, k));
      && t0 == Term(w, Cell(g, i)) && t1 == Term(w, Cell(g, i + 1))
      && t2 == Term(w, Cell(g, i + n)) && t3 == Term(w, Cell(g, i + n + 1))
  {
    hide Term, PointOffset, PointCoef, Index, CoefAt;
    MulMono(0, y, n);
    var base: nat := y * n + x;
    StreamedCells(n, r, y, x, i0, i1, k);
    CoefAtPoint(ca, p0, k);
    t0 := Multiply(CoefAt(ca, p), src[base + i0[2 * k]]);
    t1 := Multiply(CoefAt(ca, p + 1), src[base + i1[2 * k]]);
    t2 := Multiply(CoefAt(ca, p + 2), src[base + i0[2 * k + 1]]);
    t3 := Multiply(CoefAt(ca, p + 3), src[base + i1[2 * k + 1]]);
  }

  ghost predicate Dots(g: seq<real>, n: nat, r: nat, c: Coefs, base: nat, k: nat, fa0: real, fa1: real, fa2: real, fa3: real)
    requires c.OfRadius(r) && k <= Points(r)
  {
    && fa0 == Dot(g, n, r, c, base, k) && fa1 == Dot(g, n, r, c, base + 1, k)
    && fa2 == Dot(g, n, r, c, base + n, k) && fa3 == Dot(g, n, r, c, base + n + 1, k)
  }

  lemma {:induction false} DotsStep(g: seq<real>, n: nat, r: nat, c: Coefs, base: nat, k: nat,
                                    fa0: real, fa1: real, fa2: real, fa3: real)
    requires c.OfRadius(r) && k < Points(r) && Dots(g, n, r, c, base, k, fa0, fa1, fa2, fa3)
    ensures var (w, i) := (PointCoef(c, k), base + PointOffset(n, r, k));
      Dots(g, n, r, c, base, k + 1, fa0 + Term(w, Cell(g, i)), fa1 + Term(w, Cell(g, i + 1)),
           fa2 + Term(w, Cell(g, i + n)), fa3 + Term(w, Cell(g, i + n + 1)))
  {
    hide Dot, Cell, Term, PointOffset, PointCoef;
    DotStep(g, n, r, c, base, k);
    DotStep(g, n, r, c, base + 1, k);
    DotStep(g, n, r, c, base + n, k);
    DotStep(g, n, r, c, base + n + 1, k);
  }

  lemma NoDots(g: seq<real>, n: nat, r: nat, c: Coefs, base: nat)
    requires c.OfRadius(r)
    ensures Dots(g, n, r, c, base, 0, 0.0, 0.0, 0.0, 0.0)
  {
  }

  lemma {:induction false} DotsAreStars(g: seq<real>, n: nat, r: nat, c: Coefs, y: nat, x: nat,
                                        fa0: real, fa1: real, fa2: real, fa3: real)
    requires c.OfRadius(r) && Dots(g, n, r, c, y * n + x, Points(r), fa0, fa1, fa2, fa3)
    ensures Stars(g, n, r, c, (y + r) * n + (x + r), fa0, fa1, fa2, fa3)
  {
    hide Dot, Arms, Cell, Term;
    var (base, w) := (y * n + x, (y + r) * n + (x + r));
    assert w == base + r * n + r;
    DotIsArms(g, n, r, c, base, r);
    DotIsArms(g, n, r, c, base + 1, r);
    DotIsArms(g, n, r, c, base + n, r);
    DotIsArms(g, n, r, c, base + n + 1, r);
  }

  /** The stencil at cell `w`, its right neighbour, the cell below it, and the cell below right. */
  ghost predicate Stars(g: seq<real>, n: nat, r: nat, c: Coefs, w: int, fa0: real, fa1: real, fa2: real, fa3: real)
    requires c.OfRadius(r)
  {
    && fa0 == Star(g, n, r, c, w) && fa1 == Star(g, n, r, c, w + 1)
    && fa2 == Star(g, n, r, c, w + n) && fa3 == Star(g, n, r, c, w + n + 1)
  }

  /** The assembly of one block: four accumulators, initialised with the centre point and
      then advanced by an FREP body of four multiply-adds. */
  method Block(src: array<real>, n: nat, r: nat, ghost c: Coefs, y: nat, x: nat, i0: seq<nat>, i1: seq<nat>, ca: seq<real>, p0: nat)
    returns (fa0: real, fa1: real, fa2: real, fa3: real, p: nat)
    requires c.OfRadius(r) && src.Length == n * n && IndicesFit(n, r)
    requires IndexTables(n, r, i0, i1, Points(r)) && CoefTable(c, ca, Points(r))
    requires y + 1 + 2 * r < n && x + 1 + 2 * r < n
    requires p0 % (4 * Points(r)) == 0
    ensures p == p0 + 4 * Points(r)
    ensures Stars(src[..], n, r, c, (y + r) * n + (x + r), fa0, fa1, fa2, fa3)
  {
    hide Dot, Arms, Cell, Term, PointOffset, PointCoef, Index, Dots, IndexTables, CoefTable, Stars, IndicesFit, Star;
    ghost var (g, base) := (src[..], y * n + x);
    p := p0;
    NoDots(g, n, r, c, base);
    DotsStep(g, n, r, c, base, 0, 0.0, 0.0, 0.0, 0.0);
    fa0, fa1, fa2, fa3 := Products(src, n, r, c, y, x, i0, i1, ca, p0, p, 0);
    p := p + 4;
    for k := 1 to Points(r)
      invariant p == p0 + 4 * k
      invariant Dots(g, n, r, c, base, k, fa0, fa1, fa2, fa3)
    {
      DotsStep(g, n, r, c, base, k, fa0, fa1, fa2, fa3);
      var t0, t1, t2, t3 := Products(src, n, r, c, y, x, i0, i1, ca, p0, p, k);
      fa0, fa1, fa2, fa3 := fa0 + t0, fa1 + t1, fa2 + t2, fa3 + t3;
      p := p + 4;
    }
    DotsAreStars(g, n, r, c, y, x, fa0, fa1, fa2, fa3);
  }

  // ----- Blocks and cells

  /** The even offset, from the stencil interior's first row or column, of the block that holds `v`. */
  function Origin(r: int, v: int): (o: int) {
    (v - r) / 2 * 2
  }

  predicate InRow(n: nat, r: nat, i: nat, y: int)
    requires n > 0
  {
    Interior(n, r, i) && Origin(r, i / n) == y
  }

  function ColOrigin(n: nat, r: nat, i: nat): (o: int)
    requires n > 0
  {
    Origin(r, i % n)
  }

  /** The cell in row `row` and column `col` belongs to the block at (y, x) iff both coordinates do. */
  lemma {:induction false} BlockHolds(n: nat, r: nat, y: nat, x: nat, row: nat, col: nat)
    requires y % 2 == 0 && x % 2 == 0 && y + 1 + 2 * r < n && x + 1 + 2 * r < n && row < n && col < n
    ensures InRow(n, r, row * n + col, y) && ColOrigin(n, r, row * n + col) == x
       <==> (row == y + r || row == y + r + 1) && (col == x + r || col == x + r + 1)
  {
    hide Origin;
    CellOf(n, row, col);
    OriginIs(r, row, y);
    OriginIs(r, col, x);
  }

  lemma {:induction false} OriginIs(r: int, v: int, y: int)
    requires y % 2 == 0
    ensures Origin(r, v) == y <==> v == y + r || v == y + r + 1
  {}

  lemma {:induction false} BlockCells(n: nat, r: nat, y: nat, x: nat, i: nat)
    requires y % 2 == 0 && x % 2 == 0 && y + 1 + 2 * r < n && x + 1 + 2 * r < n && i < n * n
    ensures var w := (y + r) * n + (x + r);
      InRow(n, r, i, y) && ColOrigin(n, r, i) == x <==> i == w || i == w + 1 || i == w + n || i == w + n + 1
  {
    hide InRow, ColOrigin;
    var (y', x') := (y + r, x + r);
    MulDistribute(y', 1, n);
    BlockHolds(n, r, y, x, y', x');
    BlockHolds(n, r, y, x, y', x' + 1);
    BlockHolds(n, r, y, x, y' + 1, x');
    BlockHolds(n, r, y, x, y' + 1, x' + 1);
    var row, col := SplitCell(n, i);
    BlockHolds(n, r, y, x, row, col);
  }

  lemma {:induction false} SplitCell(n: nat, i: nat) returns (row: nat, col: nat)
    requires i < n * n
    ensures row < n && col < n && i == row * n + col
  {
    RowCol(n, i);
    row, col := i / n, i % n;
  }

  lemma {:induction false} SameResidue(a: int, b: int, m: int)
    requires m > 0 && b <= a < b + m && a % m == b % m
    ensures a == b
  {
    var d := a / m - b / m;
    assert a == m * (a / m) + a % m && b == m * (b / m) + b % m;
    assert a - b == m * d;
    assert d >= 1 ==> m * d >= m;
    assert d <= -1 ==> m * d <= -m;
  }

  lemma {:induction false} NextResidue(a: int, m: int)
    requires m > 0
    ensures (a + m) % m == a % m && (a + m) / m == a / m + 1
  {
    DivModUnique(a + m, m, a / m + 1, a % m);
  }

  /** A row holds whole blocks only. */
  lemma {:induction false} OriginIsInside(n: nat, r: nat, i: nat)
    requires n % 2 == 0 && i < n * n && n > 0 && Interior(n, r, i)
    ensures 0 <= Origin(r, i / n) && Origin(r, i / n) % 2 == 0 && Origin(r, i / n) + 1 + 2 * r < n
    ensures 0 <= ColOrigin(n, r, i) && ColOrigin(n, r, i) % 2 == 0 && ColOrigin(n, r, i) + 1 + 2 * r < n
  {
    hide Origin;
    OriginInside(n, r, i / n);
    OriginInside(n, r, i % n);
  }

  lemma {:induction false} OriginInside(n: nat, r: nat, v: int)
    requires n % 2 == 0 && r <= v < n - r
    ensures 0 <= Origin(r, v) && Origin(r, v) % 2 == 0 && Origin(r, v) + 1 + 2 * r < n
  {}

  // ----- One core

  /** Number of iterations of `for (v = first; v < width; v += jump)`. */
  ghost function Iterations(width: int, first: nat, jump: nat): (k: nat)
    requires jump > 0
    decreases width - first
  {
    if first >= width then 0 else 1 + Iterations(width, first + jump, jump)
  }

  lemma IterationsStep(width: int, first: nat, jump: nat)
    requires jump > 0
    ensures first >= width ==> Iterations(width, first, jump) == 0
    ensures first < width ==> Iterations(width, first, jump) == 1 + Iterations(width, first + jump, jump)
  {
  }

  /** The bound that the kernel programs for the coefficient stream of a row. */
  function RowBound(n: nat, r: nat, lx: nat, jump: nat): (b: int)
    requires jump > 0
  {
    (n - 2 * r + jump - lx - 2) / jump
  }

  /** It is the number of blocks that the core visits in the row. */
  lemma {:induction false} RowBoundIsIterations(n: nat, r: nat, lx: nat, jump: nat)
    requires n % 2 == 0 && lx % 2 == 0 && jump % 2 == 0 && jump > 0
    requires lx - jump < n - 2 * r
    ensures RowBound(n, r, lx, jump) == Iterations(n - 2 * r, lx, jump)
  {
    BoundIsIterations(n - 2 * r, lx, jump);
  }

  function Quotient(a: int, m: nat): (q: int)
    requires m > 0
  {
    a / m
  }

  lemma {:induction false} QuotientSteps(a: int, m: nat)
    requires m > 0
    ensures Quotient(a + m, m) == Quotient(a, m) + 1
    ensures 0 <= a < m ==> Quotient(a, m) == 0
  {
    NextResidue(a, m);
    if 0 <= a < m {
      DivModUnique(a, m, 0, a);
    }
  }

  lemma {:induction false} BoundIsIterations(width: int, lx: nat, jump: nat)
    requires width % 2 == 0 && lx % 2 == 0 && jump % 2 == 0 && jump > 0 && lx - jump < width
    ensures Quotient(width + jump - lx - 2, jump) == Iterations(width, lx, jump)
    decreases width - lx
  {
    hide Quotient;
    IterationsStep(width, lx, jump);
    QuotientSteps(width - lx - 2, jump);
    QuotientSteps(width + jump - lx - 2, jump);
    if lx < width {
      EvenSum(lx, jump);
      BoundIsIterations(width, lx + jump, jump);
    }
  }

  lemma {:induction false} EvenSum(a: int, b: int)
    requires a % 2 == 0 && b % 2 == 0
    ensures (a + b) % 2 == 0
  {}

  /** The four stores of a block. */
  method WriteBlock(dst: array<real>, n: nat, r: nat, y: nat, x: nat, fa0: real, fa1: real, fa2: real, fa3: real,
                    ghost g: seq<real>, ghost c: Coefs)
    requires c.OfRadius(r) && dst.Length == n * n
    requires y % 2 == 0 && x % 2 == 0 && y + 1 + 2 * r < n && x + 1 + 2 * r < n
    requires Stars(g, n, r, c, (y + r) * n + (x + r), fa0, fa1, fa2, fa3)
    modifies dst
    ensures forall i :: 0 <= i < n * n ==>
      dst[i] == if InRow(n, r, i, y) && ColOrigin(n, r, i) == x then Star(g, n, r, c, i) else old(dst[i])
  {
    hide Star, InRow, ColOrigin, Interior;
    CellOf(n, y + r, x + r);
    CellOf(n, y + r + 1, x + r + 1);
    MulDistribute(y + r, 1, n);
    var w := (y + r) * n + (x + r);
    dst[w] := fa0;
    dst[w + 1] := fa1;
    dst[w + n] := fa2;
    dst[w + n + 1] := fa3;
    forall i | 0 <= i < n * n
      ensures dst[i] == if InRow(n, r, i, y) && ColOrigin(n, r, i) == x then Star(g, n, r, c, i) else old(dst[i])
    {
      BlockCells(n, r, y, x, i);
    }
  }

  /** The cell's block is in row `y` and starts at column `lx`, `lx + jump`, ... */
  predicate Selected(n: nat, r: nat, i: nat, y: int, lx: nat, jump: nat)
    requires n > 0 && jump > 0
  {
    InRow(n, r, i, y) && ColOrigin(n, r, i) % jump == lx
  }

  lemma {:induction false} SelectedStep(n: nat, r: nat, i: nat, y: nat, x: nat, lx: nat, jump: nat)
    requires n % 2 == 0 && i < n * n && n > 0 && jump > 0 && OnTrack(x, lx, jump)
    ensures Selected(n, r, i, y, lx, jump) && ColOrigin(n, r, i) < x + jump
            <==> (Selected(n, r, i, y, lx, jump) && ColOrigin(n, r, i) < x) || (InRow(n, r, i, y) && ColOrigin(n, r, i) == x)
    ensures Selected(n, r, i, y, lx, jump) ==> ColOrigin(n, r, i) < n - 2 * r && (x <= lx ==> ColOrigin(n, r, i) >= x)
  {
    var o := ColOrigin(n, r, i);
    if Selected(n, r, i, y, lx, jump) {
      OriginIsInside(n, r, i);
      if x <= o < x + jump {
        SameResidue(o, x, jump);
      }
      if x <= lx && o < x {
        RemainderBelow(o, jump);
        RemainderBelow(x, jump);
      }
    }
  }

  lemma RemainderBelow(a: nat, m: nat)
    requires m > 0
    ensures a % m <= a
  {
  }

  /** An even offset that a loop with step `jump` reaches from `first`. */
  predicate OnTrack(v: int, first: int, jump: nat)
    requires jump > 0
  {
    v % 2 == 0 && v % jump == first
  }

  lemma {:induction false} TrackStart(first: nat, jump: nat)
    requires first % 2 == 0 && first < jump
    ensures OnTrack(first, first, jump)
  {
    DivModUnique(first, jump, 0, first);
  }

  lemma {:induction false} TrackStep(v: int, first: int, jump: nat)
    requires jump > 0 && jump % 2 == 0 && OnTrack(v, first, jump)
    ensures OnTrack(v + jump, first, jump)
  {
    NextResidue(v, jump);
  }

  /** Elements read from the coefficient stream by `m` blocks. */
  ghost function Consumed(r: nat, m: nat): (p: int) {
    m * (4 * Points(r))
  }

  lemma {:induction false} ConsumedStep(r: nat, m: nat)
    ensures Consumed(r, 0) == 0
    ensures Consumed(r, m) >= 0 && Consumed(r, m) % (4 * Points(r)) == 0
    ensures Consumed(r, m + 1) == Consumed(r, m) + 4 * Points(r)
  {
    MulMono(0, m, 4 * Points(r));
    DivModUnique(Consumed(r, m), 4 * Points(r), m, 0);
    MulDistribute(m, 1, 4 * Points(r));
  }

  /** The reads of the m-th block of a row are inside the stream with the programmed row bound. */
  lemma {:induction false} RowStreamDelivers(ca: seq<real>, n: nat, r: nat, bound: nat, m: nat, p: nat)
    requires |ca| == Points(r) && IndicesFit(n, r) && n > 0 && m < bound <= n
    requires Consumed(r, m) <= p < Consumed(r, m + 1)
    ensures Delivers(ca, bound, p)
  {
    hide Delivers;
    MulMono(1, n, r);
    MulMono(m + 1, bound, 4 * Points(r));
    assert bound * (4 * Points(r)) == 4 * (Points(r) * bound);
    CoefStreamDelivers(ca, bound, p);
  }

  lemma {:induction false} TableLength(c: Coefs, r: nat, ca: seq<real>)
    requires c.OfRadius(r) && CoefTable(c, ca, Points(r))
    ensures |ca| == Points(r) > 0
  {}

  lemma {:induction false} IterationsAtMost(width: int, first: nat, jump: nat)
    requires jump > 0
    ensures Iterations(width, first, jump) <= if width > first then width - first else 0
    decreases width - first
  {
    if first < width {
      IterationsAtMost(width, first + jump, jump);
    }
  }

  /** One iteration of the column loop. */
  method OneBlock(src: array<real>, dst: array<real>, n: nat, r: nat, ghost c: Coefs, i0: seq<nat>, i1: seq<nat>, ca: seq<real>,
                  y: nat, x: nat, ghost lx: nat, ghost jump: nat, p: nat, ghost m: nat)
    returns (p': nat)
    requires c.OfRadius(r) && src.Length == dst.Length == n * n && src != dst && IndicesFit(n, r) && n % 2 == 0
    requires IndexTables(n, r, i0, i1, Points(r)) && CoefTable(c, ca, Points(r))
    requires y % 2 == 0 && y + 1 + 2 * r < n
    requires jump > 0 && OnTrack(x, lx, jump) && x < n - 2 * r
    requires p == Consumed(r, m)
    modifies dst
    ensures p' == Consumed(r, m + 1)
    ensures forall i :: 0 <= i < n * n ==>
      dst[i] == if InRow(n, r, i, y) && ColOrigin(n, r, i) == x then Star(src[..], n, r, c, i) else old(dst[i])
  {
    hide Star, Stars, IndexTables, CoefTable, InRow, ColOrigin, Consumed, Points;
    ghost var g := src[..];
    ConsumedStep(r, m);
    var fa0, fa1, fa2, fa3;
    fa0, fa1, fa2, fa3, p' := Block(src, n, r, c, y, x, i0, i1, ca, p);
    WriteBlock(dst, n, r, y, x, fa0, fa1, fa2, fa3, g, c);
    assert src[..] == g;
  }

  /** The blocks of row `y` that start at column `lx`, `lx + jump`, ... */
  method RowPass(src: array<real>, dst: array<real>, n: nat, r: nat, ghost c: Coefs, i0: seq<nat>, i1: seq<nat>, ca: seq<real>,
                 y: nat, lx: nat, jump: nat)
    requires c.OfRadius(r) && src.Length == dst.Length == n * n && src != dst && IndicesFit(n, r) && n % 2 == 0
    requires IndexTables(n, r, i0, i1, Points(r)) && CoefTable(c, ca, Points(r))
    requires y % 2 == 0 && y + 1 + 2 * r < n
    requires jump > 0 && jump % 2 == 0 && lx % 2 == 0 && lx < jump
    modifies dst
    ensures forall i :: 0 <= i < n * n ==>
      dst[i] == if Selected(n, r, i, y, lx, jump) then Star(src[..], n, r, c, i) else old(dst[i])
  {
    hide Star, IndexTables, CoefTable, InRow, ColOrigin, Selected, Consumed, RowBound, Points, OnTrack, Iterations, Delivers;
    ghost var g := src[..];
    ghost var m: nat, bound := 0, RowBound(n, r, lx, jump);
    RowBoundIsIterations(n, r, lx, jump);
    IterationsAtMost(n - 2 * r, lx, jump);
    TableLength(c, r, ca);
    ConsumedStep(r, 0);
    TrackStart(lx, jump);
    var x: nat, p: nat := lx, 0;
    forall i | 0 <= i < n * n ensures Selected(n, r, i, y, lx, jump) ==> ColOrigin(n, r, i) >= x {
      SelectedStep(n, r, i, y, x, lx, jump);
    }
    while x < n - 2 * r
      invariant OnTrack(x, lx, jump)
      invariant m + Iterations(n - 2 * r, x, jump) == bound
      invariant p == Consumed(r, m)
      invariant src[..] == g
      invariant forall i :: 0 <= i < n * n ==>
        dst[i] == if Selected(n, r, i, y, lx, jump) && ColOrigin(n, r, i) < x then Star(g, n, r, c, i) else old(dst[i])
      decreases n - 2 * r - x
    {
      TrackStep(x, lx, jump);
      IterationsStep(n - 2 * r, x, jump);
      ConsumedStep(r, m);
      // The block's reads are those of the programmed coefficient stream.
      forall q: nat | p <= q < Consumed(r, m + 1) ensures Delivers(ca, bound, q) {
        RowStreamDelivers(ca, n, r, bound, m, q);
      }
      p := OneBlock(src, dst, n, r, c, i0, i1, ca, y, x, lx, jump, p, m);
      forall i | 0 <= i < n * n
        ensures Selected(n, r, i, y, lx, jump) && ColOrigin(n, r, i) < x + jump
                <==> (Selected(n, r, i, y, lx, jump) && ColOrigin(n, r, i) < x) || (InRow(n, r, i, y) && ColOrigin(n, r, i) == x)
      {
        SelectedStep(n, r, i, y, x, lx, jump);
      }
      m, x := m + 1, x + jump;
    }
    forall i | 0 <= i < n * n ensures Selected(n, r, i, y, lx, jump) ==> ColOrigin(n, r, i) < x {
      SelectedStep(n, r, i, y, lx, lx, jump);
    }
    IterationsStep(n - 2 * r, x, jump);
    // Every element that was programmed into the coefficient stream was read.
    assert p == Consumed(r, bound);
  }
}
