/**
 Both star stencil kernels on all cores and over all time steps.

 `px` by `py` cores share the grid.  The rotation of the start offsets needs an even core
 count on both axes (`RotationKeepsBlocksIffEven`); the blocks of every time step then
 tile the interior exactly once (`TiledExactlyOnce`), whatever the rotation so far.
 */
module StencilCluster {
  import opened Arithmetic
  import opened StarStencil
  import opened StencilKernels

  // ----- Rotating offsets

  /** The start offset of a core after `k` rotations. */
  function Rotated(first: int, p: nat, k: int): (o: nat)
    requires p > 0
  {
    (first + p * k) % (2 * p)
  }

  lemma {:induction false} ModOfSum(a: int, b: int, m: int)
    requires m > 0
    ensures (a % m + b) % m == (a + b) % m
  {
    var q := a / m;
    assert a == m * q + a % m;
    var s := a % m + b;
    DivModUnique(a + b, m, s / m + q, s % m);
  }

  lemma {:induction false} RotateOnce(first: nat, p: nat, k: nat)
    requires p > 0
    ensures Rotated(first, p, k + 1) == (Rotated(first, p, k) + p) % (2 * p)
  {
    ModOfSum(first + p * k, p, 2 * p);
    assert p * (k + 1) == p * k + p;
  }

  lemma {:induction false} RotateMore(first: int, p: nat, j: int, k: int)
    requires p > 0
    ensures Rotated(Rotated(first, p, j), p, k) == Rotated(first, p, j + k)
  {
    ModOfSum(first + p * j, p * k, 2 * p);
    assert p * (j + k) == p * j + p * k;
  }

  lemma {:induction false} EvenRemainder(a: int, p: int)
    requires p > 0 && a % 2 == 0
    ensures (a % (2 * p)) % 2 == 0
  {
    var q := a / (2 * p);
    assert a == (2 * p) * q + a % (2 * p);
    assert (2 * p) * q == 2 * (p * q);
  }

  lemma {:induction false} EvenProduct(p: int, k: int)
    requires p % 2 == 0
    ensures (p * k) % 2 == 0
  {
    var h := p / 2;
    assert p * k == 2 * (h * k);
  }

  lemma {:induction false} RotatedIsEven(first: nat, p: nat, k: nat)
    requires p > 0 && p % 2 == 0 && first % 2 == 0
    ensures Rotated(first, p, k) % 2 == 0 && Rotated(first, p, k) < 2 * p
  {
    EvenProduct(p, k);
    EvenRemainder(first + p * k, p);
  }

  /** Blocks stay aligned through every rotation exactly when the core count is even. */
  lemma {:induction false} RotationKeepsBlocksIffEven(first: nat, p: nat)
    requires p > 0 && first % 2 == 0
    ensures (forall k: nat :: Rotated(first, p, k) % 2 == 0) <==> p % 2 == 0
  {
    hide Rotated;
    if p % 2 == 0 {
      forall k: nat ensures Rotated(first, p, k) % 2 == 0 {
        RotatedIsEven(first, p, k);
      }
    } else {
      RotatedIsOdd(first, p);
    }
  }

  lemma {:induction false} RotatedIsOdd(first: nat, p: nat)
    requires p % 2 == 1 && first % 2 == 0
    ensures Rotated(first, p, 1) % 2 == 1
  {
    assert p * 1 == p;
    OddRemainder(first + p, p);
  }

  lemma {:induction false} OddRemainder(a: int, p: int)
    requires p > 0 && a % 2 == 1
    ensures a % (2 * p) % 2 == 1
  {
    var q := a / (2 * p);
    assert a == (2 * p) * q + a % (2 * p);
    assert (2 * p) * q == 2 * (p * q);
  }

  /** Of `p` cores that start two apart and are shifted by `s`, exactly one hits offset `o`. */
  function Hitting(p: nat, s: int, o: int): (a: int)
    requires p > 0
  {
    ((o - s) % (2 * p)) / 2
  }

  lemma {:induction false} ExactlyOneHits(p: nat, s: int, o: int, a: nat)
    requires p > 0 && s % 2 == 0 && o % 2 == 0 && a < p
    ensures 0 <= Hitting(p, s, o) < p
    ensures (2 * a + s) % (2 * p) == o % (2 * p) <==> a == Hitting(p, s, o)
  {
    EvenRemainder(o - s, p);
    HitsIff(2 * p, p, s, o, a);
  }

  lemma {:induction false} HitsIff(m: nat, p: nat, s: int, o: int, a: nat)
    requires p > 0 && m == 2 * p && (o - s) % m % 2 == 0 && a < p
    ensures 0 <= (o - s) % m / 2 < p
    ensures (2 * a + s) % m == o % m <==> a == (o - s) % m / 2
  {
    var v := (o - s) % m;
    ModOfSum(o - s, s, m);
    SameResidueIff(2 * a, v, s, m);
  }

  lemma {:induction false} SameResidueIff(a: nat, b: nat, s: int, m: int)
    requires a < m && b < m
    ensures (a + s) % m == (b + s) % m <==> a == b
  {
    if (a + s) % m == (b + s) % m {
      SameResidueShifted(a, b, s, m);
    }
  }

  lemma {:induction false} SameResidueShifted(a: nat, b: nat, s: int, m: int)
    requires a < m && b < m && (a + s) % m == (b + s) % m
    ensures a == b
  {
    var d := (a + s) / m - (b + s) / m;
    assert a + s == m * ((a + s) / m) + (a + s) % m && b + s == m * ((b + s) / m) + (b + s) % m;
    assert a - b == m * d;
    assert d >= 1 ==> m * d >= m;
    assert d <= -1 ==> m * d <= -m;
  }

  // ----- Cores

  datatype Cores = Cores(px: nat, py: nat) {
    ghost predicate Valid() {
      px > 0 && py > 0 && px % 2 == 0 && py % 2 == 0
    }

    function Count(): (k: nat) {
      px * py
    }

    /** `KNL_IDS` for cores on one plane. */
    function X(cid: nat): (ix: nat)
      requires px > 0
    {
      cid % px
    }

    function Y(cid: nat): (iy: nat)
      requires px > 0 && py > 0
    {
      (cid / px) % py
    }
  }

  /** After `k` rotations, core `a` of `p` on an axis visits the block at `x`. */
  predicate Visits(p: nat, a: nat, k: nat, x: nat)
    requires p > 0
  {
    x % (2 * p) == Rotated(2 * a, p, k)
  }

  /** Every visited block lies inside an interior of even width exactly when the core count is even. */
  lemma {:induction false} BlocksInsideIffEven(width: nat, p: nat)
    requires p > 0 && width >= 2 && width % 2 == 0
    ensures (forall a: nat, k: nat, x: nat :: a < p && x < width && Visits(p, a, k, x) ==> x + 1 < width) <==> p % 2 == 0
  {
    hide Visits;
    if p % 2 == 0 {
      forall a: nat, k: nat, x: nat | a < p && x < width && Visits(p, a, k, x) ensures x + 1 < width {
        VisitsEven(p, a, k, x);
      }
    } else {
      var a := OddCoresOverhang(width, p);
      assert Visits(p, a, 1, width - 1);
    }
  }

  lemma {:induction false} VisitsEven(p: nat, a: nat, k: nat, x: nat)
    requires p > 0 && p % 2 == 0 && Visits(p, a, k, x)
    ensures x % 2 == 0
  {
    hide Rotated;
    RotatedIsEven(2 * a, p, k);
    EvenByRemainder(x, p);
  }

  lemma {:induction false} EvenByRemainder(x: nat, p: nat)
    requires p > 0 && x % (2 * p) % 2 == 0
    ensures x % 2 == 0
  {
    var q := x / (2 * p);
    assert x == (2 * p) * q + x % (2 * p);
    assert (2 * p) * q == 2 * (p * q);
  }

  /** With an odd core count, some core's block after one rotation reaches out of the interior. */
  lemma {:induction false} OddCoresOverhang(width: nat, p: nat) returns (a: nat)
    requires p % 2 == 1 && width >= 2 && width % 2 == 0
    ensures a < p && Visits(p, a, 1, width - 1)
  {
    var o := width - 1 - p;
    ExactlyOneHits(p, 0, o, 0);
    a := Hitting(p, 0, o);
    ExactlyOneHits(p, 0, o, a);
    ModOfSum(2 * a, p, 2 * p);
    ModOfSum(o, p, 2 * p);
    assert p * 1 == p;
  }

  /** With three cores on an axis, core 0 starts at the odd offset 3 after one rotation. */
  lemma {:induction false} RotationCounterexample()
    ensures Rotated(0, 3, 1) == 3 && Visits(3, 0, 1, 3)
  {}

  lemma {:induction false} CoreIds(k: Cores, cid: nat)
    requires k.px > 0 && k.py > 0 && cid < k.Count()
    ensures k.X(cid) < k.px && k.Y(cid) < k.py && cid == k.Y(cid) * k.px + k.X(cid)
    ensures k.Y(cid) == cid / k.px
  {
    if cid / k.px >= k.py {
      MulMono(k.py, cid / k.px, k.px);
    }
    DivModUnique(cid / k.px, k.py, 0, cid / k.px);
  }

  lemma {:induction false} CoreOfIds(k: Cores, ix: nat, iy: nat)
    requires ix < k.px && iy < k.py
    ensures iy * k.px + ix < k.Count()
    ensures k.X(iy * k.px + ix) == ix && k.Y(iy * k.px + ix) == iy
  {
    MulMono(iy + 1, k.py, k.px);
    MulDistribute(iy, 1, k.px);
    DivModUnique(iy * k.px + ix, k.px, iy, ix);
    DivModUnique(iy, k.py, 0, iy);
  }

  function RowOrigin(n: nat, r: nat, i: nat): (o: int)
    requires n > 0
  {
    Origin(r, i / n)
  }

  /** Cell `i` belongs to a core whose offsets are `lx` and `ly` at the start of a step. */
  predicate Owns(n: nat, r: nat, k: Cores, lx: nat, ly: nat, i: nat)
    requires n > 0 && k.px > 0 && k.py > 0
  {
    && Interior(n, r, i)
    && RowOrigin(n, r, i) % (2 * k.py) == ly
    && ColOrigin(n, r, i) % (2 * k.px) == Rotated(lx, k.px, RowOrigin(n, r, i) / (2 * k.py))
  }

  /** The core that computes cell `i`, when row group `iy` has rotated `rot[iy]` times so far
      and `t` time steps are done. */
  ghost function Owner(n: nat, r: nat, k: Cores, rot: seq<nat>, t: nat, i: nat): (cid: int)
    requires n > 0 && k.Valid() && |rot| == k.py
  {
    var o := RowOrigin(n, r, i);
    var iy := Hitting(k.py, k.py * t, o);
    if 0 <= iy < k.py then
      iy * k.px + Hitting(k.px, k.px * (rot[iy] + o / (2 * k.py)), ColOrigin(n, r, i))
    else -1
  }

  /** In every time step, every interior cell belongs to exactly one core. */
  lemma {:induction false} TiledExactlyOnce(n: nat, r: nat, k: Cores, rot: seq<nat>, t: nat, i: nat, cid: nat)
    requires n > 0 && n % 2 == 0 && k.Valid() && |rot| == k.py && i < n * n && cid < k.Count()
    requires Interior(n, r, i) && k.Y(cid) < |rot|
    ensures 0 <= Owner(n, r, k, rot, t, i) < k.Count()
    ensures Owns(n, r, k, Rotated(2 * k.X(cid), k.px, rot[k.Y(cid)]), Rotated(2 * k.Y(cid), k.py, t), i)
            <==> cid == Owner(n, r, k, rot, t, i)
  {
    hide Hitting, Rotated, Interior, Origin, ColOrigin;
    var (o, ox) := (RowOrigin(n, r, i), ColOrigin(n, r, i));
    OriginIsInside(n, r, i);
    CoreIds(k, cid);
    var (ix, iy, jy, row) := (k.X(cid), k.Y(cid), Hitting(k.py, k.py * t, o), o / (2 * k.py));
    RotatedHits(k.py, t, o, iy);
    RotateMore(2 * ix, k.px, rot[iy], row);
    RotatedHits(k.px, rot[iy] + row, ox, ix);
    RotatedHits(k.px, rot[jy] + row, ox, ix);
    CoreOfIds(k, Hitting(k.px, k.px * (rot[jy] + row), ox), jy);
  }

  lemma {:induction false} RotatedHits(p: nat, k: int, o: int, a: nat)
    requires p > 0 && p % 2 == 0 && o % 2 == 0 && a < p
    ensures 0 <= Hitting(p, p * k, o) < p
    ensures o % (2 * p) == Rotated(2 * a, p, k) <==> a == Hitting(p, p * k, o)
  {
    EvenProduct(p, k);
    ExactlyOneHits(p, p * k, o, a);
  }

  // ----- The indirect-stream kernel

  /** One iteration of the row loop; returns the rotated column offset. */
  method OneRow(src: array<real>, dst: array<real>, n: nat, r: nat, ghost c: Coefs, i0: seq<nat>, i1: seq<nat>, ca: seq<real>,
                k: Cores, ghost lx0: nat, ghost ly: nat, y: nat, lx: nat, ghost rows: nat)
    returns (lx': nat)
    requires c.OfRadius(r) && src.Length == dst.Length == n * n && src != dst && IndicesFit(n, r) && n % 2 == 0 && n > 0
    requires IndexTables(n, r, i0, i1, Points(r)) && CoefTable(c, ca, Points(r))
    requires k.Valid() && lx0 % 2 == 0
    requires AtRow(y, ly, k.py, rows) && lx == Rotated(lx0, k.px, rows) && y < n - 2 * r
    modifies dst
    ensures lx' == Rotated(lx0, k.px, rows + 1)
    ensures forall i :: 0 <= i < n * n ==>
      dst[i] == if Selected(n, r, i, y, lx, 2 * k.px) then Star(src[..], n, r, c, i) else old(dst[i])
  {
    hide Star, IndexTables, CoefTable, Selected, Rotated, IndicesFit, AtRow;
    RotatedIsEven(lx0, k.px, rows);
    RowIsInside(n, r, y, ly, k.py, rows);
    RotateOnce(lx0, k.px, rows);
    var jump := 2 * k.px;
    RowPass(src, dst, n, r, c, i0, i1, ca, y, lx, jump);
    lx' := (lx + k.px) % jump;
  }

  lemma {:induction false} RowIsInside(n: nat, r: nat, y: nat, ly: nat, py: nat, rows: nat)
    requires py > 0 && n % 2 == 0 && AtRow(y, ly, py, rows) && y < n - 2 * r
    ensures y % 2 == 0 && y + 1 + 2 * r < n
  {}

  /** One time step of one core; returns the rotated column offset. */
  method IssrCoreStep(src: array<real>, dst: array<real>, n: nat, r: nat, ghost c: Coefs, i0: seq<nat>, i1: seq<nat>, ca: seq<real>,
                      k: Cores, lx0: nat, ly: nat)
    returns (lx: nat)
    requires c.OfRadius(r) && src.Length == dst.Length == n * n && src != dst && IndicesFit(n, r) && n % 2 == 0 && n > 0
    requires IndexTables(n, r, i0, i1, Points(r)) && CoefTable(c, ca, Points(r))
    requires k.Valid() && lx0 % 2 == 0 && ly % 2 == 0 && lx0 < 2 * k.px && ly < 2 * k.py
    modifies dst
    ensures forall i :: 0 <= i < n * n ==>
      dst[i] == if Owns(n, r, k, lx0, ly, i) then Star(src[..], n, r, c, i) else old(dst[i])
    ensures lx == Rotated(lx0, k.px, Iterations(n - 2 * r, ly, 2 * k.py))
  {
    hide Star, IndexTables, CoefTable, Owns, Selected, Rotated, RowOrigin, AtRow, Iterations;
    ghost var g := src[..];
    var jy := 2 * k.py;
    var y: nat := ly;
    lx := lx0;
    ghost var rows: nat := 0;
    StartOfStep(lx0, k.px, ly, jy);
    FirstRow(ly, k.py);
    forall i | 0 <= i < n * n ensures !(Owns(n, r, k, lx0, ly, i) && RowOrigin(n, r, i) < y) {
      OwnsStep(n, r, k, lx0, ly, i, y, 0);
    }
    while y < n - 2 * r
      invariant AtRow(y, ly, k.py, rows)
      invariant lx == Rotated(lx0, k.px, rows)
      invariant rows + Iterations(n - 2 * r, y, jy) == Iterations(n - 2 * r, ly, jy)
      invariant src[..] == g
      invariant forall i :: 0 <= i < n * n ==>
        dst[i] == if Owns(n, r, k, lx0, ly, i) && RowOrigin(n, r, i) < y then Star(g, n, r, c, i) else old(dst[i])
      decreases n - 2 * r - y
    {
      RowFacts(y, ly, k.py, rows);
      IterationsStep(n - 2 * r, y, jy);
      var lx' := OneRow(src, dst, n, r, c, i0, i1, ca, k, lx0, ly, y, lx, rows);
      forall i | 0 <= i < n * n
        ensures Owns(n, r, k, lx0, ly, i) && RowOrigin(n, r, i) < y + jy
                <==> (Owns(n, r, k, lx0, ly, i) && RowOrigin(n, r, i) < y) || Selected(n, r, i, y, lx, 2 * k.px)
      {
        OwnsStep(n, r, k, lx0, ly, i, y, rows);
      }
      lx, rows, y := lx', rows + 1, y + jy;
    }
    IterationsStep(n - 2 * r, y, jy);
    forall i | 0 <= i < n * n ensures Owns(n, r, k, lx0, ly, i) ==> RowOrigin(n, r, i) < y {
      OwnsInside(n, r, k, lx0, ly, i);
    }
  }

  /** `y` is the first row of the core's block row number `rows`. */
  ghost predicate AtRow(y: nat, ly: nat, py: nat, rows: nat)
    requires py > 0
  {
    y % 2 == 0 && y % (2 * py) == ly && y / (2 * py) == rows
  }

  lemma {:induction false} FirstRow(ly: nat, py: nat)
    requires py > 0 && ly % 2 == 0 && ly < 2 * py
    ensures AtRow(ly, ly, py, 0)
  {
    DivModUnique(ly, 2 * py, 0, ly);
  }

  lemma {:induction false} RowFacts(y: nat, ly: nat, py: nat, rows: nat)
    requires py > 0 && AtRow(y, ly, py, rows)
    ensures AtRow(y + 2 * py, ly, py, rows + 1)
  {
    NextResidue(y, 2 * py);
  }

  lemma {:induction false} StartOfStep(lx0: nat, px: nat, ly: nat, jy: nat)
    requires px > 0 && lx0 < 2 * px && ly < jy
    ensures Rotated(lx0, px, 0) == lx0 && ly % jy == ly && ly / jy == 0
  {
    DivModUnique(lx0, 2 * px, 0, lx0);
    DivModUnique(ly, jy, 0, ly);
    assert px * 0 == 0;
  }

  lemma {:induction false} OwnsInside(n: nat, r: nat, k: Cores, lx0: nat, ly: nat, i: nat)
    requires n > 0 && n % 2 == 0 && k.Valid() && i < n * n
    ensures Owns(n, r, k, lx0, ly, i) ==> Interior(n, r, i) && 0 <= RowOrigin(n, r, i) < n - 2 * r
  {
    if Interior(n, r, i) {
      OriginIsInside(n, r, i);
    }
  }

  lemma {:induction false} OwnsStep(n: nat, r: nat, k: Cores, lx0: nat, ly: nat, i: nat, y: nat, rows: nat)
    requires n > 0 && n % 2 == 0 && k.Valid() && i < n * n && ly < 2 * k.py
    requires AtRow(y, ly, k.py, rows)
    ensures Owns(n, r, k, lx0, ly, i) && RowOrigin(n, r, i) < y + 2 * k.py
            <==> (Owns(n, r, k, lx0, ly, i) && RowOrigin(n, r, i) < y)
                 || Selected(n, r, i, y, Rotated(lx0, k.px, rows), 2 * k.px)
    ensures y == ly ==> !(Owns(n, r, k, lx0, ly, i) && RowOrigin(n, r, i) < y)
  {
    var (o, jy) := (RowOrigin(n, r, i), 2 * k.py);
    if Interior(n, r, i) {
      OriginIsInside(n, r, i);
      if o % jy == ly {
        if y <= o < y + jy {
          SameResidue(o, y, jy);
        }
        RemainderBelow(o, jy);
      }
    }
  }

  /** Every core once. */
  ghost predicate IsOrder(order: seq<nat>, count: nat) {
    && (forall cid :: 0 <= cid < count ==> cid in order)
    && (forall a :: 0 <= a < |order| ==> order[a] < count)
    && (forall a, b :: 0 <= a < b < |order| ==> order[a] != order[b])
  }

  /** The offsets of all cores after `t` steps; row group `iy` has rotated `rot[iy]` times. */
  ghost predicate Offsets(k: Cores, lxs: seq<nat>, lys: seq<nat>, rot: seq<nat>, t: nat)
    requires k.Valid()
  {
    && |lxs| == |lys| == k.Count() && |rot| == k.py
    && forall cid :: 0 <= cid < k.Count() ==> CoreOffsets(k, lxs[cid], lys[cid], rot, t, cid)
  }

  ghost predicate CoreOffsets(k: Cores, lx: nat, ly: nat, rot: seq<nat>, t: nat, cid: nat)
    requires k.Valid() && |rot| == k.py
  {
    k.Y(cid) < k.py && lx == Rotated(2 * k.X(cid), k.px, rot[k.Y(cid)]) && ly == Rotated(2 * k.Y(cid), k.py, t)
  }

  /** The rotations after one more step. */
  ghost function RotatedOn(n: nat, r: nat, k: Cores, rot: seq<nat>, t: nat): (rot': seq<nat>)
    requires k.Valid() && |rot| == k.py
    ensures |rot'| == k.py
  {
    seq(k.py, iy requires 0 <= iy < k.py => rot[iy] + Iterations(n - 2 * r, Rotated(2 * iy, k.py, t), 2 * k.py))
  }

  lemma {:induction false} CoreOffsetsStep(n: nat, r: nat, k: Cores, lx: nat, ly: nat, rot: seq<nat>, t: nat, cid: nat)
    requires k.Valid() && |rot| == k.py && CoreOffsets(k, lx, ly, rot, t, cid)
    ensures lx % 2 == 0 && lx < 2 * k.px && ly % 2 == 0 && ly < 2 * k.py
    ensures CoreOffsets(k, Rotated(lx, k.px, Iterations(n - 2 * r, ly, 2 * k.py)), (ly + k.py) % (2 * k.py),
                        RotatedOn(n, r, k, rot, t), t + 1, cid)
  {
    hide Rotated;
    var (ix, iy) := (k.X(cid), k.Y(cid));
    RotatedIsEven(2 * ix, k.px, rot[iy]);
    RotatedIsEven(2 * iy, k.py, t);
    RotateMore(2 * ix, k.px, rot[iy], Iterations(n - 2 * r, ly, 2 * k.py));
    RotateOnce(2 * iy, k.py, t);
  }

  ghost predicate KernelData(n: nat, r: nat, c: Coefs, i0: seq<nat>, i1: seq<nat>, ca: seq<real>) {
    && c.OfRadius(r) && IndicesFit(n, r) && n % 2 == 0 && n > 0
    && IndexTables(n, r, i0, i1, Points(r)) && CoefTable(c, ca, Points(r))
  }

  /** One time step of the cluster, its cores running in any order between two barriers. */
  method IssrStep(src: array<real>, dst: array<real>, n: nat, r: nat, ghost c: Coefs, i0: seq<nat>, i1: seq<nat>, ca: seq<real>,
                  k: Cores, order: seq<nat>, lxs0: seq<nat>, lys0: seq<nat>, ghost rot: seq<nat>, ghost t: nat)
    returns (lxs: seq<nat>, lys: seq<nat>)
    requires KernelData(n, r, c, i0, i1, ca) && src.Length == dst.Length == n * n && src != dst
    requires k.Valid() && IsOrder(order, k.Count()) && Offsets(k, lxs0, lys0, rot, t)
    modifies dst
    ensures Offsets(k, lxs, lys, RotatedOn(n, r, k, rot, t), t + 1)
    ensures dst[..] == Step(n, r, c, src[..], old(dst[..]))
    ensures Stepped(src[..], old(dst[..]), dst[..], n, r, c)
  {
    hide Star, IndexTables, CoefTable, Owns, Interior, Rotated, CoreOffsets, RotatedOn, Owner, Stepped;
    ghost var (g, before) := (src[..], dst[..]);
    ghost var rot' := RotatedOn(n, r, k, rot, t);
    lxs, lys := lxs0, lys0;
    for j := 0 to |order|
      invariant |lxs| == |lys| == k.Count()
      invariant src[..] == g
      invariant forall b :: j <= b < |order| ==> lxs[order[b]] == lxs0[order[b]] && lys[order[b]] == lys0[order[b]]
      invariant forall b :: 0 <= b < j ==> CoreOffsets(k, lxs[order[b]], lys[order[b]], rot', t + 1, order[b])
      invariant forall i :: 0 <= i < n * n ==>
        dst[i] == if Interior(n, r, i) && Owner(n, r, k, rot, t, i) in order[..j] then Star(g, n, r, c, i) else old(dst[i])
    {
      var cid := order[j];
      assert CoreOffsets(k, lxs[cid], lys[cid], rot, t, cid);
      CoreOffsetsStep(n, r, k, lxs[cid], lys[cid], rot, t, cid);
      var lx := IssrCoreStep(src, dst, n, r, c, i0, i1, ca, k, lxs[cid], lys[cid]);
      forall i | 0 <= i < n * n
        ensures Owns(n, r, k, lxs[cid], lys[cid], i) <==> Interior(n, r, i) && Owner(n, r, k, rot, t, i) == cid
      {
        OwnedByOwner(n, r, k, lxs[cid], lys[cid], rot, t, i, cid);
      }
      assert order[..j + 1] == order[..j] + [cid];
      lxs, lys := lxs[cid := lx], lys[cid := (lys[cid] + k.py) % (2 * k.py)];
    }
    forall cid | 0 <= cid < k.Count() ensures CoreOffsets(k, lxs[cid], lys[cid], rot', t + 1, cid) {
      assert cid in order;
    }
    assert order[..|order|] == order;
    forall i | 0 <= i < n * n && Interior(n, r, i) ensures Owner(n, r, k, rot, t, i) in order {
      OwnerExists(n, r, k, rot, t, i);
    }
    StepIsStepped(n, r, c, g, before);
  }

  lemma {:induction false} OwnedByOwner(n: nat, r: nat, k: Cores, lx: nat, ly: nat, rot: seq<nat>, t: nat, i: nat, cid: nat)
    requires n > 0 && n % 2 == 0 && k.Valid() && |rot| == k.py && i < n * n && cid < k.Count()
    requires CoreOffsets(k, lx, ly, rot, t, cid)
    ensures Owns(n, r, k, lx, ly, i) <==> Interior(n, r, i) && Owner(n, r, k, rot, t, i) == cid
  {
    hide Rotated, Owner, Interior, Origin, ColOrigin;
    if Interior(n, r, i) {
      TiledExactlyOnce(n, r, k, rot, t, i, cid);
    }
  }

  lemma {:induction false} OwnerExists(n: nat, r: nat, k: Cores, rot: seq<nat>, t: nat, i: nat)
    requires n > 0 && n % 2 == 0 && k.Valid() && |rot| == k.py && i < n * n && Interior(n, r, i)
    ensures 0 <= Owner(n, r, k, rot, t, i) < k.Count()
  {
    CoreOfIds(k, 0, 0);
    TiledExactlyOnce(n, r, k, rot, t, i, 0);
  }

  // ----- The plain kernel

  predicate PlainOwns(n: nat, r: nat, k: Cores, cid: nat, i: nat)
    requires n > 0 && k.px > 0 && k.py > 0
  {
    Interior(n, r, i) && (i / n - r) % k.py == k.Y(cid) && (i % n - r) % k.px == k.X(cid)
  }

  /** One row of one core. */
  method PlainRow(src: array<real>, dst: array<real>, n: nat, r: nat, c: Coefs, px: nat, ix: nat, y: nat)
    requires c.OfRadius(r) && src.Length == dst.Length == n * n && src != dst && n > 0
    requires ix < px && r <= y && y + r < n
    modifies dst
    ensures forall i :: 0 <= i < n * n ==>
      dst[i] == if PlainPart(n, r, px, ix, y, i) then Star(src[..], n, r, c, i) else old(dst[i])
  {
    hide Star, PlainPart, Col, Weighted;
    ghost var g := src[..];
    var x: nat := ix + r;
    DivModUnique(ix, px, 0, ix);
    forall i | 0 <= i < n * n ensures !(PlainPart(n, r, px, ix, y, i) && Col(n, i) < x) { PlainStep(n, r, px, ix, y, i, x); }
    while x < n - r
      invariant r <= x && (x - r) % px == ix
      invariant src[..] == g
      invariant forall i :: 0 <= i < n * n ==>
        dst[i] == if PlainPart(n, r, px, ix, y, i) && Col(n, i) < x then Star(g, n, r, c, i) else old(dst[i])
      decreases n - r - x
    {
      CellOf(n, y, x);
      var v := PlainPoint(src, n, r, c, y, x);
      dst[y * n + x] := v;
      forall i | 0 <= i < n * n
        ensures PlainPart(n, r, px, ix, y, i) && Col(n, i) < x + px <==> (PlainPart(n, r, px, ix, y, i) && Col(n, i) < x) || i == y * n + x
      {
        PlainStep(n, r, px, ix, y, i, x);
      }
      NextResidue(x - r, px);
      x := x + px;
    }
    forall i | 0 <= i < n * n ensures PlainPart(n, r, px, ix, y, i) ==> Col(n, i) < x { PlainEnds(n, r, px, ix, y, i); }
  }

  lemma PlainEnds(n: nat, r: nat, px: nat, ix: nat, y: nat, i: nat)
    requires n > 0 && px > 0
    ensures PlainPart(n, r, px, ix, y, i) ==> Col(n, i) < n - r
  {
  }

  function Col(n: nat, i: nat): (x: int)
    requires n > 0
  {
    i % n
  }

  predicate PlainPart(n: nat, r: nat, px: nat, ix: nat, y: nat, i: nat)
    requires n > 0 && px > 0
  {
    Interior(n, r, i) && i / n == y && (i % n - r) % px == ix
  }

  lemma {:induction false} PlainStep(n: nat, r: nat, px: nat, ix: nat, y: nat, i: nat, x: nat)
    requires n > 0 && ix < px && r <= y && y + r < n && i < n * n && r <= x && (x - r) % px == ix
    ensures x < n - r ==>
      (PlainPart(n, r, px, ix, y, i) && Col(n, i) < x + px <==> (PlainPart(n, r, px, ix, y, i) && Col(n, i) < x) || i == y * n + x)
    ensures x == ix + r ==> !(PlainPart(n, r, px, ix, y, i) && Col(n, i) < x)
  {
    RowCol(n, i);
    var col := i % n;
    if PlainPart(n, r, px, ix, y, i) {
      if x <= col < x + px {
        SameResidue(col - r, x - r, px);
      }
      RemainderBelow(col - r, px);
    }
    if x < n - r {
      CellOf(n, y, x);
    }
  }

  lemma {:induction false} PlainRowStep(n: nat, r: nat, k: Cores, cid: nat, i: nat, y: nat)
    requires n > 0 && k.px > 0 && k.py > 0 && cid < k.Count() && i < n * n && r <= y && (y - r) % k.py == k.Y(cid)
    ensures y < n - r ==>
      (PlainOwns(n, r, k, cid, i) && i / n < y + k.py
       <==> (PlainOwns(n, r, k, cid, i) && i / n < y) || PlainPart(n, r, k.px, k.X(cid), y, i))
    ensures y == k.Y(cid) + r ==> !(PlainOwns(n, r, k, cid, i) && i / n < y)
    ensures PlainOwns(n, r, k, cid, i) ==> i / n < n - r
  {
    CoreIds(k, cid);
    var row := i / n;
    if PlainOwns(n, r, k, cid, i) {
      if y <= row < y + k.py {
        SameResidue(row - r, y - r, k.py);
      }
      RemainderBelow(row - r, k.py);
    }
  }

  /** One time step of one core. */
  method PlainCoreStep(src: array<real>, dst: array<real>, n: nat, r: nat, c: Coefs, k: Cores, cid: nat)
    requires c.OfRadius(r) && src.Length == dst.Length == n * n && src != dst && n > 0
    requires k.px > 0 && k.py > 0 && cid < k.Count()
    modifies dst
    ensures forall i :: 0 <= i < n * n ==>
      dst[i] == if PlainOwns(n, r, k, cid, i) then Star(src[..], n, r, c, i) else old(dst[i])
  {
    hide Star, PlainPart, PlainOwns;
    ghost var g := src[..];
    CoreIds(k, cid);
    var (ix, iy) := (k.X(cid), k.Y(cid));
    DivModUnique(iy, k.py, 0, iy);
    var y: nat := iy + r;
    forall i | 0 <= i < n * n ensures !(PlainOwns(n, r, k, cid, i) && i / n < y) { PlainRowStep(n, r, k, cid, i, y); }
    while y < n - r
      invariant r <= y && (y - r) % k.py == iy
      invariant src[..] == g
      invariant forall i :: 0 <= i < n * n ==>
        dst[i] == if PlainOwns(n, r, k, cid, i) && i / n < y then Star(g, n, r, c, i) else old(dst[i])
      decreases n - r - y
    {
      PlainRow(src, dst, n, r, c, k.px, ix, y);
      forall i | 0 <= i < n * n
        ensures PlainOwns(n, r, k, cid, i) && i / n < y + k.py
                <==> (PlainOwns(n, r, k, cid, i) && i / n < y) || PlainPart(n, r, k.px, ix, y, i)
      {
        PlainRowStep(n, r, k, cid, i, y);
      }
      NextResidue(y - r, k.py);
      y := y + k.py;
    }
    forall i | 0 <= i < n * n ensures PlainOwns(n, r, k, cid, i) ==> i / n < y { PlainRowStep(n, r, k, cid, i, iy + r); }
  }

  ghost function PlainOwner(n: nat, r: nat, k: Cores, i: nat): (cid: int)
    requires n > 0 && k.px > 0 && k.py > 0
  {
    ((i / n - r) % k.py) * k.px + (i % n - r) % k.px
  }

  lemma {:induction false} PlainOwnedByOwner(n: nat, r: nat, k: Cores, i: nat, cid: nat)
    requires n > 0 && k.px > 0 && k.py > 0 && cid < k.Count() && i < n * n
    ensures 0 <= PlainOwner(n, r, k, i) < k.Count()
    ensures PlainOwns(n, r, k, cid, i) <==> Interior(n, r, i) && PlainOwner(n, r, k, i) == cid
  {
    hide Interior;
    CoreIffIds(k, cid, (i % n - r) % k.px, (i / n - r) % k.py);
  }

  lemma {:induction false} CoreIffIds(k: Cores, cid: nat, ix: nat, iy: nat)
    requires ix < k.px && iy < k.py && cid < k.Count()
    ensures 0 <= iy * k.px + ix < k.Count()
    ensures iy == k.Y(cid) && ix == k.X(cid) <==> iy * k.px + ix == cid
  {
    CoreIds(k, cid);
    CoreOfIds(k, ix, iy);
  }

  /** One time step of the cluster, its cores running in any order between two barriers. */
  method ParStep(src: array<real>, dst: array<real>, n: nat, r: nat, c: Coefs, k: Cores, order: seq<nat>)
    requires c.OfRadius(r) && src.Length == dst.Length == n * n && src != dst && n > 0
    requires k.px > 0 && k.py > 0 && IsOrder(order, k.Count())
    modifies dst
    ensures dst[..] == Step(n, r, c, src[..], old(dst[..]))
    ensures Stepped(src[..], old(dst[..]), dst[..], n, r, c)
  {
    hide Star, Interior, PlainOwns, PlainOwner, Stepped;
    ghost var (g, before) := (src[..], dst[..]);
    for j := 0 to |order|
      invariant src[..] == g
      invariant forall i :: 0 <= i < n * n ==>
        dst[i] == if Interior(n, r, i) && PlainOwner(n, r, k, i) in order[..j] then Star(g, n, r, c, i) else old(dst[i])
    {
      var cid := order[j];
      PlainCoreStep(src, dst, n, r, c, k, cid);
      forall i | 0 <= i < n * n
        ensures PlainOwns(n, r, k, cid, i) <==> Interior(n, r, i) && PlainOwner(n, r, k, i) == cid
      {
        PlainOwnedByOwner(n, r, k, i, cid);
      }
      assert order[..j + 1] == order[..j] + [cid];
    }
    assert order[..|order|] == order;
    forall i | 0 <= i < n * n ensures PlainOwner(n, r, k, i) in order {
      CoreOfIds(k, 0, 0);
      PlainOwnedByOwner(n, r, k, i, 0);
    }
    StepIsStepped(n, r, c, g, before);
  }

  // ----- All time steps

  /** The two grid buffers after `t` steps; step `t` reads buffer `t % 2` and writes the other. */
  ghost function Evolved(n: nat, r: nat, c: Coefs, t: nat, g0: seq<real>, g1: seq<real>): (g: (seq<real>, seq<real>))
    requires c.OfRadius(r) && |g0| == |g1| == n * n && n > 0
    ensures |g.0| == |g.1| == n * n
  {
    if t == 0 then (g0, g1)
    else
      var (a, b) := Evolved(n, r, c, t - 1, g0, g1);
      if t % 2 == 1 then (a, Step(n, r, c, a, b)) else (Step(n, r, c, b, a), b)
  }

  /** Step `t` reads grid `t % 2`, which it keeps, and steps the other one. */
  lemma {:induction false} EvolvedStep(n: nat, r: nat, c: Coefs, t: nat, g0: seq<real>, g1: seq<real>)
    requires c.OfRadius(r) && |g0| == |g1| == n * n && n > 0
    ensures var (before, after) := (Evolved(n, r, c, t, g0, g1), Evolved(n, r, c, t + 1, g0, g1));
      if t % 2 == 0 then after.0 == before.0 && Stepped(before.0, before.1, after.1, n, r, c)
      else after.1 == before.1 && Stepped(before.1, before.0, after.0, n, r, c)
  {
    hide Stepped, Step;
    var (a, b) := Evolved(n, r, c, t, g0, g1);
    StepIsStepped(n, r, c, a, b);
    StepIsStepped(n, r, c, b, a);
  }

  ghost predicate AreOrders(orders: seq<seq<nat>>, count: nat) {
    forall t :: 0 <= t < |orders| ==> IsOrder(orders[t], count)
  }

  /** The plain kernel, one core order per time step. */
  method ParKernel(a0: array<real>, a1: array<real>, n: nat, r: nat, c: Coefs, k: Cores, orders: seq<seq<nat>>)
    requires c.OfRadius(r) && a0.Length == a1.Length == n * n && a0 != a1 && n > 0
    requires k.px > 0 && k.py > 0 && AreOrders(orders, k.Count())
    modifies a0, a1
    ensures (a0[..], a1[..]) == Evolved(n, r, c, |orders|, old(a0[..]), old(a1[..]))
  {
    hide Step;
    for t := 0 to |orders|
      invariant (a0[..], a1[..]) == Evolved(n, r, c, t, old(a0[..]), old(a1[..]))
    {
      if t % 2 == 0 {
        ParStep(a0, a1, n, r, c, k, orders[t]);
      } else {
        ParStep(a1, a0, n, r, c, k, orders[t]);
      }
    }
  }

  /** The indirect-stream kernel, one core order per time step. */
  method IssrKernel(a0: array<real>, a1: array<real>, n: nat, r: nat, c: Coefs, k: Cores, orders: seq<seq<nat>>)
    requires c.OfRadius(r) && a0.Length == a1.Length == n * n && a0 != a1 && n > 0
    requires n % 2 == 0 && IndicesFit(n, r) && k.Valid() && AreOrders(orders, k.Count())
    modifies a0, a1
    ensures (a0[..], a1[..]) == Evolved(n, r, c, |orders|, old(a0[..]), old(a1[..]))
  {
    hide Step, RotatedOn, Offsets, IndexTables, CoefTable;
    var i0, i1 := FillIndices(n, r);
    var ca := FillCoefs(c, r);
    var lxs, lys := InitialOffsets(k);
    ghost var rot: seq<nat> := seq(k.py, _ => 0);
    for t := 0 to |orders|
      invariant |rot| == k.py && Offsets(k, lxs, lys, rot, t)
      invariant (a0[..], a1[..]) == Evolved(n, r, c, t, old(a0[..]), old(a1[..]))
    {
      if t % 2 == 0 {
        lxs, lys := IssrStep(a0, a1, n, r, c, i0, i1, ca, k, orders[t], lxs, lys, rot, t);
      } else {
        lxs, lys := IssrStep(a1, a0, n, r, c, i0, i1, ca, k, orders[t], lxs, lys, rot, t);
      }
      rot := RotatedOn(n, r, k, rot, t);
    }
  }

  /** `KNL_IDS_LOC`. */
  method InitialOffsets(k: Cores) returns (lxs: seq<nat>, lys: seq<nat>)
    requires k.Valid()
    ensures Offsets(k, lxs, lys, seq(k.py, _ => 0), 0)
    ensures |lxs| == |lys| == k.px * k.py
    ensures forall cid :: 0 <= cid < |lxs| ==> lxs[cid] == 2 * (cid % k.px) && lys[cid] == 2 * (cid / k.px % k.py)
  {
    lxs, lys := [], [];
    for cid := 0 to k.Count()
      invariant |lxs| == |lys| == cid
      invariant forall j :: 0 <= j < cid ==> lxs[j] == 2 * (j % k.px) && lys[j] == 2 * (j / k.px % k.py)
      invariant forall j :: 0 <= j < cid ==> CoreOffsets(k, lxs[j], lys[j], seq(k.py, _ => 0), 0, j)
    {
      CoreIds(k, cid);
      StartOfStep(2 * k.X(cid), k.px, 2 * k.Y(cid), 2 * k.py);
      StartOfStep(2 * k.Y(cid), k.py, 0, 1);
      lxs, lys := lxs + [2 * k.X(cid)], lys + [2 * k.Y(cid)];
    }
  }

  /** Started on the same grids, both kernels leave the same grids, whatever the core orders. */
  method BothKernels(a0: array<real>, a1: array<real>, b0: array<real>, b1: array<real>, n: nat, r: nat, c: Coefs,
                     k: Cores, orders: seq<seq<nat>>, k': Cores, orders': seq<seq<nat>>)
    requires c.OfRadius(r) && a0.Length == a1.Length == b0.Length == b1.Length == n * n && n > 0
    requires a0 != a1 && b0 != b1 && a0 != b0 && a0 != b1 && a1 != b0 && a1 != b1
    requires n % 2 == 0 && IndicesFit(n, r) && k.Valid() && k'.px > 0 && k'.py > 0
    requires |orders| == |orders'| && AreOrders(orders, k.Count()) && AreOrders(orders', k'.Count())
    requires a0[..] == b0[..] && a1[..] == b1[..]
    modifies a0, a1, b0, b1
    ensures a0[..] == b0[..] && a1[..] == b1[..]
  {
    IssrKernel(a0, a1, n, r, c, k, orders);
    ParKernel(b0, b1, n, r, c, k', orders');
  }
}
