/**
 Affine streams: the configuration functions of the two SSR headers, the address
 generator of the stream hardware, and the loop nest whose accesses a stream replaces.

 Loop 0 is the innermost one.  The headers write inclusive bounds and delta strides: the
 delta stride of loop k takes the pointer from the last element of the loops below k to
 the first element of the next iteration of k.
 */
module SsrStreams {
  import opened Arithmetic

  /** Subtraction and multiplication on 32-bit unsigned integers. */
  function Sub(a: int, b: int): (r: nat) {
    (a - b) % WORD
  }

  /** The bounds of a nest as the headers take them, innermost first. */
  ghost predicate Bounds(b: seq<nat>) {
    forall i :: 0 <= i < |b| ==> 1 <= b[i] <= WORD
  }

  ghost function Product(b: seq<nat>): (r: nat) {
    if b == [] then 1 else Product(b[..|b| - 1]) * b[|b| - 1]
  }

  /** The offsets accessed by `for (i = ..; i < b; i++) body`, with `ptr` advanced by `s * i`. */
  ghost function Repeated(body: seq<int>, s: int, count: nat): (r: seq<int>) {
    if count == 0 then []
    else Repeated(body, s, count - 1) + seq(|body|, j requires 0 <= j < |body| => (count - 1) * s + body[j])
  }

  /** The offsets accessed by the affine loop nest, in program order. */
  ghost function NestOffsets(b: seq<nat>, s: seq<int>): (r: seq<int>)
    requires |b| == |s|
  {
    if b == [] then [0]
    else Repeated(NestOffsets(b[..|b| - 1], s[..|s| - 1]), s[|s| - 1], b[|b| - 1])
  }

  // ----- Loop counters

  ghost predicate Within(idx: seq<nat>, b: seq<nat>) {
    |idx| == |b| && forall i :: 0 <= i < |b| ==> idx[i] < b[i]
  }

  ghost function Offset(idx: seq<nat>, s: seq<int>): (r: int)
    requires |idx| == |s|
  {
    if idx == [] then 0 else Offset(idx[..|idx| - 1], s[..|s| - 1]) + idx[|idx| - 1] * s[|s| - 1]
  }

  /** How many iterations of the innermost loop come before the counters `idx`. */
  ghost function Rank(idx: seq<nat>, b: seq<nat>): (r: nat)
    requires |idx| == |b|
  {
    if idx == [] then 0 else Rank(idx[..|idx| - 1], b[..|b| - 1]) + idx[|idx| - 1] * Product(b[..|b| - 1])
  }

  lemma {:induction false} MulStep(i: nat, n: nat, count: nat)
    requires i < count
    ensures i * n + n <= count * n
  {
    var d := count - i - 1;
    assert count * n == (i + 1 + d) * n == i * n + n + d * n;
    assert d * n >= 0;
  }

  lemma {:induction false} RepeatedLength(body: seq<int>, s: int, count: nat)
    ensures |Repeated(body, s, count)| == count * |body|
  {
    if count > 0 {
      RepeatedLength(body, s, count - 1);
      assert (count - 1) * |body| + |body| == count * |body|;
    }
  }

  lemma {:induction false} RepeatedAt(body: seq<int>, s: int, count: nat, i: nat, j: nat)
    requires i < count && j < |body|
    ensures i * |body| + j < |Repeated(body, s, count)| == count * |body|
    ensures Repeated(body, s, count)[i * |body| + j] == i * s + body[j]
    decreases count
  {
    RepeatedLength(body, s, count);
    RepeatedLength(body, s, count - 1);
    MulStep(i, |body|, count);
    var rest := Repeated(body, s, count - 1);
    if i < count - 1 {
      RepeatedAt(body, s, count - 1, i, j);
    } else {
      assert Repeated(body, s, count)[|rest| + j] == i * s + body[j];
    }
  }

  lemma {:induction false} NestLength(b: seq<nat>, s: seq<int>)
    requires |b| == |s| && Bounds(b)
    ensures |NestOffsets(b, s)| == Product(b) >= 1
  {
    if b != [] {
      var (b', s') := (b[..|b| - 1], s[..|s| - 1]);
      NestLength(b', s');
      RepeatedAt(NestOffsets(b', s'), s[|s| - 1], b[|b| - 1], 0, 0);
      MulStep(0, Product(b'), b[|b| - 1]);
    }
  }

  /** The nest accesses, at its `Rank(idx)`-th access, the offset of `idx`. */
  lemma {:induction false} NestOffsetAtRank(b: seq<nat>, s: seq<int>, idx: seq<nat>)
    requires |b| == |s| && Bounds(b) && Within(idx, b)
    ensures Rank(idx, b) < Product(b) == |NestOffsets(b, s)|
    ensures NestOffsets(b, s)[Rank(idx, b)] == Offset(idx, s)
  {
    NestLength(b, s);
    if b != [] {
      var k := |b| - 1;
      NestLength(b[..k], s[..k]);
      NestOffsetAtRank(b[..k], s[..k], idx[..k]);
      RepeatedAt(NestOffsets(b[..k], s[..k]), s[k], b[k], idx[k], Rank(idx[..k], b[..k]));
    }
  }

  // ----- The address generator

  /** The state of a running stream: its pointer and its loop counters. */
  datatype Stream = Stream(ptr: nat, idx: seq<nat>)

  /** The span of the loops below loop `k`: what one pass through them adds to the pointer. */
  ghost function Span(b: seq<nat>, s: seq<int>, k: nat): (r: int)
    requires k <= |b| == |s|
  {
    if k == 0 then 0 else Span(b, s, k - 1) + s[k - 1] * (b[k - 1] as int - 1)
  }

  /** The stride registers hold the delta strides, the bound registers the inclusive bounds. */
  ghost predicate Programmed(bounds: seq<nat>, strides: seq<nat>, b: seq<nat>, s: seq<int>) {
    && |b| == |s| <= |bounds| == |strides|
    && (forall k :: 0 <= k < |b| ==> bounds[k] == Sub(b[k], 1))
    && (forall k :: 0 <= k < |b| ==> strides[k] == Sub(s[k], Span(b, s, k)))
  }

  /** Loops below `k` are in their last iteration. */
  ghost predicate Wrapping(idx: seq<nat>, b: seq<nat>, k: nat)
    requires |idx| == |b| && k <= |b|
  {
    forall j :: 0 <= j < k ==> idx[j] + 1 == b[j]
  }

  ghost function Bumped(idx: seq<nat>, k: nat): (r: seq<nat>)
    requires k < |idx|
  {
    seq(|idx|, j requires 0 <= j < |idx| => if j < k then 0 else if j == k then idx[k] + 1 else idx[j])
  }

  lemma {:induction false} OffsetOfWrapping(idx: seq<nat>, b: seq<nat>, s: seq<int>, k: nat)
    requires |idx| == |b| == |s| && k <= |b| && Wrapping(idx, b, k)
    ensures Offset(idx[..k], s[..k]) == Span(b, s, k)
    ensures Rank(idx[..k], b[..k]) + 1 == Product(b[..k])
  {
    if k > 0 {
      OffsetOfWrapping(idx, b, s, k - 1);
      assert idx[..k][..k - 1] == idx[..k - 1] && b[..k][..k - 1] == b[..k - 1] && s[..k][..k - 1] == s[..k - 1];
      var p := Product(b[..k - 1]);
      assert (p - 1) + (b[k - 1] - 1) * p + 1 == p * b[k - 1];
    }
  }

  lemma {:induction false} OffsetOfZeros(idx: seq<nat>, b: seq<nat>, s: seq<int>)
    requires |idx| == |b| == |s| && forall j :: 0 <= j < |idx| ==> idx[j] == 0
    ensures Offset(idx, s) == 0 && Rank(idx, b) == 0
  {
    if idx != [] {
      var k := |idx| - 1;
      OffsetOfZeros(idx[..k], b[..k], s[..k]);
    }
  }

  /** Bumping the lowest loop that does not wrap moves on by one access and by its delta stride. */
  lemma {:induction false} BumpedStep(idx: seq<nat>, b: seq<nat>, s: seq<int>, k: nat, d: nat)
    requires |idx| == |b| == |s| && k < d <= |b| && Wrapping(idx, b, k)
    ensures Rank(Bumped(idx, k)[..d], b[..d]) == Rank(idx[..d], b[..d]) + 1
    ensures Offset(Bumped(idx, k)[..d], s[..d]) == Offset(idx[..d], s[..d]) + s[k] - Span(b, s, k)
  {
    var (u, v) := (idx[..d], Bumped(idx, k)[..d]);
    var (u', v') := (idx[..d - 1], Bumped(idx, k)[..d - 1]);
    assert u[..d - 1] == u' && v[..d - 1] == v';
    assert b[..d][..d - 1] == b[..d - 1] && s[..d][..d - 1] == s[..d - 1];
    assert Rank(u, b[..d]) == Rank(u', b[..d - 1]) + idx[d - 1] * Product(b[..d - 1]);
    assert Rank(v, b[..d]) == Rank(v', b[..d - 1]) + v[d - 1] * Product(b[..d - 1]);
    assert Offset(u, s[..d]) == Offset(u', s[..d - 1]) + idx[d - 1] * s[d - 1];
    assert Offset(v, s[..d]) == Offset(v', s[..d - 1]) + v[d - 1] * s[d - 1];
    if d == k + 1 {
      OffsetOfWrapping(idx, b, s, k);
      OffsetOfZeros(v', b[..k], s[..k]);
      MulSucc(idx[k], Product(b[..k]));
      MulSucc(idx[k], s[k]);
    } else {
      BumpedStep(idx, b, s, k, d - 1);
    }
  }

  lemma MulSucc(i: int, p: int)
    ensures (i + 1) * p == i * p + p
  {
  }

  /** `i` full passes of length `p` and `r` more are the last of `n` passes only at the very end. */
  lemma LastOfPasses(r: nat, p: nat, i: nat, n: nat)
    requires r < p && i < n
    ensures r + i * p < p * n
    ensures r + i * p + 1 == p * n <==> r + 1 == p && i + 1 == n
  {
    MulStep(i, p, n);
    if i + 1 < n {
      MulStep(i + 1, p, n);
      MulSucc(i, p);
    }
  }

  /** The counters of the last access are the only ones that all wrap. */
  lemma WrappingIsLast(idx: seq<nat>, b: seq<nat>)
    requires Within(idx, b)
    ensures Wrapping(idx, b, |b|) <==> Rank(idx, b) + 1 == Product(b)
  {
    WrappingIsLastUpTo(idx, b, |b|);
    assert idx[..|b|] == idx && b[..|b|] == b;
  }

  lemma {:induction false} WrappingIsLastUpTo(idx: seq<nat>, b: seq<nat>, k: nat)
    requires Within(idx, b) && k <= |b|
    ensures Rank(idx[..k], b[..k]) < Product(b[..k])
    ensures Wrapping(idx, b, k) <==> Rank(idx[..k], b[..k]) + 1 == Product(b[..k])
  {
    if k > 0 {
      WrappingIsLastUpTo(idx, b, k - 1);
      assert idx[..k][..k - 1] == idx[..k - 1] && b[..k][..k - 1] == b[..k - 1];
      LastOfPasses(Rank(idx[..k - 1], b[..k - 1]), Product(b[..k - 1]), idx[k - 1], b[k - 1]);
    }
  }

  ghost function Modulo(x: int): (r: nat) {
    x % WORD
  }

  lemma BoundRegister(b: nat)
    requires 1 <= b <= WORD
    ensures Sub(b, 1) == b - 1
  {
  }

  lemma AddStride(ptr: nat, stride: nat, x: int, s: int, span: int)
    requires ptr == Modulo(x) && stride == Sub(s, span)
    ensures (ptr + stride) % WORD == Modulo(x + s - span)
  {
  }

  /** One step of the address generator: add the stride of the lowest loop that does not wrap. */
  method Advance(st: Stream, bounds: seq<nat>, strides: seq<nat>, ghost base: nat, ghost b: seq<nat>, ghost s: seq<int>)
    returns (last: bool, st': Stream)
    requires Bounds(b) && Programmed(bounds, strides, b, s)
    requires Within(st.idx, b) && st.ptr == Modulo(base + Offset(st.idx, s))
    ensures last <==> Rank(st.idx, b) + 1 == Product(b)
    ensures last ==> st' == st
    ensures !last ==> Within(st'.idx, b) && Rank(st'.idx, b) == Rank(st.idx, b) + 1
    ensures !last ==> st'.ptr == Modulo(base + Offset(st'.idx, s))
  {
    hide Offset, Rank, Product, Span, Sub, Modulo;
    var (idx, k) := (st.idx, 0);
    forall j | 0 <= j < |b| ensures bounds[j] + 1 == b[j] { BoundRegister(b[j]); }
    while k < |idx| && idx[k] == bounds[k]
      invariant 0 <= k <= |idx|
      invariant Wrapping(idx, b, k)
    {
      k := k + 1;
    }
    WrappingIsLast(idx, b);
    last := k == |idx|;
    if last {
      return last, st;
    }
    BumpedStep(idx, b, s, k, |b|);
    st' := Stream((st.ptr + strides[k]) % WORD,
                  seq(|idx|, j requires 0 <= j < |idx| => if j < k then 0 else if j == k then idx[k] + 1 else idx[j]));
    assert idx[..|b|] == idx && b[..|b|] == b && s[..|b|] == s && Bumped(idx, k)[..|b|] == st'.idx;
    AddStride(st.ptr, strides[k], base + Offset(idx, s), s[k], Span(b, s, k));
  }

  /** A whole stream: the generator visits exactly the addresses of the affine loop nest, in order. */
  method Generate(base: nat, bounds: seq<nat>, strides: seq<nat>, dims: nat, ghost b: seq<nat>, ghost s: seq<int>)
    returns (addrs: seq<nat>)
    requires |b| == dims && Bounds(b) && Programmed(bounds, strides, b, s)
    ensures |addrs| == |NestOffsets(b, s)|
    ensures forall q :: 0 <= q < |addrs| ==> addrs[q] == Modulo(base + NestOffsets(b, s)[q])
  {
    hide Offset, Rank, Product, Span, NestOffsets;
    var st := Stream(base % WORD, seq(dims, _ => 0));
    OffsetOfZeros(st.idx, b, s);
    NestOffsetAtRank(b, s, st.idx);
    addrs := [st.ptr];
    var last := false;
    while !last
      invariant Within(st.idx, b)
      invariant |addrs| == Rank(st.idx, b) + 1 <= Product(b)
      invariant last ==> |addrs| == Product(b)
      invariant st.ptr == Modulo(base + Offset(st.idx, s))
      invariant forall q :: 0 <= q < |addrs| ==> addrs[q] == Modulo(base + NestOffsets(b, s)[q])
      decreases Product(b) - |addrs|, !last
    {
      last, st := Advance(st, bounds, strides, base, b, s);
      NestOffsetAtRank(b, s, st.idx);
      if !last {
        addrs := addrs + [st.ptr];
      }
    }
  }

  // ----- The configuration functions

  lemma ModuloOfSum(x: int, y: int, q: int)
    requires x == y + WORD * q
    ensures x % WORD == y % WORD
  {
  }

  lemma ModuloOfProduct(s: int, d: int)
    ensures exists q :: s * d == s * (d % WORD) + WORD * q
  {
    var k := d / WORD;
    assert d == WORD * k + d % WORD;
    assert s * d == s * (d % WORD) + WORD * (s * k) by {
      assert s * (WORD * k + d % WORD) == s * (WORD * k) + s * (d % WORD);
      assert s * (WORD * k) == WORD * (s * k);
    }
  }

  /** The running accumulator of the headers is the span of the loops below, modulo the word size. */
  lemma {:induction false} Accumulate(b: seq<nat>, s: seq<int>, k: nat, a: nat)
    requires |b| == |s| && k < |b| && a == Modulo(Span(b, s, k))
    ensures (a + s[k] * Sub(b[k], 1)) % WORD == Modulo(Span(b, s, k + 1))
  {
    var d := b[k] as int - 1;
    ModuloOfProduct(s[k], d);
    var q :| s[k] * d == s[k] * (d % WORD) + WORD * q;
    var m := Span(b, s, k);
    ModuloOfSum(Span(b, s, k + 1), a + s[k] * (d % WORD), m / WORD + q);
  }

  lemma DeltaStride(t: int, span: int)
    ensures Sub(t, Modulo(span)) == Sub(t, span)
  {
    ModuloOfSum(t - span % WORD, t - span, span / WORD);
  }

  lemma SpanOfNothing(b: seq<nat>, s: seq<int>)
    requires |b| == |s|
    ensures Modulo(Span(b, s, 0)) == 0
  {
  }

  /** The bound and stride registers of one data mover. */
  class SsrConfig {
    var bounds: seq<nat>
    var strides: seq<nat>

    ghost predicate Valid()
      reads this
    {
      |bounds| == |strides| == 4
    }

    /** `snrt_ssr_loop_1d`. */
    method Loop1d(b0: nat, s0: nat)
      requires Valid()
      modifies this
      ensures Valid() && Programmed(bounds, strides, [b0], [s0])
      ensures bounds[1..] == old(bounds)[1..] && strides[1..] == old(strides)[1..]
    {
      hide Sub, Modulo, Span;
      ghost var b: seq<nat>, s: seq<int> := [b0], [s0];
      SpanOfNothing(b, s);
      bounds := bounds[0 := Sub(b0, 1)];
      var a := 0;
      strides := strides[0 := Sub(s0, a)];
      DeltaStride(s0, Span(b, s, 0));
      a := (a + s0 * Sub(b0, 1)) % WORD;
    }

    /** `snrt_ssr_loop_2d`. */
    method Loop2d(b0: nat, b1: nat, s0: nat, s1: nat)
      requires Valid()
      modifies this
      ensures Valid() && Programmed(bounds, strides, [b0, b1], [s0, s1])
      ensures bounds[2..] == old(bounds)[2..] && strides[2..] == old(strides)[2..]
    {
      hide Sub, Modulo, Span;
      ghost var b: seq<nat>, s: seq<int> := [b0, b1], [s0, s1];
      SpanOfNothing(b, s);
      bounds := bounds[0 := Sub(b0, 1)];
      bounds := bounds[1 := Sub(b1, 1)];
      var a := 0;
      strides := strides[0 := Sub(s0, a)];
      DeltaStride(s0, Span(b, s, 0));
      Accumulate(b, s, 0, a);
      a := (a + s0 * Sub(b0, 1)) % WORD;
      strides := strides[1 := Sub(s1, a)];
      DeltaStride(s1, Span(b, s, 1));
      a := (a + s1 * Sub(b1, 1)) % WORD;
    }

    /** `snrt_ssr_loop_3d`. */
    method Loop3d(b0: nat, b1: nat, b2: nat, s0: nat, s1: nat, s2: nat)
      requires Valid()
      modifies this
      ensures Valid() && Programmed(bounds, strides, [b0, b1, b2], [s0, s1, s2])
      ensures bounds[3..] == old(bounds)[3..] && strides[3..] == old(strides)[3..]
    {
      hide Sub, Modulo, Span;
      ghost var b: seq<nat>, s: seq<int> := [b0, b1, b2], [s0, s1, s2];
      SpanOfNothing(b, s);
      bounds := bounds[0 := Sub(b0, 1)];
      bounds := bounds[1 := Sub(b1, 1)];
      bounds := bounds[2 := Sub(b2, 1)];
      var a := 0;
      strides := strides[0 := Sub(s0, a)];
      DeltaStride(s0, Span(b, s, 0));
      Accumulate(b, s, 0, a);
      a := (a + s0 * Sub(b0, 1)) % WORD;
      strides := strides[1 := Sub(s1, a)];
      DeltaStride(s1, Span(b, s, 1));
      Accumulate(b, s, 1, a);
      a := (a + s1 * Sub(b1, 1)) % WORD;
      strides := strides[2 := Sub(s2, a)];
      DeltaStride(s2, Span(b, s, 2));
      a := (a + s2 * Sub(b2, 1)) % WORD;
    }

    /** `snrt_ssr_loop_4d`. */
    method Loop4d(b0: nat, b1: nat, b2: nat, b3: nat, s0: nat, s1: nat, s2: nat, s3: nat)
      requires Valid()
      modifies this
      ensures Valid() && Programmed(bounds, strides, [b0, b1, b2, b3], [s0, s1, s2, s3])
    {
      hide Sub, Modulo, Span;
      ghost var b: seq<nat>, s: seq<int> := [b0, b1, b2, b3], [s0, s1, s2, s3];
      SpanOfNothing(b, s);
      bounds := bounds[0 := Sub(b0, 1)];
      bounds := bounds[1 := Sub(b1, 1)];
      bounds := bounds[2 := Sub(b2, 1)];
      bounds := bounds[3 := Sub(b3, 1)];
      var a := 0;
      strides := strides[0 := Sub(s0, a)];
      DeltaStride(s0, Span(b, s, 0));
      Accumulate(b, s, 0, a);
      a := (a + s0 * Sub(b0, 1)) % WORD;
      strides := strides[1 := Sub(s1, a)];
      DeltaStride(s1, Span(b, s, 1));
      Accumulate(b, s, 1, a);
      a := (a + s1 * Sub(b1, 1)) % WORD;
      strides := strides[2 := Sub(s2, a)];
      DeltaStride(s2, Span(b, s, 2));
      Accumulate(b, s, 2, a);
      a := (a + s2 * Sub(b2, 1)) % WORD;
      strides := strides[3 := Sub(s3, a)];
      DeltaStride(s3, Span(b, s, 3));
      a := (a + s3 * Sub(b3, 1)) % WORD;
    }

    /** `__rt_sssr_bound_stride_1d`. */
    method BoundStride1d(b0: nat, s0: nat)
      requires Valid()
      modifies this
      ensures Valid() && Programmed(bounds, strides, [b0], [s0])
      ensures bounds[1..] == old(bounds)[1..] && strides[1..] == old(strides)[1..]
    {
      hide Sub, Modulo, Span;
      ghost var b: seq<nat>, s: seq<int> := [b0], [s0];
      SpanOfNothing(b, s);
      bounds := bounds[0 := Sub(b0, 1)];
      var a := 0;
      strides := strides[0 := Sub(s0, a)];
      DeltaStride(s0, Span(b, s, 0));
    }

    /** `__rt_sssr_bound_stride_2d`. */
    method BoundStride2d(b0: nat, s0: nat, b1: nat, s1: nat)
      requires Valid()
      modifies this
      ensures Valid() && Programmed(bounds, strides, [b0, b1], [s0, s1])
      ensures bounds[2..] == old(bounds)[2..] && strides[2..] == old(strides)[2..]
    {
      hide Sub, Modulo, Span;
      ghost var b: seq<nat>, s: seq<int> := [b0, b1], [s0, s1];
      SpanOfNothing(b, s);
      bounds := bounds[0 := Sub(b0, 1)];
      bounds := bounds[1 := Sub(b1, 1)];
      var a := 0;
      strides := strides[0 := Sub(s0, a)];
      DeltaStride(s0, Span(b, s, 0));
      Accumulate(b, s, 0, a);
      a := (a + s0 * Sub(b0, 1)) % WORD;
      strides := strides[1 := Sub(s1, a)];
      DeltaStride(s1, Span(b, s, 1));
    }

    /** `__rt_sssr_bound_stride_3d`. */
    method BoundStride3d(b0: nat, s0: nat, b1: nat, s1: nat, b2: nat, s2: nat)
      requires Valid()
      modifies this
      ensures Valid() && Programmed(bounds, strides, [b0, b1, b2], [s0, s1, s2])
      ensures bounds[3..] == old(bounds)[3..] && strides[3..] == old(strides)[3..]
    {
      hide Sub, Modulo, Span;
      ghost var b: seq<nat>, s: seq<int> := [b0, b1, b2], [s0, s1, s2];
      SpanOfNothing(b, s);
      bounds := bounds[0 := Sub(b0, 1)];
      bounds := bounds[1 := Sub(b1, 1)];
      bounds := bounds[2 := Sub(b2, 1)];
      var a := 0;
      strides := strides[0 := Sub(s0, a)];
      DeltaStride(s0, Span(b, s, 0));
      Accumulate(b, s, 0, a);
      a := (a + s0 * Sub(b0, 1)) % WORD;
      strides := strides[1 := Sub(s1, a)];
      DeltaStride(s1, Span(b, s, 1));
      Accumulate(b, s, 1, a);
      a := (a + s1 * Sub(b1, 1)) % WORD;
      strides := strides[2 := Sub(s2, a)];
      DeltaStride(s2, Span(b, s, 2));
    }

    /** `__rt_sssr_bound_stride_4d`. */
    method BoundStride4d(b0: nat, s0: nat, b1: nat, s1: nat, b2: nat, s2: nat, b3: nat, s3: nat)
      requires Valid()
      modifies this
      ensures Valid() && Programmed(bounds, strides, [b0, b1, b2, b3], [s0, s1, s2, s3])
    {
      hide Sub, Modulo, Span;
      ghost var b: seq<nat>, s: seq<int> := [b0, b1, b2, b3], [s0, s1, s2, s3];
      SpanOfNothing(b, s);
      bounds := bounds[0 := Sub(b0, 1)];
      bounds := bounds[1 := Sub(b1, 1)];
      bounds := bounds[2 := Sub(b2, 1)];
      bounds := bounds[3 := Sub(b3, 1)];
      var a := 0;
      strides := strides[0 := Sub(s0, a)];
      DeltaStride(s0, Span(b, s, 0));
      Accumulate(b, s, 0, a);
      a := (a + s0 * Sub(b0, 1)) % WORD;
      strides := strides[1 := Sub(s1, a)];
      DeltaStride(s1, Span(b, s, 1));
      Accumulate(b, s, 1, a);
      a := (a + s1 * Sub(b1, 1)) % WORD;
      strides := strides[2 := Sub(s2, a)];
      DeltaStride(s2, Span(b, s, 2));
      Accumulate(b, s, 2, a);
      a := (a + s2 * Sub(b2, 1)) % WORD;
      strides := strides[3 := Sub(s3, a)];
      DeltaStride(s3, Span(b, s, 3));
    }
  }
}
