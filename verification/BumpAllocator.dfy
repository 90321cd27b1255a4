/**
 The replicated L1 bump allocator.  Every core of a cluster owns a copy of the allocator and makes
 the same calls; the copies stay equal because a call's effect does not depend on the core.
 Addresses are machine words, and every sum and product wraps around.
 */
module BumpAllocator {
  import opened Wrappers
  import opened Arithmetic

  /** A call for one block for the cluster, or for one block for each compute core. */
  datatype Call = Call(size: nat, alignment: nat, perCore: bool)

  predicate IsCall(c: Call) {
    c.size < WORD && 0 < c.alignment < WORD
  }

  function RoundDown(x: nat, n: nat): (r: nat)
    requires n > 0
  {
    x / n * n
  }

  function AlignUp(addr: nat, alignment: nat): (a: nat)
    requires 0 < alignment
    ensures a < WORD
  {
    RoundDown((addr + alignment - 1) % WORD, alignment) % WORD
  }

  /** The bytes of `n` blocks. */
  function Scaled(size: nat, n: nat): (b: nat) {
    size * n
  }

  /** The number of blocks of a call. */
  function Blocks(c: Call, cores: nat): (n: nat) {
    if c.perCore then cores else 1
  }

  /** The start of the region that a call made at `next` reserves. */
  function Start(next: nat, c: Call): (a: nat)
    requires IsCall(c)
  {
    AlignUp(next, c.alignment)
  }

  function Next(next: nat, c: Call, cores: nat): (a: nat)
    requires IsCall(c)
  {
    (Start(next, c) + Scaled(c.size, Blocks(c, cores)) % WORD) % WORD
  }

  /** The block of compute core `core`; every core gets the same block from a call for the cluster. */
  function Pointer(next: nat, c: Call, core: nat): (p: nat)
    requires IsCall(c)
  {
    (Start(next, c) + if c.perCore then Scaled(c.size, core) % WORD else 0) % WORD
  }

  class Allocator {
    var base: nat
    var end: nat
    var next: nat

    ghost predicate Valid()
      reads this
    {
      base < WORD && end < WORD && next < WORD
    }

    constructor (start: nat, heapEnd: nat)
      requires start < WORD && heapEnd < WORD
      ensures Valid() && base == AlignUp(start, 8) && end == heapEnd && next == base
    {
      base := AlignUp(start, 8);
      end := heapEnd;
      next := AlignUp(start, 8);
    }

    /** A call by core `core`; `None` is the trap of the bounds check. */
    method Alloc(c: Call, core: nat, cores: nat) returns (p: Option<nat>)
      requires Valid() && IsCall(c)
      modifies this`next
      ensures Valid() && next == Next(old(next), c, cores)
      ensures p == if next > end then None else Some(Pointer(old(next), c, core))
      ensures var start := AlignUp(old(next), c.alignment);
        && next == (start + if c.perCore then cores * c.size else c.size) % WORD
        && (p.None? <==> next > end)
        && (p.Some? ==> p.value == (start + if c.perCore then core * c.size else 0) % WORD)
    {
      hide AlignUp, Scaled, Next, Pointer;
      BytesReserved(next, c, core, cores);
      CallMade(next, c, core, cores);
      next := AlignUp(next, c.alignment);
      var ret := next;
      if c.perCore {
        ret := (ret + Scaled(c.size, core) % WORD) % WORD;
        next := (next + Scaled(c.size, cores) % WORD) % WORD;
      } else {
        next := (next + c.size) % WORD;
      }
      if next > end {
        return None;
      }
      return Some(ret);
    }
  }

  lemma {:induction false} CallMade(next: nat, c: Call, core: nat, cores: nat)
    requires IsCall(c)
    ensures var start := AlignUp(next, c.alignment);
      && Next(next, c, cores) == (start + if c.perCore then Scaled(c.size, cores) % WORD else c.size) % WORD < WORD
      && Pointer(next, c, core) == if c.perCore then (start + Scaled(c.size, core) % WORD) % WORD else start
  {
    hide AlignUp, Scaled;
    ScaledSteps(c.size, core, cores);
  }

  // ----- Arithmetic

  lemma {:induction false} ScaledSteps(size: nat, n: nat, m: nat)
    ensures Scaled(size, 0) == 0 && Scaled(size, 1) == size && Scaled(size, n + 1) == Scaled(size, n) + size
    ensures n <= m ==> Scaled(size, n) <= Scaled(size, m)
  {
    if n <= m {
      assert size * m == size * n + size * (m - n);
    }
  }

  lemma {:induction false} RoundsDown(x: nat, n: nat)
    requires n > 0
    ensures RoundDown(x, n) <= x < RoundDown(x, n) + n && RoundDown(x, n) % n == 0
  {
    assert x == x / n * n + x % n;
    ModOf(x / n, n, 0);
    assert x / n * n + 0 == x / n * n;
  }

  /** Alignment gives the least multiple at or above the address exactly when no sum wraps around. */
  lemma {:induction false} AlignUpIff(addr: nat, alignment: nat)
    requires addr < WORD && 0 < alignment < WORD
    ensures AlignUp(addr, alignment) >= addr <==> addr + alignment - 1 < WORD
    ensures addr + alignment - 1 < WORD ==> AlignUp(addr, alignment) < addr + alignment
    ensures AlignUp(addr, alignment) % alignment == 0
  {
    hide RoundDown;
    var x := (addr + alignment - 1) % WORD;
    RoundsDown(x, alignment);
    assert RoundDown(x, alignment) % WORD == RoundDown(x, alignment);
  }

  // ----- One call

  /** The region that a call reserves, without wrap-around. */
  function Extent(next: nat, c: Call, cores: nat): (a: nat)
    requires IsCall(c)
  {
    Start(next, c) + Scaled(c.size, Blocks(c, cores))
  }

  /** No sum or product of the call wraps around. */
  predicate Exact(next: nat, c: Call, cores: nat)
    requires IsCall(c)
  {
    next + c.alignment - 1 < WORD && Extent(next, c, cores) < WORD
  }

  /** A call that does not trap reserves a region inside the free part of the heap exactly when nothing wraps around. */
  lemma {:induction false} InHeapIff(next: nat, end: nat, c: Call, cores: nat)
    requires next < WORD && end < WORD && IsCall(c) && Next(next, c, cores) <= end
    ensures next <= Start(next, c) && Extent(next, c, cores) <= end <==> Exact(next, c, cores)
    ensures Exact(next, c, cores) ==> Next(next, c, cores) == Extent(next, c, cores)
    ensures Start(next, c) % c.alignment == 0
  {
    hide AlignUp, Scaled;
    AlignUpIff(next, c.alignment);
  }

  lemma {:induction false} BytesReserved(next: nat, c: Call, core: nat, cores: nat)
    requires IsCall(c)
    ensures Next(next, c, cores) == (AlignUp(next, c.alignment) + if c.perCore then cores * c.size else c.size) % WORD
    ensures Pointer(next, c, core) == (AlignUp(next, c.alignment) + if c.perCore then core * c.size else 0) % WORD
  {
    hide AlignUp, Scaled;
    ScaledIs(c.size, cores);
    ScaledIs(c.size, core);
    ScaledSteps(c.size, 0, 0);
    ModOfSum(AlignUp(next, c.alignment), Scaled(c.size, Blocks(c, cores)));
    ModOfSum(AlignUp(next, c.alignment), Scaled(c.size, core));
  }

  lemma {:induction false} ModOfSum(a: nat, b: nat)
    ensures (a + b % WORD) % WORD == (a + b) % WORD
  {}

  /** A call whose sums do not wrap around advances the allocator from the aligned start by exactly the
      bytes of its blocks, and is trapped exactly when these do not fit below the end of the heap. */
  lemma {:induction false} AdvancesByBlocks(next: nat, end: nat, c: Call, cores: nat)
    requires next < WORD && end < WORD && IsCall(c)
    ensures var (start, bytes) := (AlignUp(next, c.alignment), if c.perCore then cores * c.size else c.size);
      && (Exact(next, c, cores) <==> next + c.alignment - 1 < WORD && start + bytes < WORD)
      && (Exact(next, c, cores) ==>
            Next(next, c, cores) == start + bytes && (Next(next, c, cores) > end <==> start + bytes > end))
  {
    hide AlignUp, Scaled, Next;
    BytesReserved(next, c, 0, cores);
    ScaledIs(c.size, cores);
    ScaledSteps(c.size, 0, 0);
  }

  lemma {:induction false} ScaledIs(size: nat, n: nat)
    ensures Scaled(size, n) == n * size
  {}

  // ----- Runs

  /** Where the allocator stands before call `i`. */
  function Position(base: nat, calls: seq<Call>, cores: nat, i: nat): (a: nat)
    requires i <= |calls| && forall k :: 0 <= k < |calls| ==> IsCall(calls[k])
  {
    if i == 0 then base else Next(Position(base, calls, cores, i - 1), calls[i - 1], cores)
  }

  ghost predicate AllCalls(calls: seq<Call>) {
    forall k :: 0 <= k < |calls| ==> IsCall(calls[k])
  }

  ghost predicate Succeeds(base: nat, end: nat, calls: seq<Call>, cores: nat, k: nat)
    requires AllCalls(calls) && k < |calls|
  {
    Exact(Position(base, calls, cores, k), calls[k], cores) && Position(base, calls, cores, k + 1) <= end
  }

  /** A sequence of calls none of which traps or wraps around. */
  ghost predicate Run(base: nat, end: nat, calls: seq<Call>, cores: nat) {
    && base < WORD && end < WORD && AllCalls(calls)
    && forall k :: 0 <= k < |calls| ==> Succeeds(base, end, calls, cores, k)
  }

  function BlockAt(base: nat, calls: seq<Call>, cores: nat, i: nat, core: nat): (p: nat)
    requires i < |calls| && forall k :: 0 <= k < |calls| ==> IsCall(calls[k])
  {
    Pointer(Position(base, calls, cores, i), calls[i], core)
  }

  lemma {:induction false} PositionIsWord(base: nat, calls: seq<Call>, cores: nat, i: nat)
    requires base < WORD && AllCalls(calls) && i <= |calls|
    ensures Position(base, calls, cores, i) < WORD
  {}

  /** What call `i` does to the allocator. */
  lemma {:induction false} CallAdvances(base: nat, end: nat, calls: seq<Call>, cores: nat, i: nat)
    requires Run(base, end, calls, cores) && i < |calls|
    ensures var (next, c) := (Position(base, calls, cores, i), calls[i]);
      && next <= Start(next, c) && Start(next, c) % c.alignment == 0
      && Position(base, calls, cores, i + 1) == Extent(next, c, cores) <= end < WORD
  {
    hide AlignUp, Start;
    var next := Position(base, calls, cores, i);
    assert Succeeds(base, end, calls, cores, i);
    PositionIsWord(base, calls, cores, i);
    InHeapIff(next, end, calls[i], cores);
  }

  lemma {:induction false} PositionsGrow(base: nat, end: nat, calls: seq<Call>, cores: nat, i: nat, j: nat)
    requires Run(base, end, calls, cores) && i <= j <= |calls|
    ensures Position(base, calls, cores, i) <= Position(base, calls, cores, j)
  {
    hide Run, Position, Start;
    if i < j {
      PositionsGrow(base, end, calls, cores, i, j - 1);
      CallAdvances(base, end, calls, cores, j - 1);
    }
  }

  /** A block lies between the allocator's positions before and after its call, at its offset in the region. */
  lemma {:induction false} BlockPlace(base: nat, end: nat, calls: seq<Call>, cores: nat, i: nat, core: nat)
    requires Run(base, end, calls, cores) && i < |calls| && core < cores
    ensures var (p, c) := (BlockAt(base, calls, cores, i, core), calls[i]);
      && Position(base, calls, cores, i) <= p && p + c.size <= Position(base, calls, cores, i + 1)
      && p == Start(Position(base, calls, cores, i), c) + if c.perCore then Scaled(c.size, core) else 0
  {
    hide Run, Position, Start, Scaled;
    CallAdvances(base, end, calls, cores, i);
    ScaledSteps(calls[i].size, core, core);
    ScaledSteps(calls[i].size, core + 1, cores);
  }

  /** Blocks are inside the heap, and a region starts at its alignment. */
  lemma {:induction false} BlocksInHeap(base: nat, end: nat, calls: seq<Call>, cores: nat, i: nat, core: nat)
    requires Run(base, end, calls, cores) && i < |calls| && core < cores
    ensures base <= BlockAt(base, calls, cores, i, core)
    ensures BlockAt(base, calls, cores, i, core) + calls[i].size <= end
    ensures BlockAt(base, calls, cores, i, 0) % calls[i].alignment == 0
  {
    hide Run, Start, Scaled, BlockAt, Extent;
    BlockPlace(base, end, calls, cores, i, core);
    BlockPlace(base, end, calls, cores, i, 0);
    PositionsGrow(base, end, calls, cores, 0, i);
    CallAdvances(base, end, calls, cores, i);
    ScaledSteps(calls[i].size, 0, 0);
  }

  /** Blocks of different calls, and of different cores in one call, do not overlap. */
  lemma {:induction false} BlocksDisjoint(base: nat, end: nat, calls: seq<Call>, cores: nat,
                                          i: nat, core: nat, j: nat, other: nat)
    requires Run(base, end, calls, cores) && i <= j < |calls| && core < cores && other < cores
    requires i < j || (calls[i].perCore && core < other)
    ensures BlockAt(base, calls, cores, i, core) + calls[i].size <= BlockAt(base, calls, cores, j, other)
  {
    hide Run, Start, Scaled, BlockAt, Position;
    BlockPlace(base, end, calls, cores, i, core);
    BlockPlace(base, end, calls, cores, j, other);
    if i < j {
      PositionsGrow(base, end, calls, cores, i + 1, j);
    } else {
      ScaledSteps(calls[i].size, core, core);
      ScaledSteps(calls[i].size, core + 1, other);
    }
  }

  /** No call of the sequence is trapped. */
  ghost predicate NoTrap(base: nat, end: nat, calls: seq<Call>, cores: nat) {
    && base < WORD && end < WORD && AllCalls(calls)
    && forall k :: 0 <= k < |calls| ==> Passes(base, end, calls, cores, k)
  }

  ghost predicate Passes(base: nat, end: nat, calls: seq<Call>, cores: nat, k: nat)
    requires AllCalls(calls) && k < |calls|
  {
    Position(base, calls, cores, k + 1) <= end
  }

  /** Call `k` reserves a region behind the ones before it, and the allocator moves behind the region. */
  ghost predicate InPlace(base: nat, calls: seq<Call>, cores: nat, k: nat)
    requires AllCalls(calls) && k < |calls|
  {
    var next := Position(base, calls, cores, k);
    next <= Start(next, calls[k]) && Extent(next, calls[k], cores) <= Position(base, calls, cores, k + 1)
  }

  /** In a sequence of calls that is not trapped, the regions follow each other inside the heap exactly
      when no call wraps around. */
  lemma {:induction false} RegionsInOrderIff(base: nat, end: nat, calls: seq<Call>, cores: nat)
    requires NoTrap(base, end, calls, cores)
    ensures (forall k :: 0 <= k < |calls| ==> InPlace(base, calls, cores, k)) <==> Run(base, end, calls, cores)
  {
    hide Position, Start, Extent, Next;
    forall k | 0 <= k < |calls|
      ensures InPlace(base, calls, cores, k) <==> Succeeds(base, end, calls, cores, k)
    {
      assert Passes(base, end, calls, cores, k);
      PlaceIff(base, end, calls, cores, k);
    }
  }

  lemma {:induction false} PlaceIff(base: nat, end: nat, calls: seq<Call>, cores: nat, k: nat)
    requires base < WORD && end < WORD && AllCalls(calls) && k < |calls| && Passes(base, end, calls, cores, k)
    ensures InPlace(base, calls, cores, k) <==> Succeeds(base, end, calls, cores, k)
  {
    hide Start, Extent, Next;
    PositionIsWord(base, calls, cores, k);
    InHeapIff(Position(base, calls, cores, k), end, calls[k], cores);
  }

  /** The byte belongs to the `size` bytes that start at `start` in the address space. */
  predicate Covers(start: nat, size: nat, byte: nat) {
    (byte - start) % WORD < size
  }

  /** A call large enough to wrap around is not trapped, and its region overlaps the one before it. */
  lemma {:induction false} WrapExample(calls: seq<Call>, base: nat, end: nat)
    requires calls == [Call(16, 8, false), Call(WORD - 8, 8, false)] && base == 0x1000_0000 && end == 0x1002_0000
    ensures NoTrap(base, end, calls, 8)
    ensures Position(base, calls, 8, 2) < Position(base, calls, 8, 1)
    ensures Covers(BlockAt(base, calls, 8, 0, 0), calls[0].size, base)
    ensures Covers(BlockAt(base, calls, 8, 1, 0), calls[1].size, base)
  {
    assert Position(base, calls, 8, 0) == base;
    assert Position(base, calls, 8, 1) == base + 16;
    assert Position(base, calls, 8, 2) == base + 8;
    assert BlockAt(base, calls, 8, 0, 0) == base && BlockAt(base, calls, 8, 1, 0) == base + 16;
  }

  // ----- Pointer translation

  /** The pointer of core `core` from the pointer of core `self`; the difference wraps around. */
  function CoreLocalPtr(ptr: nat, self: nat, core: nat, size: nat): (p: nat) {
    (ptr + (core - self) % WORD * size % WORD) % WORD
  }

  lemma {:induction false} Congruent(a: int, k: int)
    ensures (a + k * WORD) % WORD == a % WORD
  {}

  /** Translation yields exactly the pointer that the other core was given. */
  lemma {:induction false} TranslationIsPointer(next: nat, c: Call, self: nat, core: nat)
    requires IsCall(c) && c.perCore
    ensures CoreLocalPtr(Pointer(next, c, self), self, core, c.size) == Pointer(next, c, core)
  {
    hide AlignUp, Start;
    var (s, size, d) := (Start(next, c), c.size, core - self);
    var q := d / WORD;
    assert d == q * WORD + d % WORD;
    var (p1, p2) := (size * self, d % WORD * size);
    assert p2 == size * core - p1 - q * size * WORD by {
      Expand(core, self, q, d % WORD, size);
    }
    var (k1, k2, k3) := (p1 / WORD, p2 / WORD, size * core / WORD);
    var ptr := s + p1 % WORD;
    var k4 := ptr / WORD;
    Congruent(ptr % WORD + p2 % WORD, k4 + k1 + k2 + q * size - k3);
    assert ptr % WORD + p2 % WORD + (k4 + k1 + k2 + q * size - k3) * WORD == s + size * core % WORD;
  }

  lemma {:induction false} Expand(core: int, self: int, q: int, r: int, size: int)
    requires core - self == q * WORD + r
    ensures r * size == size * core - size * self - q * size * WORD
  {
    assert (core - self) * size == size * core - size * self;
  }
}
