/**
 The sum reduction among `n` clusters over a binary tree.

 At level l the clusters whose index is an odd multiple of 2^l send their source buffer to
 the destination buffer of the cluster 2^l below; after a global barrier the receivers add
 their destination buffer to their source buffer.  Nothing but a cluster-local barrier
 separates a level's additions from the next level's transfers.

 A run is any sequence of steps of the clusters; a step that is not possible in a state
 leaves the state as it is.  `ordered` restricts the runs to those in which no cluster
 starts a transfer of level l + 1 while another one has not finished its additions of
 level l.

 When `n` is not a power of two, some receiver has no sender.  It adds what its destination
 buffer holds: the data of the level before, or whatever the caller left there.
 */
module TreeReduction {
  import opened Arithmetic

  function Pow2(k: nat): (n: nat)
    ensures n >= 1
  {
    if k == 0 then 1 else 2 * Pow2(k - 1)
  }

  /** The number of levels: the least `l` with `n <= 2^l`. */
  function Levels(n: nat): (l: nat)
    ensures n <= Pow2(l) && (l > 0 ==> Pow2(l - 1) < n)
  {
    if n <= 1 then 0 else 1 + Levels((n + 1) / 2)
  }

  // ----- Buffers

  type Buffer = seq<int>

  function Plus(a: Buffer, b: Buffer): (r: Buffer)
    requires |a| == |b|
    ensures |r| == |a|
  {
    seq(|a|, i requires 0 <= i < |a| => a[i] + b[i])
  }

  /** The additions of a receiver, shared out to its compute cores in equal parts. */
  method AddBuffers(src: array<int>, dst: array<int>, cores: nat)
    requires src != dst && src.Length == dst.Length && cores > 0
    modifies src
    ensures forall i :: 0 <= i < src.Length ==>
      src[i] == old(src[i]) + if i < src.Length / cores * cores then dst[i] else 0
    ensures src.Length % cores == 0 ==> src[..] == Plus(old(src[..]), dst[..])
  {
    var len := src.Length;
    var items: nat := len / cores;
    PartsFit(len, cores, items);
    ghost var reached: nat := 0;
    for core := 0 to cores
      invariant reached == core * items
      invariant forall i :: 0 <= i < len ==> src[i] == old(src[i]) + if i < reached then dst[i] else 0
    {
      PartOfCore(core, cores, items);
      var offset: nat := core * items;
      AddPart(src, dst, offset, items);
      reached := offset + items;
    }
  }

  /** The loop of one compute core. */
  method AddPart(src: array<int>, dst: array<int>, offset: nat, items: nat)
    requires src != dst && src.Length == dst.Length && offset + items <= src.Length
    modifies src
    ensures forall i :: 0 <= i < src.Length ==>
      src[i] == old(src[i]) + if offset <= i < offset + items then dst[i] else 0
  {
    for i := 0 to items
      invariant forall j :: 0 <= j < src.Length ==>
        src[j] == old(src[j]) + if offset <= j < offset + i then dst[j] else 0
    {
      src[offset + i] := src[offset + i] + dst[offset + i];
    }
  }

  lemma PartsFit(len: nat, cores: nat, items: nat)
    requires cores > 0 && items == len / cores
    ensures len / cores * cores == cores * items <= len
    ensures len % cores == 0 ==> cores * items == len
  {
  }

  lemma {:induction false} PartOfCore(core: nat, cores: nat, items: nat)
    requires core < cores
    ensures 0 <= core * items && (core + 1) * items == core * items + items <= cores * items
  {
    var d := cores - core - 1;
    assert cores * items == (core + 1 + d) * items == core * items + items + d * items;
  }

  // ----- The state machine

  /** Before the transfer of a level, in its global barrier, or before its additions. */
  datatype Pc = Sending(level: nat) | Waiting(level: nat) | Adding(level: nat)

  datatype State = State(src: seq<Buffer>, dst: seq<Buffer>, pc: seq<Pc>)

  datatype Action = Send(c: nat) | Release(c: nat) | Add(c: nat)

  /** How many of the phases of all levels a cluster is through. */
  function Phase(pc: Pc): (n: nat) {
    match pc case Sending(l) => 3 * l case Waiting(l) => 3 * l + 1 case Adding(l) => 3 * l + 2
  }

  predicate AllReached(s: State, phase: nat) {
    forall b :: 0 <= b < |s.pc| ==> Phase(s.pc[b]) >= phase
  }

  predicate IsActive(c: nat, level: nat) {
    c % Pow2(level) == 0
  }

  predicate IsSender(c: nat, level: nat) {
    c % Pow2(level + 1) != 0
  }

  predicate Enabled(s: State, levels: nat, ordered: bool, a: Action) {
    match a
    case Send(c) =>
      c < |s.pc| && s.pc[c].Sending? && s.pc[c].level < levels && (ordered ==> AllReached(s, 3 * s.pc[c].level))
    case Release(c) => c < |s.pc| && s.pc[c].Waiting? && AllReached(s, 3 * s.pc[c].level + 1)
    case Add(c) => c < |s.pc| && s.pc[c].Adding?
  }

  predicate WellFormed(s: State) {
    && |s.src| == |s.dst| == |s.pc|
    && forall b, c :: 0 <= b < |s.pc| && 0 <= c < |s.pc| ==> |s.src[b]| == |s.dst[c]| == |s.src[c]|
  }

  function Next(s: State, levels: nat, ordered: bool, a: Action): (s': State)
    requires WellFormed(s)
    ensures WellFormed(s') && |s'.pc| == |s.pc|
  {
    if !Enabled(s, levels, ordered, a) then s
    else
      var l := s.pc[a.c].level;
      match a
      case Send(c) =>
        var s1 := s.(pc := s.pc[c := Waiting(l)]);
        var to := c - Pow2(l);
        if IsActive(c, l) && IsSender(c, l) && to >= 0 then s1.(dst := s.dst[to := s.src[c]]) else s1
      case Release(c) => s.(pc := s.pc[c := Adding(l)])
      case Add(c) =>
        var s1 := s.(pc := s.pc[c := Sending(l + 1)]);
        if IsActive(c, l) && !IsSender(c, l) then s1.(src := s.src[c := Plus(s.src[c], s.dst[c])]) else s1
  }

  function Exec(s: State, levels: nat, ordered: bool, run: seq<Action>): (s': State)
    requires WellFormed(s)
    ensures WellFormed(s') && |s'.pc| == |s.pc|
  {
    if run == [] then s else Next(Exec(s, levels, ordered, run[..|run| - 1]), levels, ordered, run[|run| - 1])
  }

  ghost predicate Initial(s: State, n: nat) {
    WellFormed(s) && |s.pc| == n > 0 && forall c :: 0 <= c < n ==> s.pc[c] == Sending(0)
  }

  predicate Finished(s: State, levels: nat) {
    forall c :: 0 <= c < |s.pc| ==> s.pc[c] == Sending(levels)
  }

  // ----- The sum

  ghost function Sum(src: seq<Buffer>, c: nat, n: nat, i: nat): (r: int)
    requires c + n <= |src| && forall a :: 0 <= a < |src| ==> i < |src[a]|
  {
    if n == 0 then 0 else Sum(src, c, n - 1, i) + src[c + n - 1][i]
  }

  lemma {:induction false} SumSplit(src: seq<Buffer>, c: nat, m: nat, n: nat, i: nat)
    requires c + m + n <= |src| && forall a :: 0 <= a < |src| ==> i < |src[a]|
    ensures Sum(src, c, m + n, i) == Sum(src, c, m, i) + Sum(src, c + m, n, i)
    decreases n
  {
    if n > 0 {
      SumSplit(src, c, m, n - 1, i);
    }
  }

  /** Cluster 0 of `t` holds the element-wise sum of the source buffers of `s`. */
  ghost predicate HoldsSum(t: State, s: State)
    requires WellFormed(s) && WellFormed(t) && |t.pc| == |s.pc| > 0
  {
    |t.src[0]| == |s.src[0]| && forall i :: 0 <= i < |s.src[0]| ==> t.src[0][i] == Sum(s.src, 0, |s.src|, i)
  }

  // ----- What the tree computes

  /** The source buffer of cluster `c` before level `l`, when each level ends before the next begins. */
  ghost function Held(s: State, c: nat, l: nat): (r: Buffer)
    requires WellFormed(s) && c < |s.pc|
    ensures |r| == |s.src[c]|
    decreases l, 0
  {
    if l == 0 then s.src[c] else Plus(Held(s, c, l - 1), Received(s, c, l - 1))
  }

  /** The destination buffer that cluster `c` adds at level `l`: its partner's data, or what was there before. */
  ghost function Received(s: State, c: nat, l: nat): (r: Buffer)
    requires WellFormed(s) && c < |s.pc|
    ensures |r| == |s.src[c]|
    decreases l, 1
  {
    if c + Pow2(l) < |s.pc| then Held(s, c + Pow2(l), l)
    else if l == 0 then s.dst[c]
    else Received(s, c, l - 1)
  }

  /** The destination buffer of cluster `c` before the transfers of level `l`. */
  ghost function Stale(s: State, c: nat, l: nat): (r: Buffer)
    requires WellFormed(s) && c < |s.pc|
    ensures |r| == |s.src[c]|
  {
    if l == 0 then s.dst[c] else Received(s, c, l - 1)
  }

  lemma {:induction false} ReceivedCases(s: State, c: nat, l: nat)
    requires WellFormed(s) && c < |s.pc|
    ensures Received(s, c, l) == if c + Pow2(l) < |s.pc| then Held(s, c + Pow2(l), l) else Stale(s, c, l)
    ensures Stale(s, c, l + 1) == Received(s, c, l)
    ensures Held(s, c, l + 1) == Plus(Held(s, c, l), Received(s, c, l))
    ensures Held(s, c, 0) == s.src[c] && Stale(s, c, 0) == s.dst[c]
  {}

  /** A subtree inside the communicator is summed up. */
  lemma {:induction false} HeldIsSum(s: State, c: nat, l: nat, i: nat)
    requires WellFormed(s) && c + Pow2(l) <= |s.pc| && i < |s.src[c]|
    ensures Held(s, c, l)[i] == Sum(s.src, c, Pow2(l), i)
    decreases l
  {
    hide Held, Received, Sum, Pow2;
    if l == 0 {
      HeldAtFirst(s, c, i);
    } else {
      var h := Pow2(l - 1);
      Pow2Step(l - 1);
      ReceivedCases(s, c, l - 1);
      HeldIsSum(s, c, l - 1, i);
      HeldIsSum(s, c + h, l - 1, i);
      SumSplit(s.src, c, h, h, i);
    }
  }

  lemma Pow2Step(l: nat)
    ensures Pow2(0) == 1 && Pow2(l + 1) == Pow2(l) + Pow2(l)
  {
  }

  lemma {:induction false} HeldAtFirst(s: State, c: nat, i: nat)
    requires WellFormed(s) && c < |s.pc| && i < |s.src[c]|
    ensures Pow2(0) == 1 && Held(s, c, 0)[i] == Sum(s.src, c, 1, i)
  {
    assert Sum(s.src, c, 1, i) == Sum(s.src, c, 0, i) + s.src[c][i];
  }

  // ----- Indices of the tree

  /** A multiple of `m` is an even or an odd one. */
  lemma {:induction false} EvenOrOdd(c: nat, m: nat)
    requires m > 0
    ensures c % (2 * m) == 0 ==> c % m == 0 && (c + m) % m == 0 && (c + m) % (2 * m) == m
    ensures c % m == 0 && c % (2 * m) != 0 ==> c >= m && (c - m) % (2 * m) == 0
  {
    Twofold(c, m, 2 * m);
  }

  lemma {:induction false} Twofold(c: nat, m: nat, d: nat)
    requires m > 0 && d == 2 * m
    ensures c % d == 0 ==> c % m == 0 && (c + m) % m == 0 && (c + m) % d == m
    ensures c % m == 0 && c % d != 0 ==> c >= m && (c - m) % d == 0
  {
    Division(c, d);
    if c % d == 0 {
      EvenMultiple(c, m, d, c / d);
    } else if c % m == 0 {
      OddMultiple(c, m, d, c / d, c % d);
    }
  }

  lemma {:induction false} Division(c: nat, d: nat)
    requires d > 0
    ensures c == c / d * d + c % d && c % d < d && c / d >= 0
  {}

  lemma {:induction false} Doubled(q: nat, m: nat, d: nat)
    requires d == 2 * m
    ensures q * d == (2 * q) * m >= 0 && (2 * q + 1) * m == q * d + m
  {}

  lemma {:induction false} EvenMultiple(c: nat, m: nat, d: nat, q: nat)
    requires m > 0 && d == 2 * m && c == q * d
    ensures c % m == 0 && (c + m) % m == 0 && (c + m) % d == m
  {
    Doubled(q, m, d);
    DivModUnique(c, m, 2 * q, 0);
    DivModUnique(c + m, m, 2 * q + 1, 0);
    DivModUnique(c + m, d, q, m);
  }

  lemma {:induction false} OddMultiple(c: nat, m: nat, d: nat, q: nat, h: nat)
    requires m > 0 && d == 2 * m && c == q * d + h && 0 < h < d && c % m == 0
    ensures c >= m && (c - m) % d == 0
  {
    Doubled(q, m, d);
    if h < m {
      DivModUnique(c, m, 2 * q, h);
    } else {
      DivModUnique(c, m, 2 * q + 1, h - m);
      DivModUnique(c - m, d, q, 0);
    }
  }

  lemma {:induction false} Multiple(c: nat, m: nat, n: nat)
    requires m > 0 && n % m == 0 && c % m == 0 && c < n
    ensures c + m <= n
  {
    var (q, k) := (c / m, n / m);
    assert c == m * q && n == m * k;
    assert q >= k ==> m * q >= m * k;
    assert q + 1 <= k ==> m * (q + 1) <= m * k;
  }

  lemma {:induction false} Pow2Divides(l: nat, k: nat)
    requires l <= k
    ensures Pow2(k) % Pow2(l) == 0
    decreases k
  {
    if l == k {
      DivModUnique(Pow2(k), Pow2(l), 1, 0);
    } else {
      Pow2Divides(l, k - 1);
      var q := Pow2(k - 1) / Pow2(l);
      assert Pow2(k - 1) == Pow2(l) * q;
      assert Pow2(k) == (2 * q) * Pow2(l);
      DivModUnique(Pow2(k), Pow2(l), 2 * q, 0);
    }
  }

  /** The subtree of an active cluster lies inside the communicator. */
  lemma {:induction false} ActiveFits(c: nat, l: nat, levels: nat)
    requires c < Pow2(levels) && l <= levels && IsActive(c, l)
    ensures c + Pow2(l) <= Pow2(levels)
  {
    Pow2Divides(l, levels);
    Multiple(c, Pow2(l), Pow2(levels));
  }

  predicate Receives(c: nat, l: nat) {
    IsActive(c, l) && !IsSender(c, l)
  }

  /** A receiver's partner is an active sender of the communicator. */
  lemma {:induction false} ReceiverFits(c: nat, l: nat, levels: nat)
    requires c < Pow2(levels) && l < levels && c % Pow2(l + 1) == 0
    ensures Receives(c, l) && c + 2 * Pow2(l) <= Pow2(levels)
    ensures IsActive(c + Pow2(l), l) && IsSender(c + Pow2(l), l)
  {
    EvenOrOdd(c, Pow2(l));
    ActiveFits(c, l + 1, levels);
  }

  /** A receiver's partner is an active sender, if it exists. */
  lemma {:induction false} ReceiverPartner(r: nat, l: nat)
    requires Receives(r, l) || r % Pow2(l + 1) == 0
    ensures Receives(r, l) && IsActive(r + Pow2(l), l) && IsSender(r + Pow2(l), l)
  {
    EvenOrOdd(r, Pow2(l));
  }

  /** A cluster that is active at a level received at the level below. */
  lemma {:induction false} ActiveReceived(c: nat, l: nat)
    requires IsActive(c, l + 1)
    ensures Receives(c, l)
  {
    EvenOrOdd(c, Pow2(l));
  }

  lemma {:induction false} SenderTarget(c: nat, l: nat)
    requires IsActive(c, l) && IsSender(c, l)
    ensures c >= Pow2(l) && (c - Pow2(l)) % Pow2(l + 1) == 0
  {
    EvenOrOdd(c, Pow2(l));
  }

  // ----- The invariant of ordered runs

  /** A phase that every other cluster has reached when one cluster is at `pc`. */
  function Floor(pc: Pc): (n: int) {
    match pc case Sending(l) => 3 * l - 2 case Waiting(l) => 3 * l case Adding(l) => 3 * l + 1
  }

  ghost predicate Gates(s: State, levels: nat) {
    && (forall c :: 0 <= c < |s.pc| ==> s.pc[c].level < levels || s.pc[c] == Sending(levels))
    && (forall b, c :: 0 <= b < |s.pc| && 0 <= c < |s.pc| ==> Phase(s.pc[b]) >= Floor(s.pc[c]))
  }

  ghost predicate Sizes(s: State, s0: State) {
    && WellFormed(s) && WellFormed(s0) && |s.src| == |s.dst| == |s.pc| == |s0.pc|
    && (forall c :: 0 <= c < |s.pc| ==> |s.src[c]| == |s0.src[c]|)
  }

  /** An active cluster holds what the tree computes for it. */
  ghost predicate SourceOk(s: State, s0: State, c: nat)
    requires Sizes(s, s0) && c < |s.pc|
  {
    IsActive(c, s.pc[c].level) ==> s.src[c] == Held(s0, c, s.pc[c].level)
  }

  predicate HasSent(s: State, b: nat, l: nat) {
    b < |s.pc| && Phase(s.pc[b]) >= 3 * l + 1
  }

  /** A receiver's destination buffer holds its partner's data once the partner has sent it. */
  ghost predicate DestOk(s: State, s0: State, levels: nat, c: nat)
    requires Sizes(s, s0) && c < |s.pc|
  {
    var (l, b) := (s.pc[c].level, c + Pow2(s.pc[c].level));
    l < levels && Receives(c, l) ==>
      s.dst[c] == if HasSent(s, b, l) then Held(s0, b, l) else Stale(s0, c, l)
  }

  ghost predicate Inv(s: State, s0: State, levels: nat) {
    && Sizes(s, s0)
    && Gates(s, levels)
    && (forall c :: 0 <= c < |s.pc| ==> SourceOk(s, s0, c))
    && (forall c :: 0 <= c < |s.pc| ==> DestOk(s, s0, levels, c))
  }

  lemma {:induction false} InitialInv(s: State, n: nat, levels: nat)
    requires Initial(s, n)
    ensures Inv(s, s, levels)
  {
    hide Pow2, Receives, IsActive;
  }

  lemma {:induction false} GatesStep(s: State, levels: nat, a: Action)
    requires WellFormed(s) && Gates(s, levels) && Enabled(s, levels, true, a)
    ensures Gates(Next(s, levels, true, a), levels)
  {
    hide Pow2, IsActive, IsSender, Plus;
  }

  lemma {:induction false} SizesStep(s: State, s0: State, levels: nat, a: Action)
    requires Sizes(s, s0) && Enabled(s, levels, true, a)
    ensures Sizes(Next(s, levels, true, a), s0)
  {
    hide Pow2, IsActive, IsSender;
  }

  /** A cluster that may send finds all clusters at its level. */
  lemma {:induction false} SameLevel(s: State, levels: nat, c: nat, r: nat)
    requires Gates(s, levels) && Enabled(s, levels, true, Send(c)) && r < |s.pc|
    ensures s.pc[r].level == s.pc[c].level
  {
    assert Phase(s.pc[c]) >= Floor(s.pc[r]);
  }

  /** After a transfer by `c`, the buffers of cluster `r`. */
  lemma {:induction false} SendStep(s: State, s0: State, levels: nat, c: nat, r: nat)
    requires Inv(s, s0, levels) && Enabled(s, levels, true, Send(c)) && r < |s.pc|
    requires Sizes(Next(s, levels, true, Send(c)), s0)
    ensures SourceOk(Next(s, levels, true, Send(c)), s0, r)
    ensures DestOk(Next(s, levels, true, Send(c)), s0, levels, r)
  {
    hide Held, Stale, Pow2, IsActive, IsSender, Gates, WellFormed, AllReached;
    var l := s.pc[c].level;
    assert SourceOk(s, s0, r) && DestOk(s, s0, levels, r) && SourceOk(s, s0, c);
    SameLevel(s, levels, c, r);
    SendsTo(c, l, r);
  }

  /** Cluster `c` sends to the receiver whose partner it is, and to nobody else. */
  lemma {:induction false} SendsTo(c: nat, l: nat, r: nat)
    ensures IsActive(c, l) && IsSender(c, l) ==> c >= Pow2(l) && Receives(c - Pow2(l), l)
    ensures r + Pow2(l) == c && Receives(r, l) ==> IsActive(c, l) && IsSender(c, l)
  {
    hide Pow2, IsActive, IsSender, Receives;
    if IsActive(c, l) && IsSender(c, l) {
      SenderTarget(c, l);
      ReceiverPartner(c - Pow2(l), l);
    }
    if r + Pow2(l) == c && Receives(r, l) {
      ReceiverPartner(r, l);
    }
  }

  lemma {:induction false} ReleaseStep(s: State, s0: State, levels: nat, c: nat, r: nat)
    requires Inv(s, s0, levels) && Enabled(s, levels, true, Release(c)) && r < |s.pc|
    requires Sizes(Next(s, levels, true, Release(c)), s0)
    ensures SourceOk(Next(s, levels, true, Release(c)), s0, r)
    ensures DestOk(Next(s, levels, true, Release(c)), s0, levels, r)
  {
    hide Held, Stale, Pow2, IsActive, IsSender, Gates, WellFormed, AllReached, Receives;
    assert SourceOk(s, s0, r) && DestOk(s, s0, levels, r);
  }

  /** After the additions of `c`, the buffers of the other clusters. */
  lemma {:induction false} AddOther(s: State, s0: State, levels: nat, c: nat, r: nat)
    requires Inv(s, s0, levels) && Enabled(s, levels, true, Add(c)) && r < |s.pc| && r != c
    requires Sizes(Next(s, levels, true, Add(c)), s0)
    ensures SourceOk(Next(s, levels, true, Add(c)), s0, r)
    ensures DestOk(Next(s, levels, true, Add(c)), s0, levels, r)
  {
    hide Held, Stale, Pow2, IsActive, IsSender, Gates, WellFormed, Plus, Receives;
    assert SourceOk(s, s0, r) && DestOk(s, s0, levels, r);
  }

  /** Before its additions, a receiver's destination buffer is complete. */
  lemma {:induction false} ReceiverIsReady(s: State, s0: State, levels: nat, c: nat)
    requires Inv(s, s0, levels) && c < |s.pc| && s.pc[c].Adding? && Receives(c, s.pc[c].level)
    ensures s.dst[c] == Received(s0, c, s.pc[c].level)
  {
    hide Held, Stale, Received, Pow2, Receives, WellFormed, SourceOk;
    var (l, b) := (s.pc[c].level, c + Pow2(s.pc[c].level));
    ReceivedCases(s0, c, l);
    assert DestOk(s, s0, levels, c);
    if b < |s.pc| {
      assert Phase(s.pc[b]) >= Floor(s.pc[c]);
    }
  }

  /** After the additions of `c`, its source buffer is that of the next level. */
  lemma {:induction false} AddSource(s: State, s0: State, levels: nat, c: nat)
    requires Inv(s, s0, levels) && Enabled(s, levels, true, Add(c))
    requires Sizes(Next(s, levels, true, Add(c)), s0)
    ensures SourceOk(Next(s, levels, true, Add(c)), s0, c)
  {
    hide Held, Received, Pow2, IsActive, IsSender, Plus, Gates, WellFormed, DestOk;
    var l := s.pc[c].level;
    assert SourceOk(s, s0, c);
    if IsActive(c, l + 1) {
      ActiveReceived(c, l);
      ReceiverIsReady(s, s0, levels, c);
      ReceivedCases(s0, c, l);
    }
  }

  /** After the additions of `c`, its destination buffer is as before the next level's transfers. */
  lemma {:induction false} AddDest(s: State, s0: State, levels: nat, c: nat)
    requires Inv(s, s0, levels) && Enabled(s, levels, true, Add(c))
    requires Sizes(Next(s, levels, true, Add(c)), s0)
    ensures DestOk(Next(s, levels, true, Add(c)), s0, levels, c)
  {
    hide Held, Received, Stale, Pow2, IsActive, IsSender, Plus, WellFormed, Gates, SourceOk, Phase;
    var l := s.pc[c].level;
    if l + 1 < levels && Receives(c, l + 1) {
      ActiveReceived(c, l);
      ReceiverIsReady(s, s0, levels, c);
      ReceivedCases(s0, c, l);
      var b := c + Pow2(l + 1);
      if b < |s.pc| {
        PartnerIsBehind(s, levels, c, b);
      }
    }
  }

  lemma {:induction false} PartnerIsBehind(s: State, levels: nat, c: nat, b: nat)
    requires Gates(s, levels) && c < |s.pc| && b < |s.pc| && s.pc[c].Adding? && b != c
    ensures Phase(s.pc[b]) < 3 * (s.pc[c].level + 1) + 1
  {
    assert Phase(s.pc[c]) >= Floor(s.pc[b]);
  }

  lemma {:induction false} InvStep(s: State, s0: State, levels: nat, a: Action)
    requires Inv(s, s0, levels) && Enabled(s, levels, true, a)
    ensures Inv(Next(s, levels, true, a), s0, levels)
  {
    var s' := Next(s, levels, true, a);
    GatesStep(s, levels, a);
    SizesStep(s, s0, levels, a);
    hide Next, Enabled, Gates, Sizes, SourceOk, DestOk;
    forall r | 0 <= r < |s'.pc| ensures SourceOk(s', s0, r) && DestOk(s', s0, levels, r) {
      match a
      case Send(c) => SendStep(s, s0, levels, c, r);
      case Release(c) => ReleaseStep(s, s0, levels, c, r);
      case Add(c) =>
        if r == c {
          AddSource(s, s0, levels, c);
          AddDest(s, s0, levels, c);
        } else {
          AddOther(s, s0, levels, c, r);
        }
    }
  }

  lemma {:induction false} RunInv(s: State, n: nat, levels: nat, run: seq<Action>)
    requires Initial(s, n)
    ensures Inv(Exec(s, levels, true, run), s, levels)
    decreases |run|
  {
    hide Inv, Next, Enabled;
    if run == [] {
      InitialInv(s, n, levels);
    } else {
      RunInv(s, n, levels, run[..|run| - 1]);
      var (t, a) := (Exec(s, levels, true, run[..|run| - 1]), run[|run| - 1]);
      if Enabled(t, levels, true, a) {
        InvStep(t, s, levels, a);
      } else {
        NotEnabled(t, levels, true, a);
      }
    }
  }

  lemma {:induction false} NotEnabled(s: State, levels: nat, ordered: bool, a: Action)
    requires WellFormed(s) && !Enabled(s, levels, ordered, a)
    ensures Next(s, levels, ordered, a) == s
  {}

  // ----- Ordered runs

  /** In every state of every ordered run, an active cluster whose subtree is inside the communicator
      holds its sum; with a power of two of clusters cluster 0 ends with the sum of all source buffers. */
  lemma {:induction false} OrderedRunsSum(s: State, n: nat, run: seq<Action>)
    requires Initial(s, n)
    ensures var t := Exec(s, Levels(n), true, run);
      && (forall c, i :: 0 <= c < n && IsActive(c, t.pc[c].level) && c + Pow2(t.pc[c].level) <= n && 0 <= i < |s.src[c]| ==>
            |t.src[c]| == |s.src[c]| && t.src[c][i] == Sum(s.src, c, Pow2(t.pc[c].level), i))
      && (Finished(t, Levels(n)) && n == Pow2(Levels(n)) ==> HoldsSum(t, s))
  {
    hide Pow2, Held, IsActive, Exec, Levels, Gates, DestOk;
    RunInv(s, n, Levels(n), run);
    var t := Exec(s, Levels(n), true, run);
    forall c, i | 0 <= c < n && IsActive(c, t.pc[c].level) && c + Pow2(t.pc[c].level) <= n && 0 <= i < |s.src[c]|
      ensures |t.src[c]| == |s.src[c]| && t.src[c][i] == Sum(s.src, c, Pow2(t.pc[c].level), i)
    {
      assert SourceOk(t, s, c);
      HeldIsSum(s, c, t.pc[c].level, i);
    }
    if Finished(t, Levels(n)) {
      ZeroIsActive(Levels(n));
    }
  }

  /** Cluster 0 ends every ordered run with what the tree computes, for any number of clusters. */
  lemma {:induction false} OrderedRunsHold(s: State, n: nat, run: seq<Action>)
    requires Initial(s, n) && Finished(Exec(s, Levels(n), true, run), Levels(n))
    ensures Exec(s, Levels(n), true, run).src[0] == Held(s, 0, Levels(n))
  {
    hide Pow2, Held, IsActive, Exec, Levels, Gates, DestOk;
    RunInv(s, n, Levels(n), run);
    ZeroIsActive(Levels(n));
    assert SourceOk(Exec(s, Levels(n), true, run), s, 0);
  }

  lemma {:induction false} ZeroIsActive(l: nat)
    ensures IsActive(0, l)
  {
  }

  // ----- Every run can be completed

  /** Phases that are left to all clusters together. */
  ghost function Left(pc: seq<Pc>, levels: nat): (n: int) {
    if pc == [] then 0 else Left(pc[..|pc| - 1], levels) + 3 * levels - Phase(pc[|pc| - 1])
  }

  ghost predicate WithinLevels(s: State, levels: nat) {
    forall c :: 0 <= c < |s.pc| ==> s.pc[c].level < levels || s.pc[c] == Sending(levels)
  }

  lemma {:induction false} LeftUpdate(pc: seq<Pc>, levels: nat, c: nat, p: Pc)
    requires c < |pc|
    ensures Left(pc[c := p], levels) == Left(pc, levels) + Phase(pc[c]) - Phase(p)
  {
    var n := |pc| - 1;
    if c < n {
      LeftUpdate(pc[..n], levels, c, p);
      assert pc[c := p][..n] == pc[..n][c := p];
    } else {
      assert pc[c := p][..n] == pc[..n];
    }
  }

  lemma {:induction false} LeftIsNatural(pc: seq<Pc>, levels: nat)
    requires forall c :: 0 <= c < |pc| ==> Phase(pc[c]) <= 3 * levels
    ensures Left(pc, levels) >= 0
  {
    if pc != [] {
      LeftIsNatural(pc[..|pc| - 1], levels);
    }
  }

  lemma {:induction false} Hindmost(pc: seq<Pc>) returns (c: nat)
    requires pc != []
    ensures c < |pc| && forall b :: 0 <= b < |pc| ==> Phase(pc[c]) <= Phase(pc[b])
  {
    c := 0;
    for i := 1 to |pc|
      invariant c < |pc| && forall b :: 0 <= b < i ==> Phase(pc[c]) <= Phase(pc[b])
    {
      if Phase(pc[i]) < Phase(pc[c]) {
        c := i;
      }
    }
  }

  lemma {:induction false} ExecConcat(s: State, levels: nat, ordered: bool, r1: seq<Action>, r2: seq<Action>)
    requires WellFormed(s)
    ensures Exec(s, levels, ordered, r1 + r2) == Exec(Exec(s, levels, ordered, r1), levels, ordered, r2)
    decreases |r2|
  {
    if r2 == [] {
      assert r1 + r2 == r1;
    } else {
      ExecConcat(s, levels, ordered, r1, r2[..|r2| - 1]);
      assert (r1 + r2)[..|r1 + r2| - 1] == r1 + r2[..|r2| - 1];
    }
  }

  /** The hindmost cluster can always go on. */
  lemma {:induction false} Progress(s: State, levels: nat, ordered: bool) returns (a: Action)
    requires WellFormed(s) && WithinLevels(s, levels) && !Finished(s, levels)
    ensures WithinLevels(Next(s, levels, ordered, a), levels)
    ensures Left(Next(s, levels, ordered, a).pc, levels) == Left(s.pc, levels) - 1
  {
    var c := Hindmost(s.pc);
    var b :| 0 <= b < |s.pc| && s.pc[b] != Sending(levels);
    a := match s.pc[c] case Sending(_) => Send(c) case Waiting(_) => Release(c) case Adding(_) => Add(c);
    StepMoves(s, levels, ordered, c, a);
    hide Next, WellFormed, Enabled;
    LeftUpdate(s.pc, levels, c, Next(s, levels, ordered, a).pc[c]);
  }

  /** The hindmost cluster's step takes it one phase further. */
  lemma {:induction false} StepMoves(s: State, levels: nat, ordered: bool, c: nat, a: Action)
    requires WellFormed(s) && WithinLevels(s, levels) && c < |s.pc| && s.pc[c] != Sending(levels)
    requires forall b :: 0 <= b < |s.pc| ==> Phase(s.pc[c]) <= Phase(s.pc[b])
    requires a == match s.pc[c] case Sending(_) => Send(c) case Waiting(_) => Release(c) case Adding(_) => Add(c)
    ensures var p := Next(s, levels, ordered, a).pc;
      && p == s.pc[c := p[c]] && Phase(p[c]) == Phase(s.pc[c]) + 1
      && (p[c].level < levels || p[c] == Sending(levels))
  {
    hide Pow2, IsActive, IsSender, WellFormed;
  }

  /** Every run can be completed. */
  lemma {:induction false} Completion(s: State, levels: nat, ordered: bool) returns (run: seq<Action>)
    requires WellFormed(s) && WithinLevels(s, levels)
    ensures Finished(Exec(s, levels, ordered, run), levels)
    decreases Left(s.pc, levels)
  {
    hide Next;
    LeftIsNatural(s.pc, levels);
    if Finished(s, levels) {
      run := [];
    } else {
      var a := Progress(s, levels, ordered);
      var s' := Next(s, levels, ordered, a);
      LeftIsNatural(s'.pc, levels);
      var rest := Completion(s', levels, ordered);
      assert [a][..0] == [];
      assert Exec(s, levels, ordered, [a]) == s';
      ExecConcat(s, levels, ordered, [a], rest);
      run := [a] + rest;
    }
  }

  // ----- Communicators whose size is not a power of two

  /** Some level has a receiver without a sender exactly when the size is not a power of two;
      that receiver adds whatever its destination buffer holds. */
  lemma {:induction false} SendersExistIffPowerOfTwo(n: nat)
    requires n > 0
    ensures (forall l, c :: 0 <= l < Levels(n) && 0 <= c < n && Receives(c, l) ==> c + Pow2(l) < n)
       <==> n == Pow2(Levels(n))
  {
    hide Levels;
    var levels := Levels(n);
    if n == Pow2(levels) {
      forall l, c | 0 <= l < levels && 0 <= c < n && Receives(c, l) ensures c + Pow2(l) < n {
        ReceiverFits(c, l, levels);
      }
    } else {
      var l := LowestBit(n, levels);
      var c := n - Pow2(l);
      SenderTarget(n, l);
      EvenOrOdd(c, Pow2(l));
      assert Receives(c, l) && c + Pow2(l) == n;
    }
  }

  /** The level at which `n`, were it a cluster index, would be a sender. */
  lemma {:induction false} LowestBit(n: nat, levels: nat) returns (l: nat)
    requires 0 < n < Pow2(levels)
    ensures l < levels && IsActive(n, l) && IsSender(n, l)
  {
    l := 0;
    while n % Pow2(l + 1) == 0
      invariant l < levels && n % Pow2(l) == 0
      decreases levels - l
    {
      l := l + 1;
      if l == levels {
        DivModUnique(n, Pow2(levels), 0, n);
        assert false;
      }
    }
  }

  /** Source and destination of the last cluster hold one, all other buffers zero. */
  function Spike(n: nat): (s: State)
    ensures WellFormed(s) && |s.pc| == n
  {
    var b := seq(n, c => if c == n - 1 then [1] else [0]);
    State(b, b, seq(n, c => Sending(0)))
  }

  lemma {:induction false} SpikeSum(n: nat, c: nat, m: nat)
    requires c + m <= n
    ensures Sum(Spike(n).src, c, m, 0) == if m > 0 && c + m == n then 1 else 0
    decreases m
  {
    if m > 0 {
      SpikeSum(n, c, m - 1);
    }
  }

  lemma {:induction false} SpikeHeld(n: nat, c: nat, l: nat)
    requires c < n
    ensures Held(Spike(n), c, l)[0] >= 0 && Received(Spike(n), c, l)[0] >= 0
    decreases l
  {
    hide Held, Received, Spike;
    SpikeBuffers(n, c);
    ReceivedCases(Spike(n), c, l);
    if l > 0 {
      SpikeHeld(n, c, l - 1);
      ReceivedCases(Spike(n), c, l - 1);
    }
    if c + Pow2(l) < n {
      SpikeHeldPartner(n, c + Pow2(l), l);
    }
  }

  lemma {:induction false} SpikeHeldPartner(n: nat, c: nat, l: nat)
    requires c < n
    ensures Held(Spike(n), c, l)[0] >= 0
    decreases l, 0
  {
    hide Held, Received, Spike;
    SpikeBuffers(n, c);
    ReceivedCases(Spike(n), c, 0);
    if l > 0 {
      SpikeHeld(n, c, l - 1);
      ReceivedCases(Spike(n), c, l - 1);
    }
  }

  lemma {:induction false} SpikeBuffers(n: nat, c: nat)
    requires c < n
    ensures Spike(n).src[c] == Spike(n).dst[c] == if c == n - 1 then [1] else [0]
  {}

  /** The last receiver without a sender adds the last cluster's data twice, or what its destination buffer held. */
  lemma {:induction false} CountedTwice(n: nat) returns (r: nat, l: nat)
    requires n > 0 && n != Pow2(Levels(n))
    ensures l < Levels(n) && r < n && IsActive(r, l + 1) && Held(Spike(n), r, l + 1)[0] >= 2
  {
    hide Held, Received, Spike, Levels, Pow2, IsActive, IsSender;
    l := LowestBit(n, Levels(n));
    SendsTo(n, l, 0);
    r := n - Pow2(l);
    ReceivesIsActive(r, l);
    SpikeSubtree(n, r, l);
    SpikeReceived(n, r, l);
    ReceivedCases(Spike(n), r, l);
    SpikeBuffers(n, r);
    assert Held(Spike(n), r, l + 1)[0] == Held(Spike(n), r, l)[0] + Received(Spike(n), r, l)[0];
  }

  lemma {:induction false} SpikeReceived(n: nat, r: nat, l: nat)
    requires r + Pow2(l) == n
    ensures Received(Spike(n), r, l)[0] == 1
  {
    hide Held, Received, Spike, Pow2;
    ReceivedCases(Spike(n), r, l);
    if l == 0 {
      Pow2Step(0);
      SpikeBuffers(n, r);
    } else {
      Pow2Step(l - 1);
      ReceivedCases(Spike(n), r, l - 1);
      SpikeSubtree(n, r + Pow2(l - 1), l - 1);
    }
  }

  lemma {:induction false} ReceivesIsActive(r: nat, l: nat)
    requires Receives(r, l)
    ensures IsActive(r, l + 1)
  {}

  lemma {:induction false} SpikeSubtree(n: nat, c: nat, l: nat)
    requires c + Pow2(l) == n
    ensures Held(Spike(n), c, l)[0] == 1
  {
    hide Held, Sum;
    assert |Spike(n).src[c]| == 1;
    HeldIsSum(Spike(n), c, l, 0);
    SpikeSum(n, c, Pow2(l));
  }

  /** What a cluster holds too much reaches its ancestors in the tree. */
  lemma {:induction false} AncestorsHold(n: nat, r: nat, l: nat, m: nat)
    requires r < n && l <= m && IsActive(r, l) && Held(Spike(n), r, l)[0] >= 2
    ensures 0 <= r - r % Pow2(m) < n && Held(Spike(n), r - r % Pow2(m), m)[0] >= 2
    decreases m
  {
    hide Held, Received, Spike, Pow2;
    if m > l {
      AncestorsHold(n, r, l, m - 1);
      var (h, a, b) := (Pow2(m - 1), r - r % Pow2(m - 1), r - r % Pow2(m));
      Pow2Step(m - 1);
      ModDouble(r, h, Pow2(m));
      RemainderAtMost(r, Pow2(m));
      ReceivedCases(Spike(n), b, m - 1);
      SpikeHeld(n, b, m - 1);
    }
  }

  lemma {:induction false} RemainderAtMost(r: nat, m: nat)
    requires m > 0
    ensures 0 <= r % m <= r
  {
    if r < m {
      DivModUnique(r, m, 0, r);
    }
  }

  ghost predicate OrderedRunsAllSum(n: nat) {
    forall s: State, run :: Initial(s, n) && Finished(Exec(s, Levels(n), true, run), Levels(n)) ==>
      HoldsSum(Exec(s, Levels(n), true, run), s)
  }

  /** With each level's additions before the next level's transfers, the result is right for all
      contents of the buffers exactly when the number of clusters is a power of two. */
  lemma {:induction false} OrderedSumsIffPowerOfTwo(n: nat)
    requires n > 0
    ensures OrderedRunsAllSum(n) <==> n == Pow2(Levels(n))
  {
    hide Pow2, Levels, Exec, HoldsSum, Spike;
    if n == Pow2(Levels(n)) {
      forall s: State, run | Initial(s, n) && Finished(Exec(s, Levels(n), true, run), Levels(n))
        ensures HoldsSum(Exec(s, Levels(n), true, run), s)
      {
        OrderedRunsSum(s, n, run);
      }
    } else {
      var run := SpikeIsWrong(n);
    }
  }

  lemma {:induction false} SpikeIsWrong(n: nat) returns (run: seq<Action>)
    requires n > 0 && n != Pow2(Levels(n))
    ensures Initial(Spike(n), n) && Finished(Exec(Spike(n), Levels(n), true, run), Levels(n))
    ensures !HoldsSum(Exec(Spike(n), Levels(n), true, run), Spike(n))
  {
    hide Pow2, Levels, Exec, Held, Sum;
    var s := Spike(n);
    run := Completion(s, Levels(n), true);
    OrderedRunsHold(s, n, run);
    var r, l := CountedTwice(n);
    AncestorsHold(n, r, l + 1, Levels(n));
    DivModUnique(r, Pow2(Levels(n)), 0, r);
    SpikeSum(n, 0, n);
    assert Held(s, 0, Levels(n))[0] >= 2 && |s.src[0]| == 1;
  }

  /** With three clusters, cluster 2 is a receiver without a sender, and even ordered runs can be wrong. */
  lemma ThreeClusters()
    ensures Levels(3) == 2 && Receives(2, 0) && 2 + Pow2(0) == 3 && !OrderedRunsAllSum(3)
  {
    assert Levels(1) == 0 && Levels(2) == 1;
    assert Pow2(0) == 1 && Pow2(1) == 2 && Pow2(2) == 4;
    OrderedSumsIffPowerOfTwo(3);
  }
}
