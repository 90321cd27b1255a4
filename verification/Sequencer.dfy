/**
 The trace tool's emulation of the FREP sequencer: a queue of offloaded instructions, a
 read pointer, and one counter pair per loop of the active nest.

 `Valid` relates the fields to a program, its tokens pushed so far and its issues made so
 far.  The contracts of `PushInsn`, `DecodeFrep` and `Emulate` then hold for every
 interleaving of the three: the k-th call of `Emulate` returns the k-th element of the
 program's issue stream, however far ahead the pushes have run.
 */
module SequencerEmulation {
  import opened Wrappers
  import opened LoopNest
  import opened NestPosition

  datatype Insn = Insn(pc: int, sec: int, isFrep: bool)

  /** The fields that decoding an FREP adds to a loop's configuration. */
  datatype Bounds = Bounds(maxIter: int, maxInst: int)

  datatype LoopCfg = LoopCfg(pc: int, iterIdx: nat, instIdx: nat, basePtr: nat, bounds: Option<Bounds>) {
    predicate LastIter() requires bounds.Some? {
      iterIdx == bounds.value.maxIter
    }

    predicate LastInst() requires bounds.Some? {
      instIdx == bounds.value.maxInst
    }
  }

  function Encode(t: Token): (r: Insn) {
    match t
    case Plain(op) => Insn(op.pc, op.sec, false)
    case Frep(l) => Insn(l.frep.pc, l.frep.sec, true)
  }

  function BoundsOf(l: Loop): (r: Bounds) {
    Bounds(l.maxIter, Len(l) - 1)
  }

  /** The loops announced by the FREPs of a token sequence. */
  function FrepsOf(s: seq<Token>): (r: seq<Loop>) {
    if s == [] then [] else FrepsOf(s[..|s| - 1]) + match s[|s| - 1] case Frep(l) => [l] case Plain(_) => []
  }

  lemma {:induction false} FrepsOfConcat(s: seq<Token>, t: seq<Token>)
    ensures FrepsOf(s + t) == FrepsOf(s) + FrepsOf(t)
  {
    if t == [] {
      assert s + t == s;
    } else {
      FrepsOfConcat(s, t[..|t| - 1]);
      assert (s + t)[..|s + t| - 1] == s + t[..|t| - 1];
    }
  }

  lemma {:induction false} FrepsOfPlain(s: seq<Token>)
    requires forall i :: 0 <= i < |s| ==> s[i].Plain?
    ensures FrepsOf(s) == []
  {
    if s != [] {
      FrepsOfPlain(s[..|s| - 1]);
    }
  }

  lemma {:induction false} FrepsOfSingle(l: Loop)
    ensures FrepsOf([Frep(l)]) == [l]
  {
    assert [Frep(l)][..0] == [];
  }

  lemma {:induction false} FirstFrep(s: seq<Token>, k: nat)
    requires k < |s| && s[k].Frep?
    requires forall i :: 0 <= i < k ==> s[i].Plain?
    ensures FrepsOf(s) == [s[k].loop] + FrepsOf(RemoveAt(s, k))
  {
    hide FrepsOf;
    var (p, q) := (s[..k], s[k + 1..]);
    FrepsOfPlain(p);
    FrepsOfSingle(s[k].loop);
    FrepsOfConcat(p, q);
    FrepsOfConcat([s[k]], q);
    FrepsOfConcat(p, [s[k]] + q);
    assert s == p + ([s[k]] + q);
  }

  // ----- The counters of the active nest

  ghost predicate Chain(lv: seq<Loop>) {
    && (forall i :: 0 <= i < |lv| ==> WellFormed(lv[i]))
    && (forall i :: 0 <= i < |lv| - 1 ==> lv[i].body.Nested? && lv[i].body.inner == lv[i + 1])
  }

  lemma {:induction false} LevelsChain(l: Loop)
    requires WellFormed(l)
    ensures Chain(Levels(l))
  {
    forall i | 0 <= i < |Levels(l)| ensures WellFormed(Levels(l)[i]) { LevelFacts(l, i); }
    forall i | 0 <= i < |Levels(l)| - 1
      ensures Levels(l)[i].body.Nested? && Levels(l)[i].body.inner == Levels(l)[i + 1]
    {
      LevelFacts(l, i);
    }
  }

  /** Body offset of level `i` just behind the nested level `i + 1`. */
  ghost function After(lv: seq<Loop>, i: nat): (r: nat)
    requires Chain(lv) && i + 1 < |lv|
    ensures r <= Len(lv[i])
  {
    |lv[i].body.pre| + Len(lv[i + 1])
  }

  /** While an inner loop iterates the outer index stays at its start; in the last
      iteration it follows the inner index. */
  ghost predicate Linked(lv: seq<Loop>, cfg: seq<LoopCfg>, i: nat)
    requires Chain(lv) && i + 1 < |lv| && i + 1 < |cfg|
  {
    cfg[i].instIdx == |lv[i].body.pre| + if cfg[i + 1].iterIdx == lv[i + 1].maxIter then cfg[i + 1].instIdx else 0
  }

  /** The issues that the loops `0..k` still owe after loop `k + 1` is done. */
  ghost function Outer(lv: seq<Loop>, cfg: seq<LoopCfg>, k: int): (r: seq<Issue>)
    requires Chain(lv) && k + 1 < |lv| && k < |cfg|
    requires forall i :: 0 <= i <= k ==> cfg[i].iterIdx <= lv[i].maxIter
    decreases k + 1
  {
    if k < 0 then []
    else
      WellFormedIsNonEmpty(lv[k + 1]);
      Remaining(lv[k], cfg[k].iterIdx, After(lv, k)) + Outer(lv, cfg, k - 1)
  }

  lemma {:induction false} OuterFrame(lv: seq<Loop>, cfg: seq<LoopCfg>, cfg': seq<LoopCfg>, k: int)
    requires Chain(lv) && k + 1 < |lv| && k < |cfg| && k < |cfg'|
    requires forall i :: 0 <= i <= k ==> cfg[i].iterIdx == cfg'[i].iterIdx <= lv[i].maxIter
    ensures Outer(lv, cfg, k) == Outer(lv, cfg', k)
    decreases k + 1
  {
    hide Remaining, Ops, Levels, Base, WellFormed;
    if k >= 0 {
      OuterFrame(lv, cfg, cfg', k - 1);
    }
  }

  /** The configuration of a nest of which `e` levels were entered and level `a` is active. */
  ghost predicate Configured(lv: seq<Loop>, l: Loop, e: nat, cfg: seq<LoopCfg>)
    requires lv == Levels(l)
  {
    && 1 <= e <= |lv| && e <= |cfg|
    && (forall i :: 0 <= i < e ==> cfg[i].bounds == Some(BoundsOf(lv[i])) && cfg[i].basePtr == Base(l, i)
                                   && cfg[i].pc == lv[i].frep.pc)
    && (forall i :: e <= i < |cfg| ==> cfg[i].basePtr == 0)
  }

  ghost predicate Idle(cfg: seq<LoopCfg>, k: nat) {
    forall i :: k <= i < |cfg| ==> cfg[i].iterIdx == 0 && cfg[i].instIdx == 0
  }

  ghost predicate Counting(lv: seq<Loop>, a: int, cfg: seq<LoopCfg>)
    requires Chain(lv) && -1 <= a < |lv| && a < |cfg|
  {
    && (forall i :: 0 <= i <= a ==> cfg[i].iterIdx <= lv[i].maxIter)
    && (forall i :: 0 <= i < a ==> Linked(lv, cfg, i))
    && Idle(cfg, a + 1)
  }

  /** Level `a` of the nest is active and the read pointer is at its current instruction. */
  ghost predicate Located(l: Loop, e: nat, a: int, cfg: seq<LoopCfg>, rd: nat) {
    && WellFormed(l)
    && Chain(Levels(l))
    && var lv := Levels(l);
    && Configured(lv, l, e, cfg)
    && 0 <= a < e
    && Counting(lv, a, cfg)
    && var (m, it, idx) := (lv[a], cfg[a].iterIdx, cfg[a].instIdx);
    && idx < Len(m)
    && Resting(m, it, idx)
    && rd == Base(l, a) + idx
    && (e < |lv| ==> a == e - 1 && idx <= |m.body.pre| && forall i :: 0 <= i <= a ==> cfg[i].iterIdx == 0)
  }

  /** Additionally, a nested loop that starts here is active already unless its FREP is still queued. */
  ghost predicate InNest(l: Loop, e: nat, a: int, cfg: seq<LoopCfg>, rd: nat) {
    Located(l, e, a, cfg, rd) && (AtEntry(Levels(l)[a], cfg[a].iterIdx, cfg[a].instIdx) ==> e == a + 1)
  }

  /** What the nest still has to issue. */
  ghost function NestRemaining(l: Loop, a: int, cfg: seq<LoopCfg>): (r: seq<Issue>)
    requires WellFormed(l)
    requires Chain(Levels(l)) && 0 <= a < |Levels(l)| && a < |cfg|
    requires Counting(Levels(l), a, cfg)
    requires Resting(Levels(l)[a], cfg[a].iterIdx, cfg[a].instIdx)
  {
    Remaining(Levels(l)[a], cfg[a].iterIdx, cfg[a].instIdx) + Outer(Levels(l), cfg, a - 1)
  }

  /** Entering the outermost loop. */
  lemma {:induction false} EnterNest(l: Loop, cfg: seq<LoopCfg>)
    requires WellFormed(l)
    requires |cfg| > 0 && cfg[0].bounds == Some(BoundsOf(l)) && cfg[0].pc == l.frep.pc
    requires Idle(cfg, 0) && forall i :: 0 <= i < |cfg| ==> cfg[i].basePtr == 0
    ensures InNest(l, 1, 0, cfg, 0)
    ensures NestRemaining(l, 0, cfg) == Sequenced(l)
  {
    hide Remaining, Ops, Levels, Base, WellFormed;
    LevelsChain(l);
    WellFormedIsNonEmpty(l);
    RemainingAtStart(l);
    LevelFacts(l, 0);
  }

  /** Moving inwards, to a level whose base is the read pointer. */
  lemma {:induction false} MoveInwards(l: Loop, e: nat, a: int, cfg: seq<LoopCfg>, rd: nat)
    requires Located(l, e, a, cfg, rd)
    requires a + 1 < e && cfg[a + 1].basePtr == rd
    requires cfg[a].iterIdx == 0 || cfg[a].instIdx > 0
    ensures Located(l, e, a + 1, cfg, rd)
    ensures NestRemaining(l, a + 1, cfg) == NestRemaining(l, a, cfg)
  {
    hide Remaining, Ops, Levels, Base, WellFormed;
    var lv := Levels(l);
    NextLevel(l, a);
    assert Linked(lv, cfg, a);
    assert Located(l, e, a + 1, cfg, rd);
    EnterRemaining(lv, a, cfg);
  }

  lemma {:induction false} EnterRemaining(lv: seq<Loop>, a: nat, cfg: seq<LoopCfg>)
    requires Chain(lv) && a + 1 < |lv| && a + 1 < |cfg|
    requires forall i :: 0 <= i <= a ==> cfg[i].iterIdx <= lv[i].maxIter
    requires AtEntry(lv[a], cfg[a].iterIdx, cfg[a].instIdx)
    ensures Resting(lv[a], cfg[a].iterIdx, cfg[a].instIdx)
    ensures Remaining(lv[a], cfg[a].iterIdx, cfg[a].instIdx) + Outer(lv, cfg, a - 1)
            == Remaining(lv[a + 1], 0, 0) + Outer(lv, cfg, a)
  {
    hide Remaining, Ops, Levels, Base, WellFormed;
    RemainingEnter(lv[a], cfg[a].iterIdx);
    var rest := Remaining(lv[a], cfg[a].iterIdx, After(lv, a));
    assert Outer(lv, cfg, a) == rest + Outer(lv, cfg, a - 1);
  }

  /** The counters of the outer loops are those of a loop about to enter its nested one. */
  lemma {:induction false} CountingEntered(lv: seq<Loop>, a: nat, cfg: seq<LoopCfg>, cfg': seq<LoopCfg>)
    requires Chain(lv) && a + 1 < |lv| && a + 1 < |cfg| && Counting(lv, a, cfg)
    requires AtEntry(lv[a], cfg[a].iterIdx, cfg[a].instIdx)
    requires |cfg'| == |cfg| && forall i :: 0 <= i < |cfg| ==> cfg'[i] == cfg[i].(basePtr := cfg'[i].basePtr)
    ensures Counting(lv, a + 1, cfg')
  {
    hide Remaining, Ops, WellFormed;
    forall i | 0 <= i < a + 1 ensures Linked(lv, cfg', i) {
      if i < a {
        assert Linked(lv, cfg, i);
      }
    }
  }

  /** Removing the FREP of the next level makes that level the active one. */
  lemma {:induction false} EnterNextLevel(l: Loop, e: nat, a: int, cfg: seq<LoopCfg>, rd: nat)
    requires InNest(l, e, a, cfg, rd)
    requires e < |Levels(l)| && rd == Base(l, e)
    requires e < |cfg| && cfg[e].bounds == Some(BoundsOf(Levels(l)[e])) && cfg[e].pc == Levels(l)[e].frep.pc
    ensures var cfg' := cfg[e := cfg[e].(basePtr := rd)];
      && InNest(l, e + 1, a + 1, cfg', rd)
      && NestRemaining(l, a + 1, cfg') == NestRemaining(l, a, cfg)
  {
    hide Remaining, Ops, Levels, Base, WellFormed;
    var (lv, cfg') := (Levels(l), cfg[e := cfg[e].(basePtr := rd)]);
    NextLevel(l, a);
    CountingEntered(lv, a, cfg, cfg');
    if e + 1 < |lv| {
      NextLevel(l, e);
    }
    assert Located(l, e + 1, a + 1, cfg', rd);
    EnterRemaining(lv, a, cfg);
    OuterFrame(lv, cfg, cfg', a);
  }

  /** Lines 110 to 119: bump the index of the active loop, and of every outer loop that
      follows it because the loops in between are in their last iteration. */
  method Advance(cfg: seq<LoopCfg>, a: nat, ghost lv: seq<Loop>) returns (r: seq<LoopCfg>)
    requires Chain(lv) && a < |lv| && a < |cfg|
    requires forall i :: 0 <= i <= a ==> cfg[i].bounds == Some(BoundsOf(lv[i]))
    requires Counting(lv, a, cfg)
    ensures |r| == |cfg| && Counting(lv, a, r)
    ensures r[a].instIdx == cfg[a].instIdx + 1
    ensures forall i :: 0 <= i < |cfg| ==> r[i] == cfg[i].(instIdx := r[i].instIdx)
    ensures forall i :: a < i < |cfg| ==> r[i] == cfg[i]
  {
    hide Remaining, Ops, Levels, Base, WellFormed;
    r := cfg[a := cfg[a].(instIdx := cfg[a].instIdx + 1)];
    var i := a;
    while i >= 1 && r[i].LastIter()
      invariant 0 <= i <= a
      invariant |r| == |cfg|
      invariant r[a].instIdx == cfg[a].instIdx + 1
      invariant r[i].instIdx == cfg[i].instIdx + 1
      invariant forall j :: 0 <= j < |cfg| ==> r[j] == cfg[j].(instIdx := r[j].instIdx)
      invariant forall j :: 0 <= j < |cfg| && (j < i || a < j) ==> r[j] == cfg[j]
      invariant forall j :: i <= j < a ==> Linked(lv, r, j)
    {
      i := i - 1;
      assert Linked(lv, cfg, i);
      ghost var r0 := r;
      r := r[i := r[i].(instIdx := r[i].instIdx + 1)];
      assert forall j :: i < j < a ==> Linked(lv, r0, j) ==> Linked(lv, r, j);
      assert Linked(lv, r, i);
    }
    forall j | 0 <= j < a ensures Linked(lv, r, j) {
      assert Linked(lv, cfg, j);
    }
  }

  /** Lines 124 to 128: activate the loops already entered before that start at the read pointer. */
  method EnterReached(cfg: seq<LoopCfg>, a: nat, rd: nat, ghost l: Loop, ghost e: nat) returns (b: int)
    requires Located(l, e, a, cfg, rd) && rd > 0
    requires cfg[a].iterIdx == 0 || cfg[a].instIdx > 0
    ensures InNest(l, e, b, cfg, rd)
    ensures NestRemaining(l, b, cfg) == NestRemaining(l, a, cfg)
  {
    hide Remaining, Ops, Levels, Base, WellFormed;
    b := a;
    while |cfg| > b + 1 && cfg[b + 1].basePtr == rd
      invariant Located(l, e, b, cfg, rd)
      invariant cfg[b].iterIdx == 0 || cfg[b].instIdx > 0
      invariant NestRemaining(l, b, cfg) == NestRemaining(l, a, cfg)
      decreases |cfg| - b
    {
      MoveInwards(l, e, b, cfg, rd);
      b := b + 1;
    }
    NextLevel(l, b);
  }

  /** The two configurations differ in counters only. */
  ghost predicate SameLoops(cfg: seq<LoopCfg>, r: seq<LoopCfg>) {
    |r| == |cfg|
    && forall i :: 0 <= i < |cfg| ==> r[i] == cfg[i].(iterIdx := r[i].iterIdx, instIdx := r[i].instIdx)
  }

  /** Loop `b + 1` is done; the read pointer is on its last instruction. */
  ghost predicate Leaving(l: Loop, b: int, cfg: seq<LoopCfg>, rd: nat)
    requires WellFormed(l) && Chain(Levels(l)) && -1 <= b && b + 1 < |Levels(l)| && b < |cfg|
  {
    && Counting(Levels(l), b, cfg)
    && (b == -1 ==> rd + 1 == Len(l))
    && (b >= 0 ==> cfg[b].instIdx + 1 == After(Levels(l), b) && rd == Base(l, b) + cfg[b].instIdx)
  }

  /** Loops `b + 1..a` of `cfg` were left and reset, which turned it into `r`. */
  ghost predicate Left(l: Loop, cfg: seq<LoopCfg>, a: nat, r: seq<LoopCfg>, b: int, rd: nat)
    requires WellFormed(l) && Chain(Levels(l)) && a < |Levels(l)| && a < |cfg|
    requires Counting(Levels(l), a, cfg)
  {
    && SameLoops(cfg, r)
    && -1 <= b < a
    && Leaving(l, b, r, rd)
    && Outer(Levels(l), r, b) == Outer(Levels(l), cfg, a - 1)
  }

  lemma BaseOfOutermost(l: Loop)
    ensures Base(l, 0) == 0
  {
  }

  ghost predicate Finished(l: Loop, a: nat, cfg: seq<LoopCfg>, rd: nat)
    requires WellFormed(l) && Chain(Levels(l)) && a < |Levels(l)| && a < |cfg|
  {
    && cfg[a].iterIdx == Levels(l)[a].maxIter && cfg[a].instIdx + 1 == Len(Levels(l)[a])
    && rd == Base(l, a) + cfg[a].instIdx
  }

  lemma {:induction false} LeaveFirst(l: Loop, a: nat, cfg: seq<LoopCfg>, r: seq<LoopCfg>, rd: nat)
    requires WellFormed(l) && Chain(Levels(l)) && a < |Levels(l)| && a < |cfg|
    requires Counting(Levels(l), a, cfg)
    requires Finished(l, a, cfg, rd)
    requires r == cfg[a := cfg[a].(instIdx := 0, iterIdx := 0)]
    ensures Left(l, cfg, a, r, a - 1, rd)
  {
    hide Remaining, Ops, Levels, Base, WellFormed;
    BaseOfOutermost(l);
    var lv := Levels(l);
    forall i | 0 <= i < a - 1 ensures Linked(lv, r, i) {
      assert Linked(lv, cfg, i);
    }
    if a > 0 {
      assert Linked(lv, cfg, a - 1);
      NextLevel(l, a - 1);
    }
    OuterFrame(lv, cfg, r, a - 1);
  }

  lemma {:induction false} FinishedOwesNothing(l: Loop, b: nat, cfg: seq<LoopCfg>, rd: nat)
    requires WellFormed(l) && Chain(Levels(l)) && b + 1 < |Levels(l)| && b < |cfg|
    requires Leaving(l, b, cfg, rd)
    requires Finished(l, b, cfg, rd)
    ensures Outer(Levels(l), cfg, b) == Outer(Levels(l), cfg, b - 1)
  {
    hide Remaining, Ops, Levels, Base, WellFormed;
    RemainingWrap(Levels(l)[b], cfg[b].iterIdx);
  }

  lemma {:induction false} LeaveNext(l: Loop, cfg: seq<LoopCfg>, a: nat, r: seq<LoopCfg>, b: nat, r': seq<LoopCfg>, rd: nat)
    requires WellFormed(l) && Chain(Levels(l)) && a < |Levels(l)| && a < |cfg|
    requires Counting(Levels(l), a, cfg)
    requires Left(l, cfg, a, r, b, rd)
    requires Finished(l, b, r, rd)
    requires r' == r[b := r[b].(instIdx := 0, iterIdx := 0)]
    ensures Left(l, cfg, a, r', b - 1, rd)
  {
    hide Remaining, Ops, Levels, Base, WellFormed;
    LeaveFirst(l, b, r, r', rd);
    FinishedOwesNothing(l, b, r, rd);
  }

  /** Lines 132 and 142 to 151: leave the finished loop and every outer loop that ends with it. */
  method LeaveLoops(cfg: seq<LoopCfg>, a: nat, ghost l: Loop, ghost rd: nat) returns (r: seq<LoopCfg>, b: int)
    requires WellFormed(l) && Chain(Levels(l)) && Configured(Levels(l), l, |Levels(l)|, cfg)
    requires a < |Levels(l)| && Counting(Levels(l), a, cfg)
    requires Finished(l, a, cfg, rd)
    ensures Left(l, cfg, a, r, b, rd)
    ensures b >= 0 ==> !(r[b].LastIter() && r[b].LastInst())
  {
    hide Remaining, Ops, Levels, Base, WellFormed;
    r := cfg[a := cfg[a].(instIdx := 0, iterIdx := 0)];
    b := a - 1;
    LeaveFirst(l, a, cfg, r, rd);
    while b > -1 && r[b].LastIter() && r[b].LastInst()
      invariant Left(l, cfg, a, r, b, rd)
    {
      ghost var r0 := r;
      r := r[b := r[b].(instIdx := 0, iterIdx := 0)];
      LeaveNext(l, cfg, a, r0, b, r, rd);
      b := b - 1;
    }
  }

  /** Back to the first instruction of the body for the next iteration. */
  lemma {:induction false} NextIteration(l: Loop, a: nat, cfg: seq<LoopCfg>, r: seq<LoopCfg>)
    requires WellFormed(l) && Chain(Levels(l)) && Configured(Levels(l), l, |Levels(l)|, cfg)
    requires a < |Levels(l)| && Counting(Levels(l), a, cfg)
    requires cfg[a].iterIdx < Levels(l)[a].maxIter
    requires r == cfg[a := cfg[a].(instIdx := 0, iterIdx := cfg[a].iterIdx + 1)]
    ensures InNest(l, |Levels(l)|, a, r, Base(l, a))
  {
    hide Remaining, Ops, Levels, Base, WellFormed;
    var lv := Levels(l);
    WellFormedIsNonEmpty(lv[a]);
    forall i | 0 <= i < a ensures Linked(lv, r, i) {
      assert Linked(lv, cfg, i);
    }
    assert Counting(lv, a, r);
  }

  lemma {:induction false} NextIterationRemaining(lv: seq<Loop>, a: nat, cfg: seq<LoopCfg>, r: seq<LoopCfg>)
    requires Chain(lv) && a < |lv| && a < |cfg|
    requires forall i :: 0 <= i <= a ==> cfg[i].iterIdx <= lv[i].maxIter
    requires cfg[a].iterIdx < lv[a].maxIter
    requires r == cfg[a := cfg[a].(instIdx := 0, iterIdx := cfg[a].iterIdx + 1)]
    ensures Resting(lv[a], cfg[a].iterIdx, Len(lv[a])) && Resting(lv[a], r[a].iterIdx, 0)
    ensures Remaining(lv[a], r[a].iterIdx, 0) + Outer(lv, r, a - 1)
            == Remaining(lv[a], cfg[a].iterIdx, Len(lv[a])) + Outer(lv, cfg, a - 1)
  {
    hide Remaining, Ops, Levels, Base, WellFormed;
    RemainingWrap(lv[a], cfg[a].iterIdx);
    OuterFrame(lv, cfg, r, a - 1);
  }

  ghost function IssueAt(m: Loop, c: LoopCfg): (r: Issue)
    requires c.instIdx < Len(m)
  {
    Issue(Ops(m)[c.instIdx], Some(Status(m.frep.pc, c.iterIdx, c.instIdx)))
  }

  /** The nest as it is before an issue and after it; `b == -1` reports that it is finished. */
  ghost predicate Stepped(l: Loop, e: nat, cfg: seq<LoopCfg>, a: nat, rd: nat, r: seq<LoopCfg>, b: int, rd': nat)
    requires InNest(l, e, a, cfg, rd)
  {
    && SameLoops(cfg, r)
    && -1 <= b
    && (b >= 0 ==> InNest(l, e, b, r, rd')
                   && NestRemaining(l, a, cfg) == [IssueAt(Levels(l)[a], cfg[a])] + NestRemaining(l, b, r))
    && (b == -1 ==> e == |Levels(l)| && Idle(r, 0) && rd + 1 == Len(l)
                    && NestRemaining(l, a, cfg) == [IssueAt(Levels(l)[a], cfg[a])])
  }

  lemma ConcatAssoc<T>(s: seq<T>, t: seq<T>, u: seq<T>)
    ensures (s + t) + u == s + (t + u)
  {
  }

  lemma ConcatCancel<T>(s: seq<T>, t: seq<T>, u: seq<T>)
    requires s + u == t + u
    ensures s == t
  {
    assert |s| == |t|;
    assert s == (s + u)[..|s|] && t == (t + u)[..|s|];
  }

  lemma HeadOfConcat<T>(s: seq<T>, h: T, t: seq<T>, u: seq<T>)
    requires s == [h] + t
    ensures s + u == [h] + (t + u)
  {
  }

  /** The current issue, and what the active loop and the loops around it owe after it. */
  lemma {:induction false} IssueOne(lv: seq<Loop>, a: nat, cfg: seq<LoopCfg>)
    requires Chain(lv) && a < |lv| && a < |cfg|
    requires forall i :: 0 <= i <= a ==> cfg[i].iterIdx <= lv[i].maxIter
    requires Resting(lv[a], cfg[a].iterIdx, cfg[a].instIdx)
    requires cfg[a].instIdx < Len(lv[a])
    requires !AtEntry(lv[a], cfg[a].iterIdx, cfg[a].instIdx)
    ensures Resting(lv[a], cfg[a].iterIdx, cfg[a].instIdx + 1)
    ensures Remaining(lv[a], cfg[a].iterIdx, cfg[a].instIdx) + Outer(lv, cfg, a - 1)
            == [IssueAt(lv[a], cfg[a])] + (Remaining(lv[a], cfg[a].iterIdx, cfg[a].instIdx + 1) + Outer(lv, cfg, a - 1))
  {
    hide Remaining, Ops, Levels, Base, WellFormed;
    var (m, it, idx) := (lv[a], cfg[a].iterIdx, cfg[a].instIdx);
    RemainingStep(m, it, idx);
    HeadOfConcat(Remaining(m, it, idx), IssueAt(m, cfg[a]), Remaining(m, it, idx + 1), Outer(lv, cfg, a - 1));
  }

  lemma {:induction false} AdvancedRemaining(lv: seq<Loop>, a: nat, cfg: seq<LoopCfg>, r: seq<LoopCfg>)
    requires Chain(lv) && a < |lv| && a < |cfg| == |r|
    requires forall i :: 0 <= i <= a ==> r[i].iterIdx == cfg[i].iterIdx <= lv[i].maxIter
    requires Resting(lv[a], cfg[a].iterIdx, cfg[a].instIdx)
    requires cfg[a].instIdx < Len(lv[a])
    requires !AtEntry(lv[a], cfg[a].iterIdx, cfg[a].instIdx)
    requires r[a].instIdx == cfg[a].instIdx + 1
    ensures Resting(lv[a], r[a].iterIdx, r[a].instIdx)
    ensures Remaining(lv[a], cfg[a].iterIdx, cfg[a].instIdx) + Outer(lv, cfg, a - 1)
            == [IssueAt(lv[a], cfg[a])] + (Remaining(lv[a], r[a].iterIdx, r[a].instIdx) + Outer(lv, r, a - 1))
  {
    hide Remaining, Ops, Levels, Base, WellFormed;
    IssueOne(lv, a, cfg);
    OuterFrame(lv, cfg, r, a - 1);
  }

  /** Lines 109 to 128. */
  method StepForward(cfg: seq<LoopCfg>, a: nat, rd: nat, ghost l: Loop, ghost e: nat)
    returns (r: seq<LoopCfg>, b: int)
    requires InNest(l, e, a, cfg, rd)
    requires !AtEntry(Levels(l)[a], cfg[a].iterIdx, cfg[a].instIdx)
    requires !cfg[a].LastInst()
    ensures Stepped(l, e, cfg, a, rd, r, b, rd + 1)
  {
    hide Remaining, Ops, Levels, Base, WellFormed;
    ghost var lv := Levels(l);
    NextLevel(l, a);
    r := Advance(cfg, a, lv);
    AdvancedRemaining(lv, a, cfg, r);
    assert Located(l, e, a, r, rd + 1);
    b := EnterReached(r, a, rd + 1, l, e);
  }

  /** Lines 136 to 138. */
  lemma {:induction false} StepBack(l: Loop, e: nat, cfg: seq<LoopCfg>, a: nat, rd: nat, r: seq<LoopCfg>)
    requires InNest(l, e, a, cfg, rd)
    requires !AtEntry(Levels(l)[a], cfg[a].iterIdx, cfg[a].instIdx)
    requires cfg[a].LastInst() && !cfg[a].LastIter()
    requires r == cfg[a := cfg[a].(instIdx := 0, iterIdx := cfg[a].iterIdx + 1)]
    ensures Stepped(l, e, cfg, a, rd, r, a, cfg[a].basePtr)
  {
    hide Remaining, Ops, Levels, Base, WellFormed;
    NextLevel(l, a);
    IssueOne(Levels(l), a, cfg);
    NextIteration(l, a, cfg, r);
    NextIterationRemaining(Levels(l), a, cfg, r);
  }

  lemma {:induction false} LastIssue(lv: seq<Loop>, a: nat, cfg: seq<LoopCfg>)
    requires Chain(lv) && a < |lv| && a < |cfg|
    requires forall i :: 0 <= i <= a ==> cfg[i].iterIdx <= lv[i].maxIter
    requires Resting(lv[a], cfg[a].iterIdx, cfg[a].instIdx)
    requires cfg[a].instIdx + 1 == Len(lv[a]) && cfg[a].iterIdx == lv[a].maxIter
    requires !AtEntry(lv[a], cfg[a].iterIdx, cfg[a].instIdx)
    ensures Remaining(lv[a], cfg[a].iterIdx, cfg[a].instIdx) + Outer(lv, cfg, a - 1)
            == [IssueAt(lv[a], cfg[a])] + Outer(lv, cfg, a - 1)
  {
    hide Remaining, Ops, Levels, Base, WellFormed;
    IssueOne(lv, a, cfg);
    RemainingWrap(lv[a], cfg[a].iterIdx);
    assert [] + Outer(lv, cfg, a - 1) == Outer(lv, cfg, a - 1);
  }

  /** Lines 142 to 151. */
  method StepOut(cfg: seq<LoopCfg>, a: nat, rd: nat, ghost l: Loop, ghost e: nat) returns (r: seq<LoopCfg>, b: int)
    requires InNest(l, e, a, cfg, rd)
    requires !AtEntry(Levels(l)[a], cfg[a].iterIdx, cfg[a].instIdx)
    requires cfg[a].LastInst() && cfg[a].LastIter()
    ensures e == |Levels(l)|
    ensures Left(l, cfg, a, r, b, rd)
    ensures b >= 0 ==> !(r[b].LastIter() && r[b].LastInst())
    ensures NestRemaining(l, a, cfg) == [IssueAt(Levels(l)[a], cfg[a])] + Outer(Levels(l), r, b)
  {
    hide Remaining, Ops, Levels, Base, WellFormed;
    NextLevel(l, a);
    r, b := LeaveLoops(cfg, a, l, rd);
    LastIssue(Levels(l), a, cfg);
  }

  /** Lines 164 to 174. */
  method ResumeOuter(cfg: seq<LoopCfg>, b: nat, rd: nat, ghost l: Loop) returns (r: seq<LoopCfg>)
    requires WellFormed(l) && Chain(Levels(l)) && Configured(Levels(l), l, |Levels(l)|, cfg)
    requires b + 1 < |Levels(l)| && Leaving(l, b, cfg, rd)
    requires !cfg[b].LastInst()
    ensures SameLoops(cfg, r) && r[b] == cfg[b].(instIdx := cfg[b].instIdx + 1)
    ensures InNest(l, |Levels(l)|, b, r, rd + 1)
    ensures NestRemaining(l, b, r) == Outer(Levels(l), cfg, b)
  {
    hide Remaining, Ops, Levels, Base, WellFormed;
    ghost var lv := Levels(l);
    NextLevel(l, b);
    r := Advance(cfg, b, lv);
    OuterFrame(lv, cfg, r, b - 1);
  }

  /** Lines 176 to 180. */
  lemma {:induction false} RestartOuter(cfg: seq<LoopCfg>, b: nat, rd: nat, l: Loop, r: seq<LoopCfg>)
    requires WellFormed(l) && Chain(Levels(l)) && Configured(Levels(l), l, |Levels(l)|, cfg)
    requires b + 1 < |Levels(l)| && Leaving(l, b, cfg, rd)
    requires cfg[b].LastInst() && !cfg[b].LastIter()
    requires r == cfg[b := cfg[b].(instIdx := 0, iterIdx := cfg[b].iterIdx + 1)]
    ensures InNest(l, |Levels(l)|, b, r, cfg[b].basePtr)
    ensures NestRemaining(l, b, r) == Outer(Levels(l), cfg, b)
  {
    hide Remaining, Ops, Levels, Base, WellFormed;
    NextIteration(l, b, cfg, r);
    NextIterationRemaining(Levels(l), b, cfg, r);
  }

  /** Lines 109 to 180: the counters and the read pointer move on to the next issue of the nest. */
  method StepNest(cfg: seq<LoopCfg>, a: nat, rd: nat, ghost l: Loop, ghost e: nat)
    returns (r: seq<LoopCfg>, b: int, rd': nat)
    requires InNest(l, e, a, cfg, rd)
    requires !AtEntry(Levels(l)[a], cfg[a].iterIdx, cfg[a].instIdx)
    ensures Stepped(l, e, cfg, a, rd, r, b, rd')
  {
    hide Remaining, Ops, Levels, Base, WellFormed;
    if !cfg[a].LastInst() {
      r, b := StepForward(cfg, a, rd, l, e);
      rd' := rd + 1;
    } else if !cfg[a].LastIter() {
      r, b, rd' := cfg[a := cfg[a].(instIdx := 0, iterIdx := cfg[a].iterIdx + 1)], a, cfg[a].basePtr;
      StepBack(l, e, cfg, a, rd, r);
    } else {
      r, b := StepOut(cfg, a, rd, l, e);
      rd' := rd;
      if b >= 0 {
        if !r[b].LastInst() {
          r := ResumeOuter(r, b, rd, l);
          rd' := rd + 1;
        } else {
          ghost var r0 := r;
          r, rd' := r[b := r[b].(instIdx := 0, iterIdx := r[b].iterIdx + 1)], r[b].basePtr;
          RestartOuter(r0, b, rd, l, r);
        }
      }
    }
  }

  // ----- The queue

  /** The tokens of the items `cur` without the first `e` FREPs, which were consumed. */
  ghost function Residual(cur: seq<Item>, e: nat): (r: seq<Token>)
    requires e > 0 ==> cur != [] && cur[0].Repeat?
  {
    if e == 0 then ProgramTokens(cur) else BodyTokens(cur[0].loop.body, e - 1) + ProgramTokens(cur[1..])
  }

  ghost function Entered(cur: seq<Item>, e: nat): (r: seq<Loop>) {
    if e > 0 && cur != [] && cur[0].Repeat? && e <= |Levels(cur[0].loop)| then Levels(cur[0].loop)[..e] else []
  }

  /** The loops that were announced and not finished: entered ones first. */
  ghost function OpenLoops(cur: seq<Item>, e: nat, queue: seq<Token>): (r: seq<Loop>) {
    Entered(cur, e) + FrepsOf(queue)
  }

  /** One configuration per announced loop; at most the last one is not decoded yet. */
  ghost predicate Announced(cfg: seq<LoopCfg>, loops: seq<Loop>) {
    && |cfg| == |loops|
    && (forall i :: 0 <= i < |cfg| ==> cfg[i].pc == loops[i].frep.pc)
    && (forall i :: 0 <= i < |cfg| && cfg[i].bounds.Some? ==> cfg[i].bounds.value == BoundsOf(loops[i]))
    && (forall i :: 0 <= i < |cfg| - 1 ==> cfg[i].bounds.Some?)
  }

  ghost predicate Mirrors(insns: seq<Insn>, queue: seq<Token>) {
    |insns| == |queue| && forall i :: 0 <= i < |queue| ==> insns[i] == Encode(queue[i])
  }

  lemma {:induction false} MirrorsRemove(insns: seq<Insn>, queue: seq<Token>, k: nat)
    requires Mirrors(insns, queue) && k < |insns|
    ensures |queue| == |insns| && insns[k] == Encode(queue[k])
    ensures Mirrors(RemoveAt(insns, k), RemoveAt(queue, k))
  {}

  ghost predicate Active(cur: seq<Item>, e: nat, a: int, cfg: seq<LoopCfg>, rd: nat) {
    if e == 0 then a == -1 && rd == 0 && Idle(cfg, 0) && forall i :: 0 <= i < |cfg| ==> cfg[i].basePtr == 0
    else cur != [] && cur[0].Repeat? && InNest(cur[0].loop, e, a, cfg, rd)
  }

  ghost function Future(cur: seq<Item>, e: nat, a: int, cfg: seq<LoopCfg>, rd: nat): (r: seq<Issue>)
    requires Active(cur, e, a, cfg, rd)
  {
    if e == 0 then ProgramIssues(cur) else NestRemaining(cur[0].loop, a, cfg) + ProgramIssues(cur[1..])
  }

  ghost predicate Queued(cur: seq<Item>, e: nat, a: int, cfg: seq<LoopCfg>, rd: nat, queue: seq<Token>, unread: seq<Token>) {
    && WellFormedProgram(cur)
    && Active(cur, e, a, cfg, rd)
    && queue + unread == Residual(cur, e)
    && Announced(cfg, OpenLoops(cur, e, queue))
  }

  /** At the start of a nested loop whose FREP is queued, the read pointer is on that FREP. */
  lemma {:induction false} FrepAtReadPointer(l: Loop, e: nat, a: int, cfg: seq<LoopCfg>, rd: nat)
    requires InNest(l, e, a, cfg, rd)
    requires AtEntry(Levels(l)[a], cfg[a].iterIdx, cfg[a].instIdx)
    ensures e == a + 1 < |Levels(l)| && rd == Base(l, e)
  {
    hide Remaining, Ops, Levels, Base, WellFormed;
    NextLevel(l, a);
  }

  /** Elsewhere it is on the instruction that the active loop issues next. */
  lemma {:induction false} PlainAtReadPointer(l: Loop, e: nat, a: int, cfg: seq<LoopCfg>, rd: nat)
    requires InNest(l, e, a, cfg, rd)
    requires !AtEntry(Levels(l)[a], cfg[a].iterIdx, cfg[a].instIdx)
    ensures rd < |BodyTokens(l.body, e - 1)|
    ensures BodyTokens(l.body, e - 1)[rd] == Plain(Ops(Levels(l)[a])[cfg[a].instIdx])
  {
    hide Remaining, Ops, Levels, Base, WellFormed;
    NextLevel(l, a);
    OpOfLevel(l, a, cfg[a].instIdx);
    PlainBefore(l, e, rd);
  }

  /** Lines 87 to 90, for the outermost loop of the next nest. */
  lemma {:induction false} PopOutermost(cur: seq<Item>, cfg: seq<LoopCfg>, queue: seq<Token>, unread: seq<Token>)
    requires Queued(cur, 0, -1, cfg, 0, queue, unread)
    requires queue != [] && queue[0].Frep?
    requires |cfg| > 0 && cfg[0].bounds.Some?
    ensures Queued(cur, 1, 0, cfg, 0, queue[1..], unread)
    ensures Future(cur, 1, 0, cfg, 0) == Future(cur, 0, -1, cfg, 0)
  {
    hide FrepsOf, Levels, BodyTokens, Sequenced, InNest, NestRemaining, Residual, OpenLoops, ProgramIssues, Announced;
    hide WellFormed;
    var l := queue[0].loop;
    PopToken(cur, queue, unread);
    FirstFrep(queue, 0);
    assert RemoveAt(queue, 0) == queue[1..];
    OpenLoopsEntered(cur, l, queue);
    AnnouncedFirst(cur, cfg, queue);
    EnterNest(l, cfg);
    IssuesOfNest(cur, l);
  }

  /** The queued FREP is that of the next item. */
  lemma {:induction false} PopToken(cur: seq<Item>, queue: seq<Token>, unread: seq<Token>)
    requires queue != [] && queue[0].Frep? && queue + unread == Residual(cur, 0)
    ensures cur != [] && cur[0] == Repeat(queue[0].loop) && queue[1..] + unread == Residual(cur, 1)
  {
    hide BodyTokens, ProgramTokens;
    var t := queue + unread;
    assert t[0] == queue[0] && t[1..] == queue[1..] + unread;
    NonEmptyTokens(cur);
    FirstToken(cur, cur[0]);
  }

  lemma {:induction false} NonEmptyTokens(cur: seq<Item>)
    requires ProgramTokens(cur) != []
    ensures cur != []
  {}

  lemma {:induction false} FirstToken(cur: seq<Item>, item: Item)
    requires cur != [] && cur[0] == item
    ensures item.Pass? ==> ProgramTokens(cur) == [Plain(item.op)] + ProgramTokens(cur[1..])
    ensures item.Repeat? ==>
      ProgramTokens(cur) == [Frep(item.loop)] + (BodyTokens(item.loop.body, 0) + ProgramTokens(cur[1..]))
  {
    hide BodyTokens;
    assert ProgramTokens(cur) == ItemTokens(item) + ProgramTokens(cur[1..]);
    hide ProgramTokens;
    if item.Repeat? {
      ConcatAssoc([Frep(item.loop)], BodyTokens(item.loop.body, 0), ProgramTokens(cur[1..]));
    }
  }

  lemma {:induction false} AnnouncedFirst(cur: seq<Item>, cfg: seq<LoopCfg>, queue: seq<Token>)
    requires queue != [] && queue[0].Frep? && FrepsOf(queue) == [queue[0].loop] + FrepsOf(queue[1..])
    requires Announced(cfg, OpenLoops(cur, 0, queue)) && |cfg| > 0 && cfg[0].bounds.Some?
    ensures cfg[0].bounds == Some(BoundsOf(queue[0].loop)) && cfg[0].pc == queue[0].loop.frep.pc
  {
    hide FrepsOf, Levels;
    assert OpenLoops(cur, 0, queue)[0] == queue[0].loop;
  }

  lemma {:induction false} IssuesOfNest(cur: seq<Item>, l: Loop)
    requires cur != [] && cur[0] == Repeat(l)
    ensures ProgramIssues(cur) == Sequenced(l) + ProgramIssues(cur[1..])
  {
    hide Sequenced;
  }

  lemma {:induction false} OpenLoopsEntered(cur: seq<Item>, l: Loop, queue: seq<Token>)
    requires cur != [] && cur[0] == Repeat(l)
    requires queue != [] && FrepsOf(queue) == [l] + FrepsOf(queue[1..])
    ensures OpenLoops(cur, 0, queue) == OpenLoops(cur, 1, queue[1..])
  {
    hide FrepsOf;
    assert Entered(cur, 1) == [l];
  }

  /** Lines 87 to 90, for a nested loop. */
  lemma {:induction false} PopNested(cur: seq<Item>, e: nat, a: int, cfg: seq<LoopCfg>, rd: nat,
                                     queue: seq<Token>, unread: seq<Token>)
    requires Queued(cur, e, a, cfg, rd, queue, unread) && e > 0
    requires rd < |queue| && queue[rd].Frep?
    requires e < |cfg| && cfg[e].bounds.Some?
    ensures a + 1 == e
    ensures var cfg' := cfg[e := cfg[e].(basePtr := rd)];
      && Queued(cur, e + 1, a + 1, cfg', rd, RemoveAt(queue, rd), unread)
      && Future(cur, e + 1, a + 1, cfg', rd) == Future(cur, e, a, cfg, rd)
  {
    hide FrepsOf, Levels, BodyTokens, Base, InNest, NestRemaining, WellFormed, ProgramTokens, ProgramIssues;
    var (l, cfg') := (cur[0].loop, cfg[e := cfg[e].(basePtr := rd)]);
    var rest := ProgramTokens(cur[1..]);
    assert queue[rd] == (queue + unread)[rd];
    FrepMeansEntry(l, e, a, cfg, rd, rest);
    NestedFrepQueued(l, e, queue, unread, rest);
    AnnouncePopped(l, e, cfg, FrepsOf(queue), FrepsOf(RemoveAt(queue, rd)), rd);
    EnterNextLevel(l, e, a, cfg, rd);
  }

  lemma {:induction false} AnnouncePopped(l: Loop, e: nat, cfg: seq<LoopCfg>, q: seq<Loop>, q': seq<Loop>, rd: nat)
    requires e < |Levels(l)| && q == [Levels(l)[e]] + q'
    requires Announced(cfg, Levels(l)[..e] + q)
    ensures (Levels(l)[..e] + q)[e] == Levels(l)[e]
    ensures e < |cfg| && Announced(cfg[e := cfg[e].(basePtr := rd)], Levels(l)[..e + 1] + q')
  {
    assert Levels(l)[..e + 1] + q' == Levels(l)[..e] + q;
  }

  lemma {:induction false} FrepMeansEntry(l: Loop, e: nat, a: int, cfg: seq<LoopCfg>, rd: nat, rest: seq<Token>)
    requires InNest(l, e, a, cfg, rd)
    requires rd < |BodyTokens(l.body, e - 1) + rest| && (BodyTokens(l.body, e - 1) + rest)[rd].Frep?
    ensures e == a + 1 < |Levels(l)| && rd == Base(l, e)
  {
    hide Remaining, Ops, Levels, Base, WellFormed;
    if AtEntry(Levels(l)[a], cfg[a].iterIdx, cfg[a].instIdx) {
      FrepAtReadPointer(l, e, a, cfg, rd);
    } else {
      PlainAtReadPointer(l, e, a, cfg, rd);
      assert false;
    }
  }

  /** The FREP of level `e` is the first one queued. */
  lemma {:induction false} NestedFrepQueued(l: Loop, e: nat, queue: seq<Token>, unread: seq<Token>, rest: seq<Token>)
    requires WellFormed(l) && 1 <= e < |Levels(l)|
    requires queue + unread == BodyTokens(l.body, e - 1) + rest
    requires Base(l, e) < |queue|
    ensures RemoveAt(queue, Base(l, e)) + unread == BodyTokens(l.body, e) + rest
    ensures FrepsOf(queue) == [Levels(l)[e]] + FrepsOf(RemoveAt(queue, Base(l, e)))
  {
    var (t, rd) := (BodyTokens(l.body, e - 1), Base(l, e));
    NextFrep(l, e);
    assert queue[rd] == (queue + unread)[rd] == t[rd];
    forall i | 0 <= i < rd ensures queue[i].Plain? {
      PlainBefore(l, e, i);
      assert queue[i] == (queue + unread)[i] == t[i];
    }
    FirstFrep(queue, rd);
    RemoveInPrefix(queue, unread, rd);
    RemoveInPrefix(t, rest, rd);
  }

  lemma RemoveInPrefix<T>(s: seq<T>, t: seq<T>, k: nat)
    requires k < |s|
    ensures RemoveAt(s, k) + t == RemoveAt(s + t, k)
  {
  }

  /** Lines 156 to 160: the finished nest leaves the queue. */
  lemma {:induction false} DropNest(cur: seq<Item>, l: Loop, e: nat, cfg: seq<LoopCfg>, r: seq<LoopCfg>,
                                    queue: seq<Token>, unread: seq<Token>)
    requires WellFormedProgram(cur) && cur != [] && cur[0] == Repeat(l) && e == |Levels(l)|
    requires forall i :: e <= i < |cfg| ==> cfg[i].basePtr == 0
    requires queue + unread == Residual(cur, e)
    requires Announced(cfg, OpenLoops(cur, e, queue))
    requires Len(l) <= |queue|
    requires SameLoops(cfg, r) && Idle(r, 0)
    ensures e <= |r| && Queued(cur[1..], 0, -1, r[e..], 0, queue[Len(l)..], unread)
  {
    hide BodyTokens, ProgramTokens, FrepsOf, Ops, Levels, BoundsOf;
    AllEntered(l);
    DropPlains(queue, unread, Ops(l), ProgramTokens(cur[1..]));
    assert OpenLoops(cur, e, queue)[e..] == FrepsOf(queue);
    assert OpenLoops(cur[1..], 0, queue[Len(l)..]) == FrepsOf(queue);
  }

  lemma {:induction false} DropPlains(queue: seq<Token>, unread: seq<Token>, ops: seq<Op>, rest: seq<Token>)
    requires queue + unread == Plains(ops) + rest && |ops| <= |queue|
    ensures queue[|ops|..] + unread == rest
    ensures FrepsOf(queue) == FrepsOf(queue[|ops|..])
  {
    hide FrepsOf;
    var (p, q) := (queue[..|ops|], queue[|ops|..]);
    assert queue == p + q;
    assert forall i :: 0 <= i < |ops| ==> p[i] == (queue + unread)[i] == Plains(ops)[i];
    assert q + unread == (queue + unread)[|ops|..];
    FrepsOfPlain(p);
    FrepsOfConcat(p, q);
  }

  // ----- The emulation

  class Sequencer {
    var loopIdx: int
    var loopCfg: seq<LoopCfg>
    var nestDepth: nat
    var insns: seq<Insn>
    var rdPtr: nat

    /** The program that the core offloads, of which `done` items were issued completely. */
    ghost const prog: seq<Item>
    ghost var done: nat
    /** Its tokens: pushed ones, pushed ones that are still queued, and those still to be pushed. */
    ghost var pushed: seq<Token>
    ghost var queue: seq<Token>
    ghost var unread: seq<Token>
    /** The issues made so far. */
    ghost var log: seq<Issue>

    ghost predicate Valid()
      reads this
    {
      && WellFormedProgram(prog)
      && done <= |prog|
      && pushed + unread == ProgramTokens(prog)
      && Mirrors(insns, queue)
      && Queued(prog[done..], nestDepth, loopIdx, loopCfg, rdPtr, queue, unread)
      && log + Future(prog[done..], nestDepth, loopIdx, loopCfg, rdPtr) == ProgramIssues(prog)
    }

    /** The next instruction is queued, and the FREPs in front of it were decoded. */
    ghost predicate NextReady()
      reads this
    {
      exists j :: ReadyAt(j)
    }

    ghost predicate ReadyAt(j: nat)
      reads this
    {
      && rdPtr <= j < |insns| && !insns[j].isFrep
      && (forall i :: rdPtr <= i < j ==> insns[i].isFrep)
      && nestDepth + (j - rdPtr) <= |loopCfg|
      && (forall i :: 0 <= i < nestDepth + (j - rdPtr) ==> loopCfg[i].bounds.Some?)
    }

    constructor (ghost prog: seq<Item>)
      requires WellFormedProgram(prog)
      ensures Valid()
      ensures this.prog == prog && pushed == [] && log == []
    {
      loopIdx, loopCfg, nestDepth, insns, rdPtr := -1, [], 0, [], 0;
      this.prog := prog;
      done, pushed, queue, unread, log := 0, [], [], ProgramTokens(prog), [];
      new;
      assert prog[0..] == prog;
    }

    /** The core offloads the next token.  An FREP is offloaded once the one before it was decoded. */
    method PushInsn(insn: Insn)
      requires Valid()
      requires unread != [] && insn == Encode(unread[0])
      requires insn.isFrep && loopCfg != [] ==> loopCfg[|loopCfg| - 1].bounds.Some?
      modifies this
      ensures Valid()
      ensures pushed == old(pushed) + [old(unread)[0]]
      ensures log == old(log)
    {
      hide Active, Future, InNest, NestRemaining, Located, ProgramTokens, ProgramIssues;
      ghost var t := unread[0];
      ghost var cfg0 := loopCfg;
      PushKeepsQueued(prog[done..], nestDepth, loopIdx, cfg0, rdPtr, queue, unread);
      assert (pushed + [t]) + unread[1..] == pushed + unread;
      insns := insns + [insn];
      if insn.isFrep {
        loopCfg := loopCfg + [LoopCfg(insn.pc, 0, 0, 0, None)];
      }
      queue, pushed, unread := queue + [t], pushed + [t], unread[1..];
    }

    /** The loop announced by the last FREP that was pushed and whose nest is not finished. */
    ghost function LastAnnounced(): (l: Loop)
      requires Valid() && loopCfg != []
      reads this
    {
      OpenLoops(prog[done..], nestDepth, queue)[|loopCfg| - 1]
    }

    /** The sequencer's trace line supplies the bounds of the last FREP. */
    method DecodeFrep(bounds: Bounds) returns (pc: int, issues: int)
      requires Valid() && loopCfg != []
      requires bounds == BoundsOf(LastAnnounced())
      modifies `loopCfg
      ensures Valid()
      ensures |loopCfg| == |old(loopCfg)| && loopCfg[|loopCfg| - 1].bounds == Some(bounds)
      ensures pc == old(LastAnnounced()).frep.pc
      ensures issues == AnnotatedIssues(old(LastAnnounced()))
    {
      hide Queued, Future, ProgramTokens, ProgramIssues, OpenLoops;
      var k := |loopCfg| - 1;
      DecodeKeepsQueued(prog[done..], nestDepth, loopIdx, loopCfg, rdPtr, queue, unread);
      loopCfg := loopCfg[k := loopCfg[k].(bounds := Some(bounds))];
      pc := loopCfg[k].pc;
      issues := (bounds.maxInst + 1) * (bounds.maxIter + 1);
    }

    /** Lines 85 to 92: enter the loops whose FREPs are at the read pointer. */
    method PopFreps()
      requires Valid() && NextReady()
      modifies this
      ensures Valid()
      ensures rdPtr < |insns| && !insns[rdPtr].isFrep
      ensures unchanged(`pushed, `unread, `log, `done)
    {
      hide Valid;
      ghost var j: nat :| ReadyAt(j);
      while insns[rdPtr].isFrep
        invariant Valid() && ReadyAt(j)
        invariant unchanged(`pushed, `unread, `log, `done)
        decreases j - rdPtr
      {
        EnterFrep(j);
        j := j - 1;
      }
    }

    /** Lines 87 to 90. */
    method EnterFrep(ghost j: nat)
      requires Valid() && ReadyAt(j) && insns[rdPtr].isFrep
      modifies this
      ensures Valid() && ReadyAt(j - 1)
      ensures rdPtr == old(rdPtr)
      ensures unchanged(`pushed, `unread, `log, `done)
    {
      hide Queued, Future, ProgramTokens, ProgramIssues;
      PopKeepsQueued(prog[done..], nestDepth, loopIdx, loopCfg, rdPtr, queue, unread);
      loopIdx := loopIdx + 1;
      nestDepth := nestDepth + 1;
      insns := RemoveAt(insns, rdPtr);
      queue := RemoveAt(queue, rdPtr);
      loopCfg := loopCfg[loopIdx := loopCfg[loopIdx].(basePtr := rdPtr)];
    }

    /** One issue. */
    method Emulate() returns (issue: Issue)
      requires Valid() && NextReady()
      modifies this
      ensures Valid()
      ensures log == old(log) + [issue]
      ensures |old(log)| < |ProgramIssues(prog)| && issue == ProgramIssues(prog)[|old(log)|]
      ensures pushed == old(pushed)
    {
      PopFreps();
      if loopIdx > -1 {
        issue := IssueInNest();
      } else {
        issue := IssuePassThrough();
      }
      assert (log + Future(prog[done..], nestDepth, loopIdx, loopCfg, rdPtr))[|old(log)|] == issue;
    }

    /** Lines 182 to 185. */
    method IssuePassThrough() returns (issue: Issue)
      requires Valid() && loopIdx == -1
      requires rdPtr < |insns| && !insns[rdPtr].isFrep
      modifies this
      ensures Valid()
      ensures log == old(log) + [issue] && pushed == old(pushed)
    {
      hide Queued, Future, ProgramTokens, ProgramIssues, Mirrors, WellFormedProgram, RemoveAt, Active;
      MirrorsRemove(insns, queue, rdPtr);
      var insn := insns[rdPtr];
      issue := Issue(Op(insn.pc, insn.sec), None);
      PassKeepsQueued(prog[done..], nestDepth, loopCfg, rdPtr, queue, unread);
      assert prog[done..][1..] == prog[done + 1..];
      insns := RemoveAt(insns, rdPtr);
      queue := RemoveAt(queue, 0);
      done := done + 1;
      ghost var log0 := log;
      log := log + [issue];
      ConcatAssoc(log0, [issue], Future(prog[done..], nestDepth, loopIdx, loopCfg, rdPtr));
    }

    /** Lines 95 to 180. */
    method IssueInNest() returns (issue: Issue)
      requires Valid() && loopIdx > -1
      requires rdPtr < |insns| && !insns[rdPtr].isFrep
      modifies this
      ensures Valid()
      ensures log == old(log) + [issue] && pushed == old(pushed)
    {
      hide Queued, Future, ProgramTokens, ProgramIssues, Levels, Ops, Stepped, InNest;
      ghost var cur := prog[done..];
      NestIsActive(cur, nestDepth, loopIdx, loopCfg, rdPtr, queue, unread);
      var (insn, active, total) := (insns[rdPtr], loopCfg[loopIdx], loopCfg[0].bounds.value.maxInst + 1);
      issue := Issue(Op(insn.pc, insn.sec), Some(Status(active.pc, active.iterIdx, active.instIdx)));
      var cfg, b, rd := StepNest(loopCfg, loopIdx, rdPtr, cur[0].loop, nestDepth);
      StepKeepsQueued(cur, nestDepth, loopIdx, loopCfg, rdPtr, cfg, b, rd, queue, unread);
      assert cur[1..] == prog[done + 1..];
      loopCfg, loopIdx, rdPtr := cfg, b, rd;
      log := log + [issue];
      if loopIdx == -1 {
        insns, queue := insns[total..], queue[total..];
        loopCfg := loopCfg[nestDepth..];
        nestDepth := 0;
        rdPtr := 0;
        done := done + 1;
      }
    }

    /** Whether the trace ends with instructions that were not, or not completely, issued. */
    method Terminate() returns (warn: bool)
      requires Valid()
      ensures !warn <==> exists n :: 0 <= n <= |prog| && AllIssued(prog, n, pushed, log)
      ensures !warn ==> exists n :: 0 <= n <= |prog| && AllIssued(prog, n, pushed, log)
                                    && (log == ProgramUnrolled(prog[..n]) <==> ReentrantProgram(prog[..n]))
                                    && (|log| == |ProgramUnrolled(prog[..n])| <==> LosslessProgram(prog[..n]))
    {
      TerminatesIffAllIssued(prog, done, nestDepth, loopIdx, loopCfg, rdPtr, pushed, queue, unread, log);
      warn := loopCfg != [] || insns != [];
      if !warn {
        ghost var n :| 0 <= n <= |prog| && AllIssued(prog, n, pushed, log);
        SilenceIffReentrant(prog, n, pushed, log);
      }
    }
  }

  /** The pushed tokens are those of the first `n` items, and these were issued completely. */
  ghost predicate AllIssued(prog: seq<Item>, n: nat, pushed: seq<Token>, log: seq<Issue>)
    requires n <= |prog|
  {
    pushed == ProgramTokens(prog[..n]) && log == ProgramIssues(prog[..n])
  }

  /** Everything that was pushed was issued its full number of times, without a warning, exactly when no
      nest loses an issue; with the right loop coordinates exactly when every nest is reentrant. */
  lemma {:induction false} SilenceIffReentrant(prog: seq<Item>, n: nat, pushed: seq<Token>, log: seq<Issue>)
    requires WellFormedProgram(prog) && n <= |prog| && AllIssued(prog, n, pushed, log)
    ensures log == ProgramUnrolled(prog[..n]) <==> ReentrantProgram(prog[..n])
    ensures |log| == |ProgramUnrolled(prog[..n])| <==> LosslessProgram(prog[..n])
  {
    hide ProgramIssues, ProgramUnrolled, ReentrantProgram, LosslessProgram;
    ProgramRightIffReentrant(prog[..n]);
    ProgramLosslessIff(prog[..n]);
  }

  lemma {:induction false} SplitProgram(prog: seq<Item>, n: nat)
    requires n <= |prog|
    ensures ProgramTokens(prog) == ProgramTokens(prog[..n]) + ProgramTokens(prog[n..])
    ensures ProgramIssues(prog) == ProgramIssues(prog[..n]) + ProgramIssues(prog[n..])
  {
    SplitTokens(prog, n);
    SplitIssues(prog, n);
  }

  lemma {:induction false} SplitTokens(prog: seq<Item>, n: nat)
    requires n <= |prog|
    ensures ProgramTokens(prog) == ProgramTokens(prog[..n]) + ProgramTokens(prog[n..])
  {
    hide ItemTokens;
    if n == 0 {
      assert prog[n..] == prog;
    } else {
      SplitTokens(prog[1..], n - 1);
      assert prog[..n][1..] == prog[1..][..n - 1] && prog[n..] == prog[1..][n - 1..] && prog[..n][0] == prog[0];
      ConcatAssoc(ItemTokens(prog[0]), ProgramTokens(prog[..n][1..]), ProgramTokens(prog[n..]));
    }
  }

  lemma {:induction false} SplitIssues(prog: seq<Item>, n: nat)
    requires n <= |prog|
    ensures ProgramIssues(prog) == ProgramIssues(prog[..n]) + ProgramIssues(prog[n..])
  {
    hide ItemIssues;
    if n == 0 {
      assert prog[n..] == prog;
    } else {
      SplitIssues(prog[1..], n - 1);
      assert prog[..n][1..] == prog[1..][..n - 1] && prog[n..] == prog[1..][n - 1..] && prog[..n][0] == prog[0];
      ConcatAssoc(ItemIssues(prog[0]), ProgramIssues(prog[..n][1..]), ProgramIssues(prog[n..]));
    }
  }

  /** Longer programs have more tokens and more issues. */
  lemma {:induction false} ProgramGrows(prog: seq<Item>, m: nat, n: nat)
    requires WellFormedProgram(prog) && m < n <= |prog|
    ensures |ProgramTokens(prog[n..])| < |ProgramTokens(prog[m..])|
    ensures |ProgramIssues(prog[n..])| < |ProgramIssues(prog[m..])|
    decreases n - m
  {
    var cur := prog[m..];
    assert cur[0] == prog[m] && cur[1..] == prog[m + 1..];
    if cur[0].Repeat? {
      SequencedNonEmpty(cur[0].loop);
    }
    if m + 1 < n {
      ProgramGrows(prog, m + 1, n);
    }
  }

  lemma {:induction false} SequencedNonEmpty(l: Loop)
    requires WellFormed(l)
    ensures |Sequenced(l)| > 0
  {
    assert Sequenced(l) == SequencedIteration(l, 0) + SequencedFrom(l, 1);
    if l.body.Nested? {
      SequencedNonEmpty(l.body.inner);
    }
  }

  /** Removing FREPs from the queue makes it shorter. */
  lemma {:induction false} FewerTokens(b: Block, e: nat)
    ensures |BodyTokens(b, e)| <= |BodyTokens(b, 0)|
  {
    if b.Nested? && e > 0 {
      FewerTokens(b.inner.body, e - 1);
    }
  }

  /** A nest that is active still has something to issue. */
  lemma {:induction false} ActiveNestOwes(l: Loop, e: nat, a: int, cfg: seq<LoopCfg>, rd: nat)
    requires InNest(l, e, a, cfg, rd)
    ensures |NestRemaining(l, a, cfg)| > 0
  {
    hide Remaining, Ops, Levels, Base, WellFormed;
    var lv := Levels(l);
    if AtEntry(lv[a], cfg[a].iterIdx, cfg[a].instIdx) {
      NextLevel(l, a);
      RemainingEnter(lv[a], cfg[a].iterIdx);
      RemainingAtStart(lv[a + 1]);
      SequencedNonEmpty(lv[a + 1]);
    } else {
      IssueOne(lv, a, cfg);
    }
  }

  lemma {:induction false} TerminatesIffAllIssued(prog: seq<Item>, done: nat, e: nat, a: int, cfg: seq<LoopCfg>, rd: nat,
      pushed: seq<Token>, queue: seq<Token>, unread: seq<Token>, log: seq<Issue>)
    requires WellFormedProgram(prog) && done <= |prog|
    requires pushed + unread == ProgramTokens(prog)
    requires Queued(prog[done..], e, a, cfg, rd, queue, unread)
    requires log + Future(prog[done..], e, a, cfg, rd) == ProgramIssues(prog)
    ensures cfg == [] && queue == [] <==> exists n :: 0 <= n <= |prog| && AllIssued(prog, n, pushed, log)
  {
    hide InNest, NestRemaining, BodyTokens, FrepsOf, Levels, ProgramTokens, ProgramIssues;
    var cur := prog[done..];
    SplitProgram(prog, done);
    ActiveBounds(cur, e, a, cfg, rd);
    if cfg == [] && queue == [] {
      assert queue + unread == unread;
      ConcatCancel(pushed, ProgramTokens(prog[..done]), unread);
      ConcatCancel(log, ProgramIssues(prog[..done]), ProgramIssues(cur));
      assert AllIssued(prog, done, pushed, log);
    }
    forall n | 0 <= n <= |prog| && AllIssued(prog, n, pushed, log) ensures cfg == [] && queue == [] {
      SplitProgram(prog, n);
      assert |unread| == |ProgramTokens(prog[n..])|;
      assert |Future(cur, e, a, cfg, rd)| == |ProgramIssues(prog[n..])|;
      if e == 0 {
        if n < done { ProgramGrows(prog, n, done); }
        if done < n { ProgramGrows(prog, done, n); }
        assert queue == [];
        NothingQueued();
      } else {
        ActiveNestUnread(prog, done, e, a, cfg, rd, queue, unread);
        if n < done { ProgramGrows(prog, n, done); }
        if done + 1 < n { ProgramGrows(prog, done + 1, n); }
        assert false;
      }
    }
  }

  lemma NothingQueued()
    ensures FrepsOf([]) == []
  {
  }

  /** In an active nest more was pushed than the items before it, and less was issued than up to its end. */
  lemma {:induction false} ActiveNestUnread(prog: seq<Item>, done: nat, e: nat, a: int, cfg: seq<LoopCfg>, rd: nat,
      queue: seq<Token>, unread: seq<Token>)
    requires done <= |prog| && e > 0
    requires Queued(prog[done..], e, a, cfg, rd, queue, unread)
    ensures done < |prog|
    ensures |unread| < |ProgramTokens(prog[done..])|
    ensures |Future(prog[done..], e, a, cfg, rd)| > |ProgramIssues(prog[done + 1..])|
  {
    hide InNest, NestRemaining, BodyTokens, FrepsOf, Levels;
    var cur := prog[done..];
    assert cur[1..] == prog[done + 1..];
    ActiveNestOwes(cur[0].loop, e, a, cfg, rd);
    FewerTokens(cur[0].loop.body, e - 1);
    assert |queue + unread| == |Residual(cur, e)|;
  }

  lemma {:induction false} DecodeKeepsQueued(cur: seq<Item>, e: nat, a: int, cfg: seq<LoopCfg>, rd: nat,
                                             queue: seq<Token>, unread: seq<Token>)
    requires Queued(cur, e, a, cfg, rd, queue, unread) && cfg != []
    ensures |OpenLoops(cur, e, queue)| == |cfg|
    ensures var k := |cfg| - 1;
      var r := cfg[k := cfg[k].(bounds := Some(BoundsOf(OpenLoops(cur, e, queue)[k])))];
      && Queued(cur, e, a, r, rd, queue, unread)
      && Future(cur, e, a, r, rd) == Future(cur, e, a, cfg, rd)
      && cfg[k].pc == OpenLoops(cur, e, queue)[k].frep.pc
  {
    hide Future, Levels, FrepsOf, ProgramTokens, BodyTokens, InNest, OpenLoops;
    ActiveBounds(cur, e, a, cfg, rd);
    DecodeEntered(cur, e, a, cfg, rd);
    var k := |cfg| - 1;
    var r := cfg[k := cfg[k].(bounds := Some(BoundsOf(OpenLoops(cur, e, queue)[k])))];
    if k < e {
      assert r == cfg;
    } else {
      ActiveFrame(cur, e, a, cfg, r, rd);
    }
  }

  lemma {:induction false} DecodeEntered(cur: seq<Item>, e: nat, a: int, cfg: seq<LoopCfg>, rd: nat)
    requires Active(cur, e, a, cfg, rd)
    ensures e <= |cfg| && forall i :: 0 <= i < e ==> cfg[i].bounds.Some?
  {
  }

  lemma {:induction false} PopKeepsQueued(cur: seq<Item>, e: nat, a: int, cfg: seq<LoopCfg>, rd: nat,
                                          queue: seq<Token>, unread: seq<Token>)
    requires Queued(cur, e, a, cfg, rd, queue, unread)
    requires rd < |queue| && queue[rd].Frep?
    requires e < |cfg| && cfg[e].bounds.Some?
    ensures a + 1 == e
    ensures var cfg' := cfg[e := cfg[e].(basePtr := rd)];
      && Queued(cur, e + 1, e, cfg', rd, RemoveAt(queue, rd), unread)
      && Future(cur, e + 1, e, cfg', rd) == Future(cur, e, a, cfg, rd)
  {
    hide InNest, Future, Levels, FrepsOf, ProgramTokens, BodyTokens;
    if e == 0 {
      PopOutermost(cur, cfg, queue, unread);
      assert cfg[0 := cfg[0].(basePtr := 0)] == cfg;
      assert RemoveAt(queue, 0) == queue[1..];
    } else {
      PopNested(cur, e, a, cfg, rd, queue, unread);
    }
  }

  lemma {:induction false} PassKeepsQueued(cur: seq<Item>, e: nat, cfg: seq<LoopCfg>, rd: nat, queue: seq<Token>, unread: seq<Token>)
    requires Queued(cur, e, -1, cfg, rd, queue, unread)
    requires rd < |queue| && queue[rd].Plain?
    ensures e == 0 && rd == 0 && cur != [] && Active(cur[1..], e, -1, cfg, rd)
    ensures Queued(cur[1..], e, -1, cfg, rd, RemoveAt(queue, rd), unread)
    ensures Future(cur, e, -1, cfg, rd) == [Issue(queue[rd].op, None)] + Future(cur[1..], e, -1, cfg, rd)
  {
    hide FrepsOf, Levels, BodyTokens, Sequenced;
    assert cur[0] == Pass(queue[0].op) by {
      assert Residual(cur, 0)[0] == (queue + unread)[0] == queue[0];
    }
    DropPlains(queue, unread, [queue[0].op], ProgramTokens(cur[1..]));
    assert RemoveAt(queue, 0) == queue[1..];
  }

  lemma {:induction false} NestIsActive(cur: seq<Item>, e: nat, a: int, cfg: seq<LoopCfg>, rd: nat,
                                        queue: seq<Token>, unread: seq<Token>)
    requires Queued(cur, e, a, cfg, rd, queue, unread) && a > -1
    requires rd < |queue| && queue[rd].Plain?
    ensures e > 0 && cur != [] && cur[0].Repeat? && InNest(cur[0].loop, e, a, cfg, rd)
    ensures a < |Levels(cur[0].loop)| && a < |cfg| && cfg[a].instIdx < Len(Levels(cur[0].loop)[a])
    ensures var m := Levels(cur[0].loop)[a];
      && !AtEntry(m, cfg[a].iterIdx, cfg[a].instIdx)
      && queue[rd] == Plain(Ops(m)[cfg[a].instIdx])
      && cfg[a].pc == m.frep.pc
      && cfg[0].bounds == Some(BoundsOf(cur[0].loop))
  {
    PlainInNest(cur, e, a, cfg, rd, queue, unread);
  }

  lemma {:induction false} PlainInNest(cur: seq<Item>, e: nat, a: int, cfg: seq<LoopCfg>, rd: nat,
                                       queue: seq<Token>, unread: seq<Token>)
    requires Queued(cur, e, a, cfg, rd, queue, unread) && e > 0
    requires rd < |queue| && queue[rd].Plain?
    ensures var m := Levels(cur[0].loop)[a];
      && !AtEntry(m, cfg[a].iterIdx, cfg[a].instIdx)
      && queue[rd] == Plain(Ops(m)[cfg[a].instIdx])
      && cfg[a].pc == m.frep.pc
      && cfg[0].bounds == Some(BoundsOf(cur[0].loop))
  {
    hide Levels, FrepsOf, ProgramTokens, BodyTokens, Base, WellFormed, Ops;
    var (l, rest) := (cur[0].loop, ProgramTokens(cur[1..]));
    assert queue[rd] == (queue + unread)[rd] == (BodyTokens(l.body, e - 1) + rest)[rd];
    if AtEntry(Levels(l)[a], cfg[a].iterIdx, cfg[a].instIdx) {
      FrepAtReadPointer(l, e, a, cfg, rd);
      NextFrep(l, e);
      assert false;
    } else {
      PlainAtReadPointer(l, e, a, cfg, rd);
    }
  }

  lemma {:induction false} StepKeepsQueued(cur: seq<Item>, e: nat, a: int, cfg: seq<LoopCfg>, rd: nat,
                                           r: seq<LoopCfg>, b: int, rd': nat, queue: seq<Token>, unread: seq<Token>)
    requires Queued(cur, e, a, cfg, rd, queue, unread) && e > 0
    requires a >= 0 && rd < |queue|
    requires InNest(cur[0].loop, e, a, cfg, rd) && Stepped(cur[0].loop, e, cfg, a, rd, r, b, rd')
    ensures SameLoops(cfg, r) && -1 <= b
    ensures var issue := IssueAt(Levels(cur[0].loop)[a], cfg[a]);
      && (b >= 0 ==> Queued(cur, e, b, r, rd', queue, unread)
                     && Future(cur, e, a, cfg, rd) == [issue] + Future(cur, e, b, r, rd'))
      && (b < 0 ==> e <= |r| && Len(cur[0].loop) <= |queue|
                    && Queued(cur[1..], 0, -1, r[e..], 0, queue[Len(cur[0].loop)..], unread)
                    && Future(cur, e, a, cfg, rd) == [issue] + Future(cur[1..], 0, -1, r[e..], 0))
  {
    if b >= 0 {
      StepWithinNest(cur, e, a, cfg, rd, r, b, rd');
    } else {
      StepOutOfNest(cur, e, a, cfg, rd, r, rd', queue, unread);
    }
    hide InNest, NestRemaining, FrepsOf, ProgramTokens, ProgramIssues, BodyTokens, Future, BoundsOf, Levels, Ops;
  }

  lemma {:induction false} StepWithinNest(cur: seq<Item>, e: nat, a: int, cfg: seq<LoopCfg>, rd: nat,
                                          r: seq<LoopCfg>, b: nat, rd': nat)
    requires cur != [] && cur[0].Repeat? && e > 0 && a >= 0
    requires InNest(cur[0].loop, e, a, cfg, rd) && Stepped(cur[0].loop, e, cfg, a, rd, r, b, rd')
    ensures Active(cur, e, b, r, rd')
    ensures Future(cur, e, a, cfg, rd) == [IssueAt(Levels(cur[0].loop)[a], cfg[a])] + Future(cur, e, b, r, rd')
  {
    hide Remaining, Outer, Base, WellFormed, ProgramIssues, Levels, Ops, Linked;
    var l := cur[0].loop;
    HeadOfConcat(NestRemaining(l, a, cfg), IssueAt(Levels(l)[a], cfg[a]), NestRemaining(l, b, r), ProgramIssues(cur[1..]));
  }

  lemma {:induction false} StepOutOfNest(cur: seq<Item>, e: nat, a: int, cfg: seq<LoopCfg>, rd: nat,
                                         r: seq<LoopCfg>, rd': nat, queue: seq<Token>, unread: seq<Token>)
    requires Queued(cur, e, a, cfg, rd, queue, unread) && e > 0
    requires a >= 0 && rd < |queue|
    requires InNest(cur[0].loop, e, a, cfg, rd) && Stepped(cur[0].loop, e, cfg, a, rd, r, -1, rd')
    ensures e <= |r| && Len(cur[0].loop) <= |queue|
    ensures Queued(cur[1..], 0, -1, r[e..], 0, queue[Len(cur[0].loop)..], unread)
    ensures Future(cur, e, a, cfg, rd)
            == [IssueAt(Levels(cur[0].loop)[a], cfg[a])] + Future(cur[1..], 0, -1, r[e..], 0)
  {
    ActiveBounds(cur, e, a, cfg, rd);
    hide InNest, NestRemaining, ProgramIssues, ProgramTokens, BodyTokens, FrepsOf, Levels, Ops, BoundsOf;
    DropNest(cur, cur[0].loop, e, cfg, r, queue, unread);
  }

  ghost function AfterPush(cfg: seq<LoopCfg>, t: Token): (r: seq<LoopCfg>) {
    if t.Frep? then cfg + [LoopCfg(t.loop.frep.pc, 0, 0, 0, None)] else cfg
  }

  lemma {:induction false} PushKeepsQueued(cur: seq<Item>, e: nat, a: int, cfg: seq<LoopCfg>, rd: nat,
                                           queue: seq<Token>, unread: seq<Token>)
    requires Queued(cur, e, a, cfg, rd, queue, unread)
    requires unread != [] && (unread[0].Frep? && cfg != [] ==> cfg[|cfg| - 1].bounds.Some?)
    ensures Queued(cur, e, a, AfterPush(cfg, unread[0]), rd, queue + [unread[0]], unread[1..])
    ensures Future(cur, e, a, AfterPush(cfg, unread[0]), rd) == Future(cur, e, a, cfg, rd)
  {
    hide Active, Future, ProgramTokens, FrepsOf, Levels, BodyTokens, Entered, Announced;
    ActiveBounds(cur, e, a, cfg, rd);
    AnnouncePushed(cfg, Entered(cur, e), queue, unread[0]);
    assert (queue + [unread[0]]) + unread[1..] == queue + unread;
    ActiveFrame(cur, e, a, cfg, AfterPush(cfg, unread[0]), rd);
  }

  lemma {:induction false} AnnouncePushed(cfg: seq<LoopCfg>, entered: seq<Loop>, queue: seq<Token>, t: Token)
    requires Announced(cfg, entered + FrepsOf(queue))
    requires t.Frep? && cfg != [] ==> cfg[|cfg| - 1].bounds.Some?
    ensures Announced(AfterPush(cfg, t), entered + FrepsOf(queue + [t]))
  {
    hide FrepsOf, BoundsOf;
    FrepsOfConcat(queue, [t]);
    if t.Frep? {
      FrepsOfSingle(t.loop);
      assert entered + (FrepsOf(queue) + [t.loop]) == (entered + FrepsOf(queue)) + [t.loop];
    } else {
      FrepsOfPlain([t]);
      assert FrepsOf(queue) + [] == FrepsOf(queue);
    }
  }

  lemma {:induction false} ActiveBounds(cur: seq<Item>, e: nat, a: int, cfg: seq<LoopCfg>, rd: nat)
    requires Active(cur, e, a, cfg, rd)
    ensures -1 <= a < |cfg| || e == 0
    ensures a < e <= |cfg| && (e > 0 ==> cur != [] && cur[0].Repeat? && e <= |Levels(cur[0].loop)|)
    ensures forall i :: e <= i < |cfg| ==> cfg[i].basePtr == 0 && cfg[i].iterIdx == 0 && cfg[i].instIdx == 0
  {
  }

  /** Announcing or decoding a loop that is not entered yet does not disturb the active nest. */
  lemma {:induction false} ActiveFrame(cur: seq<Item>, e: nat, a: int, cfg: seq<LoopCfg>, r: seq<LoopCfg>, rd: nat)
    requires Active(cur, e, a, cfg, rd)
    requires |cfg| <= |r| && e <= |cfg|
    requires forall i :: 0 <= i < e ==> r[i] == cfg[i]
    requires forall i :: e <= i < |r| ==> r[i].basePtr == 0 && r[i].iterIdx == 0 && r[i].instIdx == 0
    ensures Active(cur, e, a, r, rd)
    ensures Future(cur, e, a, r, rd) == Future(cur, e, a, cfg, rd)
  {
    hide Remaining, Ops, Levels, Base, WellFormed;
    if e > 0 {
      var lv := Levels(cur[0].loop);
      forall i | 0 <= i < a ensures Linked(lv, r, i) {
        assert Linked(lv, cfg, i);
      }
      OuterFrame(lv, cfg, r, a - 1);
    }
  }
}
