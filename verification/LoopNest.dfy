/**
 FREP loop nests, the issue stream they stand for, and the issue stream that the
 sequencer emulation produces for them.

 A nest is a chain: the body of a loop is straight-line code with at most one loop
 directly nested in it.  `Unrolled` is the meaning of a nest (each FREP repeats its
 body `maxIter + 1` times).  `Sequenced` is the stream of the emulation, which does not
 re-enter a nested loop that starts on the first instruction of its parent.  The two
 theorems at the end say exactly for which nests the two agree.
 */
module LoopNest {
  import opened Wrappers

  /** A floating-point instruction: its program counter and its trace section. */
  datatype Op = Op(pc: int, sec: int)

  datatype Block =
    | Straight(ops: seq<Op>)
    | Nested(pre: seq<Op>, inner: Loop, post: seq<Op>)

  /** An FREP instruction together with the body that it repeats `maxIter + 1` times. */
  datatype Loop = Loop(frep: Op, maxIter: nat, body: Block)

  /** What the trace reports about the active loop at an issue. */
  datatype Status = Status(pc: int, iterIdx: nat, instIdx: nat)

  datatype Issue = Issue(op: Op, status: Option<Status>)

  /** The distinct instructions of a loop body, nested ones included, FREPs excluded. */
  function Ops(l: Loop): (r: seq<Op>) {
    match l.body
    case Straight(ops) => ops
    case Nested(pre, inner, post) => pre + Ops(inner) + post
  }

  function Len(l: Loop): (r: nat) {
    |Ops(l)|
  }

  /** FREP encodes `max_inst` and `max_iter`, so no body is empty and every loop runs. */
  predicate WellFormed(l: Loop) {
    match l.body
    case Straight(ops) => |ops| > 0
    case Nested(pre, inner, post) => WellFormed(inner)
  }

  lemma WellFormedIsNonEmpty(l: Loop)
    requires WellFormed(l)
    ensures Len(l) > 0
  {
  }

  /** Straight-line code issued by iteration `it` of loop `l`, from body offset `offset` on. */
  function Tagged(l: Loop, it: nat, offset: nat, ops: seq<Op>): (r: seq<Issue>)
    ensures |r| == |ops|
  {
    seq(|ops|, i requires 0 <= i < |ops| => Issue(ops[i], Some(Status(l.frep.pc, it, offset + i))))
  }

  // ----- The meaning of a nest

  function Unrolled(l: Loop): (r: seq<Issue>)
    decreases l, 2, 0
  {
    UnrolledFrom(l, 0)
  }

  /** Iterations `it`, `it + 1`, ..., `maxIter` of loop `l`. */
  function UnrolledFrom(l: Loop, it: nat): (r: seq<Issue>)
    decreases l, 1, l.maxIter + 1 - it
  {
    if it > l.maxIter then [] else UnrolledIteration(l, it) + UnrolledFrom(l, it + 1)
  }

  function UnrolledIteration(l: Loop, it: nat): (r: seq<Issue>)
    decreases l, 0, 0
  {
    match l.body
    case Straight(ops) => Tagged(l, it, 0, ops)
    case Nested(pre, inner, post) =>
      Tagged(l, it, 0, pre) + Unrolled(inner) + Tagged(l, it, |pre| + Len(inner), post)
  }

  // ----- What the emulation issues

  /** Whether iteration `it` of `l` runs the nested loop as a loop. */
  predicate Enters(l: Loop, it: nat) {
    l.body.Nested? && (it == 0 || |l.body.pre| > 0)
  }

  function Sequenced(l: Loop): (r: seq<Issue>)
    decreases l, 2, 0
  {
    SequencedFrom(l, 0)
  }

  function SequencedFrom(l: Loop, it: nat): (r: seq<Issue>)
    decreases l, 1, l.maxIter + 1 - it
  {
    if it > l.maxIter then [] else SequencedIteration(l, it) + SequencedFrom(l, it + 1)
  }

  function SequencedIteration(l: Loop, it: nat): (r: seq<Issue>)
    decreases l, 0, 0
  {
    if Enters(l, it) then
      Tagged(l, it, 0, l.body.pre) + Sequenced(l.body.inner)
      + Tagged(l, it, |l.body.pre| + Len(l.body.inner), l.body.post)
    else
      Tagged(l, it, 0, Ops(l))
  }

  // ----- Exact agreement of the two

  /** No loop that repeats starts with a nested loop. */
  predicate Reentrant(l: Loop) {
    l.body.Nested? ==> (|l.body.pre| > 0 || l.maxIter == 0) && Reentrant(l.body.inner)
  }

  /** Every loop from here inwards runs once. */
  predicate SinglePass(l: Loop) {
    l.maxIter == 0 && (l.body.Nested? ==> SinglePass(l.body.inner))
  }

  /** A repeating loop that starts with a nested loop nests only loops that run once. */
  predicate Lossless(l: Loop) {
    l.body.Nested? ==>
      (|l.body.pre| > 0 || l.maxIter == 0 || SinglePass(l.body.inner)) && Lossless(l.body.inner)
  }

  function OpsOf(s: seq<Issue>): (r: seq<Op>)
    ensures |r| == |s|
  {
    seq(|s|, i requires 0 <= i < |s| => s[i].op)
  }

  lemma OpsOfConcat(s: seq<Issue>, t: seq<Issue>)
    ensures OpsOf(s + t) == OpsOf(s) + OpsOf(t)
  {
  }

  /** The unrolling never issues less than the body once, and only a single pass that little. */
  lemma {:induction false} UnrolledLength(l: Loop, it: nat)
    requires WellFormed(l)
    requires it <= l.maxIter
    ensures |UnrolledIteration(l, it)| >= Len(l) > 0
    ensures |UnrolledIteration(l, it)| == Len(l) <==> (l.body.Nested? ==> SinglePass(l.body.inner))
    ensures |UnrolledFrom(l, it)| >= Len(l)
    ensures |UnrolledFrom(l, it)| == Len(l) <==>
            it == l.maxIter && (l.body.Nested? ==> SinglePass(l.body.inner))
    decreases l, l.maxIter - it
  {
    WellFormedIsNonEmpty(l);
    if l.body.Nested? {
      UnrolledLength(l.body.inner, 0);
    }
    if it < l.maxIter {
      UnrolledLength(l, it + 1);
    } else {
      assert UnrolledFrom(l, it + 1) == [];
    }
  }

  lemma {:induction false} SequencedIsNoLonger(l: Loop, it: nat)
    requires WellFormed(l)
    requires it <= l.maxIter
    ensures |SequencedIteration(l, it)| <= |UnrolledIteration(l, it)|
    ensures |SequencedFrom(l, it)| <= |UnrolledFrom(l, it)|
    ensures it == 0 && |SequencedFrom(l, 0)| == |UnrolledFrom(l, 0)| ==> Lossless(l)
    ensures it > 0 && !(l.body.Nested? ==> |l.body.pre| > 0 || SinglePass(l.body.inner)) ==>
              |SequencedFrom(l, it)| < |UnrolledFrom(l, it)|
    decreases l, l.maxIter - it
  {
    if l.body.Nested? {
      SequencedIsNoLonger(l.body.inner, 0);
      UnrolledLength(l.body.inner, 0);
    }
    UnrolledLength(l, it);
    if it < l.maxIter {
      SequencedIsNoLonger(l, it + 1);
    }
  }

  lemma {:induction false} SinglePassIssuesBody(l: Loop)
    requires SinglePass(l)
    ensures OpsOf(Unrolled(l)) == Ops(l)
  {
    assert Unrolled(l) == UnrolledIteration(l, 0) + UnrolledFrom(l, 1) == UnrolledIteration(l, 0);
    if l.body.Nested? {
      var (pre, inner, post) := (l.body.pre, l.body.inner, l.body.post);
      SinglePassIssuesBody(inner);
      OpsOfConcat(Tagged(l, 0, 0, pre), Unrolled(inner));
      OpsOfConcat(Tagged(l, 0, 0, pre) + Unrolled(inner), Tagged(l, 0, |pre| + Len(inner), post));
      assert OpsOf(Tagged(l, 0, 0, pre)) == pre;
      assert OpsOf(Tagged(l, 0, |pre| + Len(inner), post)) == post;
    }
  }

  lemma {:induction false} LosslessIssuesAll(l: Loop, it: nat)
    requires Lossless(l)
    requires it <= l.maxIter + 1
    ensures OpsOf(SequencedFrom(l, it)) == OpsOf(UnrolledFrom(l, it))
    decreases l, l.maxIter + 1 - it
  {
    if it <= l.maxIter {
      LosslessIssuesAll(l, it + 1);
      assert OpsOf(SequencedIteration(l, it)) == OpsOf(UnrolledIteration(l, it)) by {
        if l.body.Nested? {
          var (pre, inner, post) := (l.body.pre, l.body.inner, l.body.post);
          var tail := Tagged(l, it, |pre| + Len(inner), post);
          LosslessIssuesAll(inner, 0);
          OpsOfConcat(Tagged(l, it, 0, pre), Unrolled(inner));
          OpsOfConcat(Tagged(l, it, 0, pre) + Unrolled(inner), tail);
          OpsOfConcat(Tagged(l, it, 0, pre), Sequenced(inner));
          OpsOfConcat(Tagged(l, it, 0, pre) + Sequenced(inner), tail);
          if !Enters(l, it) {
            SinglePassIssuesBody(inner);
            assert OpsOf(Tagged(l, it, 0, pre)) == pre && OpsOf(tail) == post;
          }
        }
      }
      OpsOfConcat(SequencedIteration(l, it), SequencedFrom(l, it + 1));
      OpsOfConcat(UnrolledIteration(l, it), UnrolledFrom(l, it + 1));
    }
  }

  /** The emulation issues the right instructions exactly for the lossless nests. */
  lemma IssuesRightInstructionsIffLossless(l: Loop)
    requires WellFormed(l)
    ensures OpsOf(Sequenced(l)) == OpsOf(Unrolled(l)) <==> Lossless(l)
    ensures |Sequenced(l)| == |Unrolled(l)| <==> Lossless(l)
  {
    if Lossless(l) {
      LosslessIssuesAll(l, 0);
      assert |OpsOf(Sequenced(l))| == |Sequenced(l)| && |OpsOf(Unrolled(l))| == |Unrolled(l)|;
    } else {
      SequencedIsNoLonger(l, 0);
      assert |OpsOf(Sequenced(l))| == |Sequenced(l)| != |Unrolled(l)| == |OpsOf(Unrolled(l))|;
    }
  }

  lemma {:induction false} ReentrantAgrees(l: Loop, it: nat)
    requires Reentrant(l)
    requires it <= l.maxIter + 1
    ensures SequencedFrom(l, it) == UnrolledFrom(l, it)
    decreases l, l.maxIter + 1 - it
  {
    if it <= l.maxIter {
      ReentrantAgrees(l, it + 1);
      if l.body.Nested? {
        ReentrantAgrees(l.body.inner, 0);
      }
      assert SequencedIteration(l, it) == UnrolledIteration(l, it);
    }
  }

  /** The first issue of a loop entered afresh reports iteration 0. */
  lemma {:induction false} FirstIssueIsIterationZero(l: Loop)
    requires WellFormed(l)
    ensures |Unrolled(l)| > 0 && Unrolled(l)[0].status.Some? && Unrolled(l)[0].status.value.iterIdx == 0
  {
    if l.body.Nested? {
      FirstIssueIsIterationZero(l.body.inner);
      assert UnrolledIteration(l, 0)[0] ==
             if |l.body.pre| > 0 then Tagged(l, 0, 0, l.body.pre)[0] else Unrolled(l.body.inner)[0];
    }
    UnrolledLength(l, 0);
    assert Unrolled(l)[0] == UnrolledIteration(l, 0)[0];
  }

  lemma {:induction false} NotReentrantDisagrees(l: Loop)
    requires WellFormed(l)
    requires !Reentrant(l)
    ensures Sequenced(l) != Unrolled(l)
  {
    var (pre, inner, post) := (l.body.pre, l.body.inner, l.body.post);
    if |Sequenced(inner)| != |Unrolled(inner)| {
      SequencedIsNoLonger(l, 0);
      SequencedIsNoLonger(inner, 0);
      IssuesRightInstructionsIffLossless(inner);
    } else if !Reentrant(inner) {
      NotReentrantDisagrees(inner);
      assert Sequenced(l) == SequencedIteration(l, 0) + SequencedFrom(l, 1);
      assert Unrolled(l) == UnrolledIteration(l, 0) + UnrolledFrom(l, 1);
      var i :| 0 <= i < |Unrolled(inner)| && Sequenced(inner)[i] != Unrolled(inner)[i];
      assert SequencedIteration(l, 0)[|pre| + i] == Sequenced(inner)[i];
      assert UnrolledIteration(l, 0)[|pre| + i] == Unrolled(inner)[i];
      assert Sequenced(l)[|pre| + i] != Unrolled(l)[|pre| + i];
    } else {
      SecondIterationDiffers(l);
    }
  }

  lemma {:induction false} FromTwo(l: Loop)
    requires l.maxIter > 0
    ensures Sequenced(l) == SequencedIteration(l, 0) + (SequencedIteration(l, 1) + SequencedFrom(l, 2))
    ensures Unrolled(l) == UnrolledIteration(l, 0) + (UnrolledIteration(l, 1) + UnrolledFrom(l, 2))
  {
    hide UnrolledIteration, SequencedIteration;
    assert SequencedFrom(l, 1) == SequencedIteration(l, 1) + SequencedFrom(l, 2);
    assert UnrolledFrom(l, 1) == UnrolledIteration(l, 1) + UnrolledFrom(l, 2);
    assert SequencedFrom(l, 0) == SequencedIteration(l, 0) + SequencedFrom(l, 1);
    assert UnrolledFrom(l, 0) == UnrolledIteration(l, 0) + UnrolledFrom(l, 1);
  }

  /** The second iteration starts in the nested loop, but is reported as the outer one's. */
  lemma {:induction false} SecondIterationDiffers(l: Loop)
    requires WellFormed(l) && l.body.Nested? && l.body.pre == [] && l.maxIter > 0
    requires |Sequenced(l.body.inner)| == |Unrolled(l.body.inner)|
    ensures Sequenced(l) != Unrolled(l)
  {
    var inner := l.body.inner;
    WellFormedIsNonEmpty(l);
    FirstIssueIsIterationZero(inner);
    var (s0, u0) := (SequencedIteration(l, 0), UnrolledIteration(l, 0));
    var (s1, u1) := (SequencedIteration(l, 1), UnrolledIteration(l, 1));
    assert |s0| == |u0|;
    assert s1 == Tagged(l, 1, 0, Ops(l)) && |s1| > 0;
    assert u1[0] == Unrolled(inner)[0];
    FromTwo(l);
    assert Sequenced(l)[|s0|] == s1[0] && Unrolled(l)[|u0|] == u1[0];
  }

  /** The emulation reports the right loop coordinates as well exactly for the reentrant nests. */
  lemma IssuesRightStreamIffReentrant(l: Loop)
    requires WellFormed(l)
    ensures Sequenced(l) == Unrolled(l) <==> Reentrant(l)
  {
    if Reentrant(l) {
      ReentrantAgrees(l, 0);
    } else {
      NotReentrantDisagrees(l);
    }
  }

  /** Two iterations of a loop that only holds a two-iteration loop: one issue is lost. */
  lemma ReentryCounterexample(outer: Op, inner: Op, op: Op)
    ensures var l := Loop(outer, 1, Nested([], Loop(inner, 1, Straight([op])), []));
      WellFormed(l) && |Unrolled(l)| == 4 && |Sequenced(l)| == 3
  {
    var m := Loop(inner, 1, Straight([op]));
    var l := Loop(outer, 1, Nested([], m, []));
    assert Ops(m) == [op] && Ops(l) == [op];
    TwoIterations(m);
    assert |UnrolledIteration(m, 0)| == |UnrolledIteration(m, 1)| == 1;
    assert |SequencedIteration(m, 0)| == |SequencedIteration(m, 1)| == 1;
    TwoIterations(l);
    assert |UnrolledIteration(l, 0)| == |UnrolledIteration(l, 1)| == 2;
    assert |SequencedIteration(l, 0)| == 2 && |SequencedIteration(l, 1)| == 1;
  }

  lemma {:induction false} TwoIterations(l: Loop)
    requires l.maxIter == 1
    ensures Unrolled(l) == UnrolledIteration(l, 0) + UnrolledIteration(l, 1)
    ensures Sequenced(l) == SequencedIteration(l, 0) + SequencedIteration(l, 1)
  {
    FromTwo(l);
    assert UnrolledFrom(l, 2) == [] && SequencedFrom(l, 2) == [];
  }

  // ----- The issue count in the annotation of a decoded FREP

  function AnnotatedIssues(l: Loop): (r: int) {
    Len(l) * (l.maxIter + 1)
  }

  lemma {:induction false} UnrolledCount(l: Loop, it: nat)
    requires it <= l.maxIter + 1
    ensures |UnrolledFrom(l, it)| == (l.maxIter + 1 - it) * |UnrolledIteration(l, 0)|
    decreases l.maxIter + 1 - it
  {
    if it <= l.maxIter {
      UnrolledCount(l, it + 1);
      assert |UnrolledIteration(l, it)| == |UnrolledIteration(l, 0)|;
    }
  }

  /** The annotation is the number of issues exactly when no nested loop repeats. */
  lemma AnnotationIsIssueCountIffSinglePass(l: Loop)
    requires WellFormed(l)
    ensures AnnotatedIssues(l) == |Unrolled(l)| <==> (l.body.Nested? ==> SinglePass(l.body.inner))
  {
    hide UnrolledFrom, UnrolledIteration, SinglePass;
    UnrolledCount(l, 0);
    UnrolledLength(l, 0);
    SameProductIff(Len(l), |UnrolledIteration(l, 0)|, l.maxIter + 1);
  }

  lemma {:induction false} SameProductIff(m: nat, n: nat, k: nat)
    requires m <= n && k > 0
    ensures m * k == k * n <==> m == n
  {
    assert k * n == m * k + (n - m) * k;
  }

  /** Two iterations of a loop that only holds a two-iteration loop: two of four issues are annotated. */
  lemma {:induction false} AnnotationCounterexample(outer: Op, inner: Op, op: Op)
    ensures var l := Loop(outer, 1, Nested([], Loop(inner, 1, Straight([op])), []));
      WellFormed(l) && AnnotatedIssues(l) == 2 && |Unrolled(l)| == 4
  {
    ReentryCounterexample(outer, inner, op);
    assert Ops(Loop(inner, 1, Straight([op]))) == [op];
  }
}
