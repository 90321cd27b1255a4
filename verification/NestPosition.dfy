/**
 Positions inside a loop nest: the levels of the nest, the token stream that describes
 it, and the part of the issue stream that is still to come from a given position.
 */
module NestPosition {
  import opened Wrappers
  import opened LoopNest

  /** What the core offloads: plain instructions, and FREPs announcing a loop. */
  datatype Token = Plain(op: Op) | Frep(loop: Loop)

  datatype Item = Pass(op: Op) | Repeat(loop: Loop)

  function Plains(ops: seq<Op>): (r: seq<Token>)
    ensures |r| == |ops|
    ensures forall i :: 0 <= i < |ops| ==> r[i] == Plain(ops[i])
  {
    seq(|ops|, i requires 0 <= i < |ops| => Plain(ops[i]))
  }

  /** The body of a loop in the queue, after its first `entered` nested FREPs were removed. */
  function BodyTokens(b: Block, entered: nat): (r: seq<Token>) {
    match b
    case Straight(ops) => Plains(ops)
    case Nested(pre, inner, post) =>
      Plains(pre)
      + (if entered == 0 then [Frep(inner)] + BodyTokens(inner.body, 0) else BodyTokens(inner.body, entered - 1))
      + Plains(post)
  }

  function ItemTokens(item: Item): (r: seq<Token>)
    ensures |r| > 0
  {
    match item
    case Pass(op) => [Plain(op)]
    case Repeat(l) => [Frep(l)] + BodyTokens(l.body, 0)
  }

  function ProgramTokens(prog: seq<Item>): (r: seq<Token>) {
    if prog == [] then [] else ItemTokens(prog[0]) + ProgramTokens(prog[1..])
  }

  function ItemIssues(item: Item): (r: seq<Issue>) {
    match item
    case Pass(op) => [Issue(op, None)]
    case Repeat(l) => Sequenced(l)
  }

  /** The issue stream of the emulation for a whole program. */
  function ProgramIssues(prog: seq<Item>): (r: seq<Issue>) {
    if prog == [] then [] else ItemIssues(prog[0]) + ProgramIssues(prog[1..])
  }

  ghost predicate WellFormedProgram(prog: seq<Item>) {
    forall i :: 0 <= i < |prog| && prog[i].Repeat? ==> WellFormed(prog[i].loop)
  }

  /** The meaning of a whole program. */
  function ProgramUnrolled(prog: seq<Item>): (r: seq<Issue>) {
    if prog == [] then []
    else (match prog[0] case Pass(op) => [Issue(op, None)] case Repeat(l) => Unrolled(l)) + ProgramUnrolled(prog[1..])
  }

  ghost predicate ReentrantProgram(prog: seq<Item>) {
    forall i :: 0 <= i < |prog| && prog[i].Repeat? ==> Reentrant(prog[i].loop)
  }

  ghost predicate LosslessProgram(prog: seq<Item>) {
    forall i :: 0 <= i < |prog| && prog[i].Repeat? ==> Lossless(prog[i].loop)
  }

  /** The emulation issues as much as the program means exactly when no nest in it loses an issue. */
  lemma {:induction false} ProgramLosslessIff(prog: seq<Item>)
    requires WellFormedProgram(prog)
    ensures |ProgramIssues(prog)| == |ProgramUnrolled(prog)| <==> LosslessProgram(prog)
  {
    hide Lossless, Unrolled, Sequenced;
    if prog != [] {
      ProgramLosslessIff(prog[1..]);
      ProgramIsNoLonger(prog[1..]);
      assert LosslessProgram(prog) <==> (prog[0].Repeat? ==> Lossless(prog[0].loop)) && LosslessProgram(prog[1..]) by {
        LosslessParts(prog);
      }
      if prog[0].Repeat? {
        SequencedIsNoLonger(prog[0].loop, 0);
        SequencedIsFrom(prog[0].loop);
        IssuesRightInstructionsIffLossless(prog[0].loop);
      }
    }
  }

  lemma {:induction false} LosslessParts(prog: seq<Item>)
    requires prog != []
    ensures LosslessProgram(prog) <==> (prog[0].Repeat? ==> Lossless(prog[0].loop)) && LosslessProgram(prog[1..])
  {
    assert forall i :: 1 <= i < |prog| ==> prog[i] == prog[1..][i - 1];
  }

  lemma {:induction false} ProgramIsNoLonger(prog: seq<Item>)
    requires WellFormedProgram(prog)
    ensures |ProgramIssues(prog)| <= |ProgramUnrolled(prog)|
  {
    if prog != [] {
      ProgramIsNoLonger(prog[1..]);
      if prog[0].Repeat? {
        SequencedIsNoLonger(prog[0].loop, 0);
      }
    }
  }

  /** The emulation issues the meaning of a program exactly when every nest in it is reentrant. */
  lemma {:induction false} ProgramRightIffReentrant(prog: seq<Item>)
    requires WellFormedProgram(prog)
    ensures ProgramIssues(prog) == ProgramUnrolled(prog) <==> ReentrantProgram(prog)
  {
    if prog != [] {
      hide Sequenced, Unrolled, Reentrant, WellFormed;
      var (head, tail) := (ItemIssues(prog[0]), prog[1..]);
      ProgramRightIffReentrant(tail);
      ProgramIsNoLonger(tail);
      assert ReentrantProgram(prog) <==> (prog[0].Repeat? ==> Reentrant(prog[0].loop)) && ReentrantProgram(tail);
      if prog[0].Repeat? {
        var l := prog[0].loop;
        IssuesRightStreamIffReentrant(l);
        SequencedIsNoLonger(l, 0);
        if ProgramIssues(prog) == ProgramUnrolled(prog) {
          SequencedIsFrom(l);
          SplitAt(head, ProgramIssues(tail), Unrolled(l), ProgramUnrolled(tail));
        }
      } else {
        SplitAt(head, ProgramIssues(tail), head, ProgramUnrolled(tail));
      }
    }
  }

  lemma SequencedIsFrom(l: Loop)
    ensures Sequenced(l) == SequencedFrom(l, 0) && Unrolled(l) == UnrolledFrom(l, 0)
  {
  }

  lemma SplitAt<T>(a: seq<T>, b: seq<T>, c: seq<T>, d: seq<T>)
    ensures |a| == |c| && a + b == c + d ==> a == c && b == d
  {
    if |a| == |c| && a + b == c + d {
      assert a == (a + b)[..|a|] && c == (c + d)[..|a|];
      assert b == (a + b)[|a|..] && d == (c + d)[|a|..];
    }
  }

  // ----- Levels

  /** The loops of a nest, outermost first. */
  function Levels(l: Loop): (r: seq<Loop>)
    ensures |r| > 0 && r[0] == l
  {
    [l] + if l.body.Nested? then Levels(l.body.inner) else []
  }

  /** The body offset, within the whole nest, at which level `k` starts. */
  function Base(l: Loop, k: nat): (r: nat)
    requires k < |Levels(l)|
  {
    if k == 0 then 0 else |l.body.pre| + Base(l.body.inner, k - 1)
  }

  lemma SliceInMiddle<T>(p: seq<T>, u: seq<T>, q: seq<T>, lo: nat, hi: nat)
    requires lo <= hi <= |u|
    ensures (p + u + q)[|p| + lo..|p| + hi] == u[lo..hi]
  {
  }

  lemma {:induction false} LevelFacts(l: Loop, k: nat)
    requires WellFormed(l)
    requires k < |Levels(l)|
    ensures var m := Levels(l)[k];
      && WellFormed(m)
      && Base(l, k) + Len(m) <= Len(l)
      && Ops(l)[Base(l, k)..Base(l, k) + Len(m)] == Ops(m)
      && (m.body.Nested? <==> k + 1 < |Levels(l)|)
      && (m.body.Nested? ==>
            && Levels(l)[k + 1] == m.body.inner
            && Base(l, k + 1) == Base(l, k) + |m.body.pre|
            && |m.body.pre| + Len(m.body.inner) <= Len(m))
  {
    if k > 0 {
      var inner := l.body.inner;
      LevelFacts(inner, k - 1);
      var lo := Base(inner, k - 1);
      SliceInMiddle(l.body.pre, Ops(inner), l.body.post, lo, lo + Len(Levels(inner)[k - 1]));
    }
  }

  /** The part of `LevelFacts` that does not mention instructions. */
  lemma {:induction false} NextLevel(l: Loop, k: nat)
    requires WellFormed(l)
    requires k < |Levels(l)|
    ensures Levels(l)[k].body.Nested? <==> k + 1 < |Levels(l)|
    ensures k + 1 < |Levels(l)| ==>
      var m := Levels(l)[k];
      && Levels(l)[k + 1] == m.body.inner
      && Base(l, k + 1) == Base(l, k) + |m.body.pre|
      && 0 < Len(m.body.inner)
      && |m.body.pre| + Len(m.body.inner) <= Len(m)
  {
    LevelFacts(l, k);
    if k + 1 < |Levels(l)| {
      LevelFacts(l, k + 1);
      WellFormedIsNonEmpty(Levels(l)[k + 1]);
    }
  }

  function RemoveAt<T>(s: seq<T>, i: nat): (r: seq<T>)
    requires i < |s|
  {
    s[..i] + s[i + 1..]
  }

  lemma RemoveInMiddle<T>(p: seq<T>, u: seq<T>, q: seq<T>, c: nat)
    requires c < |u|
    ensures (p + u + q)[|p| + c] == u[c]
    ensures (p + u + q)[..|p| + c] == p + u[..c]
    ensures RemoveAt(p + u + q, |p| + c) == p + RemoveAt(u, c) + q
  {
    var s := p + u + q;
    assert s[|p| + c + 1..] == u[c + 1..] + q;
    assert s[..|p| + c] == p + u[..c];
  }

  lemma PlainsConcat(a: seq<Op>, b: seq<Op>)
    ensures Plains(a + b) == Plains(a) + Plains(b)
  {
  }

  /** Of the tokens `t`, the first `b` are the first `b` of `ops`, the next one announces `m`,
      and without it `u` remains. */
  ghost predicate FrepAt(t: seq<Token>, b: nat, ops: seq<Op>, m: Loop, u: seq<Token>) {
    && b < |t| && b < |ops|
    && t[..b] == Plains(ops[..b])
    && t[b] == Frep(m)
    && RemoveAt(t, b) == u
  }

  lemma FrepAtFront(m: Loop, u: seq<Token>, ops: seq<Op>)
    requires ops != []
    ensures FrepAt([Frep(m)] + u, 0, ops, m, u)
  {
    assert RemoveAt([Frep(m)] + u, 0) == u;
  }

  lemma {:induction false} FrepBehindPlains(pre: seq<Op>, ops: seq<Op>, post: seq<Op>, u: seq<Token>, c: nat, m: Loop, u': seq<Token>)
    requires FrepAt(u, c, ops, m, u')
    ensures FrepAt(Plains(pre) + u + Plains(post), |pre| + c, pre + ops + post, m, Plains(pre) + u' + Plains(post))
  {
    RemoveInMiddle(Plains(pre), u, Plains(post), c);
    assert (pre + ops + post)[..|pre| + c] == pre + ops[..c];
    PlainsConcat(pre, ops[..c]);
  }

  /** The next FREP to be removed sits at the base of the next level, behind plain code only. */
  lemma {:induction false} NextFrep(l: Loop, e: nat)
    requires WellFormed(l)
    requires 1 <= e < |Levels(l)|
    ensures FrepAt(BodyTokens(l.body, e - 1), Base(l, e), Ops(l), Levels(l)[e], BodyTokens(l.body, e))
  {
    hide FrepAt, Plains, Levels, Base, BodyTokens, Ops, WellFormed;
    NestUnfolds(l, e);
    var (pre, inner, post) := (l.body.pre, l.body.inner, l.body.post);
    var (m, u') := (Levels(l)[e], BodyTokens(inner.body, e - 1));
    if e == 1 {
      FrepAtFront(inner, u', Ops(inner));
      FrepBehindPlains(pre, Ops(inner), post, [Frep(inner)] + u', 0, m, u');
    } else {
      NextFrep(inner, e - 1);
      FrepBehindPlains(pre, Ops(inner), post, BodyTokens(inner.body, e - 2), Base(inner, e - 1), m, u');
    }
  }

  lemma {:induction false} NestUnfolds(l: Loop, e: nat)
    requires WellFormed(l)
    requires 1 <= e < |Levels(l)|
    ensures l.body.Nested? && WellFormed(l.body.inner) && e - 1 < |Levels(l.body.inner)|
    ensures var (pre, inner, post) := (l.body.pre, l.body.inner, l.body.post);
      && Levels(inner)[0] == inner && Levels(l)[e] == Levels(inner)[e - 1]
      && Base(inner, 0) == 0 && Base(l, e) == |pre| + Base(inner, e - 1)
      && Ops(inner) != [] && Ops(l) == pre + Ops(inner) + post
      && BodyTokens(l.body, e) == Plains(pre) + BodyTokens(inner.body, e - 1) + Plains(post)
      && BodyTokens(l.body, e - 1) == Plains(pre)
         + (if e == 1 then [Frep(inner)] + BodyTokens(inner.body, 0) else BodyTokens(inner.body, e - 2)) + Plains(post)
  {
    hide Plains;
    WellFormedIsNonEmpty(l.body.inner);
  }

  /** Once every level was entered only the instructions are left. */
  lemma {:induction false} AllEntered(l: Loop)
    ensures BodyTokens(l.body, |Levels(l)| - 1) == Plains(Ops(l))
  {
    if l.body.Nested? {
      AllEntered(l.body.inner);
    }
  }

  /** Up to the next FREP, the queued body agrees with the instructions of the nest. */
  lemma {:induction false} PlainBefore(l: Loop, e: nat, p: nat)
    requires WellFormed(l)
    requires 1 <= e <= |Levels(l)|
    requires p < if e < |Levels(l)| then Base(l, e) else Len(l)
    ensures p < Len(l) && p < |BodyTokens(l.body, e - 1)|
    ensures BodyTokens(l.body, e - 1)[p] == Plain(Ops(l)[p])
  {
    hide BodyTokens, Ops, Base, Levels;
    var t := BodyTokens(l.body, e - 1);
    if e < |Levels(l)| {
      NextFrep(l, e);
      assert t[p] == t[..Base(l, e)][p];
    } else {
      AllEntered(l);
    }
  }

  lemma {:induction false} OpOfLevel(l: Loop, k: nat, i: nat)
    requires WellFormed(l)
    requires k < |Levels(l)| && i < Len(Levels(l)[k])
    ensures Base(l, k) + i < Len(l)
    ensures Ops(l)[Base(l, k) + i] == Ops(Levels(l)[k])[i]
  {
    LevelFacts(l, k);
    assert Ops(l)[Base(l, k)..Base(l, k) + Len(Levels(l)[k])][i] == Ops(l)[Base(l, k) + i];
  }

  // ----- What is still to be issued

  /** Loop `l`, in iteration `it`, at offset `idx` of its body: not inside an entered inner loop. */
  ghost predicate Resting(l: Loop, it: nat, idx: nat) {
    && it <= l.maxIter
    && idx <= Len(l)
    && (Enters(l, it) ==> idx <= |l.body.pre| || |l.body.pre| + Len(l.body.inner) <= idx)
  }

  ghost predicate AtEntry(l: Loop, it: nat, idx: nat) {
    Enters(l, it) && idx == |l.body.pre|
  }

  /** The rest of iteration `it` of `l` and the iterations after it. */
  function Remaining(l: Loop, it: nat, idx: nat): (r: seq<Issue>)
    requires WellFormed(l)
    requires Resting(l, it, idx)
  {
    RestOfIteration(l, it, idx) + SequencedFrom(l, it + 1)
  }

  function RestOfIteration(l: Loop, it: nat, idx: nat): (r: seq<Issue>)
    requires WellFormed(l)
    requires Resting(l, it, idx)
  {
    if Enters(l, it) then
      var (pre, inner, post) := (l.body.pre, l.body.inner, l.body.post);
      var tail := Tagged(l, it, |pre| + Len(inner), post);
      WellFormedIsNonEmpty(inner);
      if idx <= |pre| then Tagged(l, it, 0, pre)[idx..] + Sequenced(inner) + tail
      else tail[idx - |pre| - Len(inner)..]
    else
      Tagged(l, it, 0, Ops(l))[idx..]
  }

  lemma {:induction false} RemainingAtStart(l: Loop)
    requires WellFormed(l)
    ensures Remaining(l, 0, 0) == Sequenced(l)
  {
    assert RestOfIteration(l, 0, 0) == SequencedIteration(l, 0);
  }

  /** One plain issue. */
  lemma {:induction false} RemainingStep(l: Loop, it: nat, idx: nat)
    requires WellFormed(l)
    requires Resting(l, it, idx) && idx < Len(l)
    requires !AtEntry(l, it, idx)
    ensures Resting(l, it, idx + 1)
    ensures Remaining(l, it, idx)
            == [Issue(Ops(l)[idx], Some(Status(l.frep.pc, it, idx)))] + Remaining(l, it, idx + 1)
  {
    hide SequencedFrom;
    RestStep(l, it, idx);
  }

  lemma {:induction false} RestStep(l: Loop, it: nat, idx: nat)
    requires WellFormed(l)
    requires Resting(l, it, idx) && idx < Len(l)
    requires !AtEntry(l, it, idx)
    ensures Resting(l, it, idx + 1)
    ensures RestOfIteration(l, it, idx)
            == [Issue(Ops(l)[idx], Some(Status(l.frep.pc, it, idx)))] + RestOfIteration(l, it, idx + 1)
  {
    hide Sequenced, SequencedFrom;
    var head := Issue(Ops(l)[idx], Some(Status(l.frep.pc, it, idx)));
    if Enters(l, it) {
      var (pre, inner, post) := (l.body.pre, l.body.inner, l.body.post);
      WellFormedIsNonEmpty(inner);
      if idx < |pre| {
        assert Ops(l)[idx] == pre[idx];
        assert Tagged(l, it, 0, pre)[idx..] == [head] + Tagged(l, it, 0, pre)[idx + 1..];
      } else {
        var k := idx - |pre| - Len(inner);
        assert Ops(l)[idx] == post[k];
        assert Tagged(l, it, |pre| + Len(inner), post)[k] == head;
      }
    } else {
      assert Tagged(l, it, 0, Ops(l))[idx..] == [head] + Tagged(l, it, 0, Ops(l))[idx + 1..];
    }
  }

  /** Reaching the start of the nested loop. */
  lemma {:induction false} RemainingEnter(l: Loop, it: nat)
    requires WellFormed(l)
    requires it <= l.maxIter
    requires Enters(l, it)
    ensures var (n, inner) := (|l.body.pre|, l.body.inner);
      && Resting(l, it, n) && Resting(l, it, n + Len(inner)) && Resting(inner, 0, 0)
      && Remaining(l, it, n) == Remaining(inner, 0, 0) + Remaining(l, it, n + Len(inner))
  {
    hide Sequenced, SequencedFrom, RestOfIteration;
    var (n, inner) := (|l.body.pre|, l.body.inner);
    RestEnter(l, it);
    RemainingAtStart(inner);
  }

  lemma {:induction false} RestEnter(l: Loop, it: nat)
    requires WellFormed(l)
    requires it <= l.maxIter
    requires Enters(l, it)
    ensures var (n, inner) := (|l.body.pre|, l.body.inner);
      && WellFormed(inner) && Resting(l, it, n) && Resting(l, it, n + Len(inner)) && Resting(inner, 0, 0)
      && RestOfIteration(l, it, n) == Sequenced(inner) + RestOfIteration(l, it, n + Len(inner))
  {
    hide Sequenced, SequencedFrom;
    var (n, inner) := (|l.body.pre|, l.body.inner);
    WellFormedIsNonEmpty(inner);
    assert Tagged(l, it, 0, l.body.pre)[n..] == [];
  }

  /** Running off the end of the body. */
  lemma {:induction false} RemainingWrap(l: Loop, it: nat)
    requires WellFormed(l)
    requires it <= l.maxIter
    ensures Resting(l, it, Len(l))
    ensures it == l.maxIter ==> Remaining(l, it, Len(l)) == []
    ensures it < l.maxIter ==> Remaining(l, it, Len(l)) == Remaining(l, it + 1, 0)
    ensures it < l.maxIter ==> !AtEntry(l, it + 1, 0)
  {
    if Enters(l, it) {
      WellFormedIsNonEmpty(l.body.inner);
    }
    assert RestOfIteration(l, it, Len(l)) == [];
    if it < l.maxIter {
      assert RestOfIteration(l, it + 1, 0) == SequencedIteration(l, it + 1);
    }
  }
}
