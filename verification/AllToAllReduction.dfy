/**
 The all-to-all sum reduction as a state machine: one call by every core of every cluster.
 Core 0 of a cluster is its DM core.  A step is one atomic access or one barrier release;
 the two barriers release a core once every core, or every DM core, has reached them.

 Neither accumulator is reset by the call.  The theorem therefore speaks about any initial
 values of the accumulators: the result is the sum of the values exactly when these initial
 values add up to zero modulo the word size, as they do on the first call.
 */
module AllToAllReduction {
  import opened Arithmetic
  import opened Counting

  datatype Pc = Adding | First | Publishing | Meeting | Copying | Second | Returning | Done(result: nat)

  /** The cluster's accumulator and its cores. */
  datatype Cluster = Cluster(acc: nat, pc: seq<Pc>)

  datatype State = State(global: nat, clusters: seq<Cluster>)

  function Stage(pc: Pc): (n: nat) {
    match pc
    case Adding => 0 case First => 1 case Publishing => 2 case Meeting => 3
    case Copying => 4 case Second => 5 case Returning => 6 case Done(_) => 7
  }

  predicate CoresAt(cl: Cluster, stage: nat) {
    forall j :: 0 <= j < |cl.pc| ==> Stage(cl.pc[j]) >= stage
  }

  predicate DmAt(cl: Cluster, stage: nat) {
    |cl.pc| > 0 && Stage(cl.pc[0]) >= stage
  }

  predicate DmsAt(s: State, stage: nat) {
    forall c :: 0 <= c < |s.clusters| ==> DmAt(s.clusters[c], stage)
  }

  predicate Enabled(s: State, c: nat, j: nat) {
    && c < |s.clusters| && j < |s.clusters[c].pc|
    && match s.clusters[c].pc[j]
       case First => CoresAt(s.clusters[c], 1)
       case Meeting => DmsAt(s, 3)
       case Second => CoresAt(s.clusters[c], 5)
       case Done(_) => false
       case _ => true
  }

  function Moved(cl: Cluster, j: nat, acc: nat, pc: Pc): (cl': Cluster)
    requires j < |cl.pc|
  {
    Cluster(acc, cl.pc[j := pc])
  }

  function Next(s: State, v: seq<seq<nat>>, c: nat, j: nat): (s': State)
    requires Enabled(s, c, j)
    requires |v| == |s.clusters| && |v[c]| == |s.clusters[c].pc|
  {
    var cl := s.clusters[c];
    var cl' := match cl.pc[j]
      case Adding => Moved(cl, j, (cl.acc + v[c][j]) % WORD, First)
      case First => Moved(cl, j, cl.acc, if j == 0 then Publishing else Second)
      case Publishing => Moved(cl, j, cl.acc, Meeting)
      case Meeting => Moved(cl, j, cl.acc, Copying)
      case Copying => Moved(cl, j, s.global, Second)
      case Second => Moved(cl, j, cl.acc, Returning)
      case _ => Moved(cl, j, cl.acc, Done(cl.acc));
    State(if cl.pc[j] == Publishing then (s.global + cl.acc) % WORD else s.global, s.clusters[c := cl'])
  }

  ghost predicate Shaped(s: State, v: seq<seq<nat>>) {
    |v| == |s.clusters| && forall c :: 0 <= c < |v| ==> |v[c]| == |s.clusters[c].pc| > 0
  }

  ghost predicate Initial(s: State, v: seq<seq<nat>>) {
    && Shaped(s, v) && s.global < WORD
    && forall c :: 0 <= c < |v| ==>
         s.clusters[c].acc < WORD && forall j :: 0 <= j < |v[c]| ==> s.clusters[c].pc[j] == Adding
  }

  ghost predicate Run(run: seq<State>, v: seq<seq<nat>>) {
    && |run| > 0 && Initial(run[0], v)
    && forall i :: 0 <= i < |run| - 1 ==> Follows(run[i], run[i + 1], v)
  }

  ghost predicate Follows(s: State, s': State, v: seq<seq<nat>>) {
    Shaped(s, v) && exists c, j :: Enabled(s, c, j) && s' == Next(s, v, c, j)
  }

  // ----- Sums

  ghost function Total(v: seq<nat>): (n: nat) {
    if v == [] then 0 else Total(v[..|v| - 1]) + v[|v| - 1]
  }

  /** The values of the cores that have added theirs. */
  ghost function Added(pc: seq<Pc>, v: seq<nat>): (n: nat)
    requires |pc| == |v|
  {
    if v == [] then 0
    else Added(pc[..|v| - 1], v[..|v| - 1]) + if pc[|v| - 1] == Adding then 0 else v[|v| - 1]
  }

  lemma {:induction false} AddedUpdate(pc: seq<Pc>, v: seq<nat>, j: nat, p: Pc)
    requires |pc| == |v| && j < |v| && p != Adding
    ensures Added(pc[j := p], v) == Added(pc, v) + if pc[j] == Adding then v[j] else 0
  {
    var n := |v| - 1;
    if j < n {
      AddedUpdate(pc[..n], v[..n], j, p);
      assert pc[j := p][..n] == pc[..n][j := p];
    } else {
      assert pc[j := p][..n] == pc[..n];
    }
  }

  lemma {:induction false} AddedBounds(pc: seq<Pc>, v: seq<nat>)
    requires |pc| == |v|
    ensures (forall j :: 0 <= j < |v| ==> pc[j] != Adding) ==> Added(pc, v) == Total(v)
    ensures (forall j :: 0 <= j < |v| ==> pc[j] == Adding) ==> Added(pc, v) == 0
  {
    if v != [] {
      AddedBounds(pc[..|v| - 1], v[..|v| - 1]);
    }
  }

  /** What cluster `c` contributes, its initial accumulator included. */
  ghost function Share(s0: State, v: seq<seq<nat>>, c: nat): (n: nat)
    requires Shaped(s0, v) && c < |v|
  {
    s0.clusters[c].acc + Total(v[c])
  }

  /** The shares of those of the first `n` clusters whose DM core has published. */
  ghost function Published(s: State, s0: State, v: seq<seq<nat>>, n: nat): (m: nat)
    requires Shaped(s, v) && Shaped(s0, v) && n <= |v|
  {
    if n == 0 then 0
    else Published(s, s0, v, n - 1) + if DmAt(s.clusters[n - 1], 3) then Share(s0, v, n - 1) else 0
  }

  ghost function Shares(s0: State, v: seq<seq<nat>>, n: nat): (m: nat)
    requires Shaped(s0, v) && n <= |v|
  {
    if n == 0 then 0 else Shares(s0, v, n - 1) + Share(s0, v, n - 1)
  }

  lemma {:induction false} PublishedFrame(s: State, s': State, s0: State, v: seq<seq<nat>>, n: nat)
    requires Shaped(s, v) && Shaped(s', v) && Shaped(s0, v) && n <= |v|
    requires forall c :: 0 <= c < n ==> DmAt(s.clusters[c], 3) == DmAt(s'.clusters[c], 3)
    ensures Published(s, s0, v, n) == Published(s', s0, v, n)
  {
    if n > 0 {
      PublishedFrame(s, s', s0, v, n - 1);
    }
  }

  lemma {:induction false} PublishedOneMore(s: State, s': State, s0: State, v: seq<seq<nat>>, n: nat, c: nat)
    requires Shaped(s, v) && Shaped(s', v) && Shaped(s0, v) && n <= |v| && c < |v|
    requires forall b :: 0 <= b < |v| && b != c ==> DmAt(s.clusters[b], 3) == DmAt(s'.clusters[b], 3)
    requires !DmAt(s.clusters[c], 3) && DmAt(s'.clusters[c], 3)
    ensures Published(s', s0, v, n) == Published(s, s0, v, n) + if c < n then Share(s0, v, c) else 0
  {
    if n > 0 {
      PublishedOneMore(s, s', s0, v, n - 1, c);
    }
  }

  lemma {:induction false} PublishedBounds(s: State, s0: State, v: seq<seq<nat>>, n: nat)
    requires Shaped(s, v) && Shaped(s0, v) && n <= |v|
    ensures DmsAt(s, 3) ==> Published(s, s0, v, n) == Shares(s0, v, n)
    ensures (forall c :: 0 <= c < |v| ==> !DmAt(s.clusters[c], 3)) ==> Published(s, s0, v, n) == 0
  {
    if n > 0 {
      PublishedBounds(s, s0, v, n - 1);
    }
  }

  /** The result of the call, from the state `s0` before it. */
  ghost function Result(s0: State, v: seq<seq<nat>>): (n: nat)
    requires Shaped(s0, v)
  {
    (s0.global + Shares(s0, v, |v|)) % WORD
  }

  // ----- The invariant

  ghost predicate ClusterInv(s: State, s0: State, v: seq<seq<nat>>, c: nat)
    requires Shaped(s, v) && Shaped(s0, v) && c < |v|
  {
    var cl := s.clusters[c];
    && (forall j :: 1 <= j < |cl.pc| ==> !(2 <= Stage(cl.pc[j]) <= 4))
    && (DmAt(cl, 2) ==> CoresAt(cl, 1))
    && (forall j :: 0 <= j < |cl.pc| && Stage(cl.pc[j]) >= 2 ==> CoresAt(cl, 1))
    && (!DmAt(cl, 5) ==> cl.acc == (s0.clusters[c].acc + Added(cl.pc, v[c])) % WORD)
    && (DmAt(cl, 5) ==> cl.acc == Result(s0, v))
    && (DmAt(cl, 4) ==> DmsAt(s, 3))
    && (forall j :: 0 <= j < |cl.pc| && Stage(cl.pc[j]) >= 6 ==> CoresAt(cl, 5))
    && (forall j :: 0 <= j < |cl.pc| && cl.pc[j].Done? ==> cl.pc[j].result == Result(s0, v))
  }

  ghost predicate Inv(s: State, s0: State, v: seq<seq<nat>>) {
    && Shaped(s, v) && Shaped(s0, v)
    && s.global == (s0.global + Published(s, s0, v, |v|)) % WORD
    && forall c :: 0 <= c < |v| ==> ClusterInv(s, s0, v, c)
  }

  lemma {:induction false} InitialInv(s: State, v: seq<seq<nat>>)
    requires Initial(s, v)
    ensures Inv(s, s, v)
  {
    PublishedBounds(s, s, v, |v|);
    forall c | 0 <= c < |v| ensures ClusterInv(s, s, v, c) {
      AddedBounds(s.clusters[c].pc, v[c]);
    }
  }

  lemma ModSum(x: nat, y: nat, z: nat)
    requires x == y % WORD
    ensures (x + z) % WORD == (y + z) % WORD
  {
  }

  lemma {:induction false} StepShape(s: State, v: seq<seq<nat>>, c: nat, j: nat)
    requires Shaped(s, v) && Enabled(s, c, j)
    ensures Shaped(Next(s, v, c, j), v)
    ensures forall b :: 0 <= b < |v| && b != c ==> Next(s, v, c, j).clusters[b] == s.clusters[b]
    ensures forall stage: nat :: DmAt(s.clusters[c], stage) ==> DmAt(Next(s, v, c, j).clusters[c], stage)
    ensures DmsAt(s, 3) ==> DmsAt(Next(s, v, c, j), 3)
  {
  }

  lemma {:induction false} GlobalStep(s: State, s0: State, v: seq<seq<nat>>, c: nat, j: nat)
    requires Inv(s, s0, v) && Enabled(s, c, j)
    requires Shaped(Next(s, v, c, j), v)
    ensures var s' := Next(s, v, c, j); s'.global == (s0.global + Published(s', s0, v, |v|)) % WORD
  {
    var (s', cl) := (Next(s, v, c, j), s.clusters[c]);
    assert ClusterInv(s, s0, v, c);
    StepShape(s, v, c, j);
    hide Published;
    if cl.pc[j] == Publishing {
      assert j == 0;
      AddedBounds(cl.pc, v[c]);
      PublishedOneMore(s, s', s0, v, |v|, c);
      ModSum(s.global, s0.global + Published(s, s0, v, |v|), cl.acc);
      ModSum(cl.acc, Share(s0, v, c), s0.global + Published(s, s0, v, |v|));
    } else {
      assert DmAt(cl, 3) == DmAt(s'.clusters[c], 3);
      PublishedFrame(s, s', s0, v, |v|);
    }
  }

  lemma {:induction false} OtherStep(s: State, s0: State, v: seq<seq<nat>>, c: nat, j: nat, b: nat)
    requires Inv(s, s0, v) && Enabled(s, c, j) && b < |v| && b != c
    requires Shaped(Next(s, v, c, j), v)
    ensures ClusterInv(Next(s, v, c, j), s0, v, b)
  {
    hide Added, Result;
    StepShape(s, v, c, j);
    assert ClusterInv(s, s0, v, b);
  }

  lemma {:induction false} OwnStep(s: State, s0: State, v: seq<seq<nat>>, c: nat, j: nat)
    requires Inv(s, s0, v) && Enabled(s, c, j)
    requires Shaped(Next(s, v, c, j), v)
    ensures ClusterInv(Next(s, v, c, j), s0, v, c)
  {
    hide Added, Published, Shares, Total, Result;
    var (s', cl) := (Next(s, v, c, j), s.clusters[c]);
    assert ClusterInv(s, s0, v, c);
    StepShape(s, v, c, j);
    AddedUpdate(cl.pc, v[c], j, s'.clusters[c].pc[j]);
    if cl.pc[j] == Copying {
      AllPublished(s, s0, v);
    } else if cl.pc[j] == Adding {
      ModSum(cl.acc, s0.clusters[c].acc + Added(cl.pc, v[c]), v[c][j]);
    }
  }

  lemma AllPublished(s: State, s0: State, v: seq<seq<nat>>)
    requires Inv(s, s0, v) && DmsAt(s, 3)
    ensures s.global == Result(s0, v)
  {
    PublishedBounds(s, s0, v, |v|);
  }

  lemma {:induction false} InvStep(s: State, s0: State, v: seq<seq<nat>>, c: nat, j: nat)
    requires Inv(s, s0, v) && Enabled(s, c, j)
    ensures Inv(Next(s, v, c, j), s0, v)
  {
    hide ClusterInv, Next, Published;
    StepShape(s, v, c, j);
    GlobalStep(s, s0, v, c, j);
    var s' := Next(s, v, c, j);
    forall b | 0 <= b < |v| ensures ClusterInv(s', s0, v, b) {
      if b == c {
        OwnStep(s, s0, v, c, j);
      } else {
        OtherStep(s, s0, v, c, j, b);
      }
    }
  }

  lemma {:induction false} RunInv(run: seq<State>, v: seq<seq<nat>>, i: nat)
    requires Run(run, v) && i < |run|
    ensures Inv(run[i], run[0], v)
  {
    hide Inv;
    if i == 0 {
      InitialInv(run[0], v);
    } else {
      RunInv(run, v, i - 1);
      assert Follows(run[i - 1], run[i], v);
      var s := run[i - 1];
      hide Enabled, Next;
      var c, j :| Enabled(s, c, j) && run[i] == Next(s, v, c, j);
      InvStep(s, run[0], v, c, j);
    }
  }

  // ----- What the call returns

  /** The sum of all cores' values, and of all accumulators before the call. */
  ghost function Values(v: seq<seq<nat>>): (n: nat) {
    if v == [] then 0 else Values(v[..|v| - 1]) + Total(v[|v| - 1])
  }

  ghost function Accumulated(cls: seq<Cluster>): (n: nat) {
    if cls == [] then 0 else Accumulated(cls[..|cls| - 1]) + cls[|cls| - 1].acc
  }

  lemma {:induction false} SharesSplit(s0: State, v: seq<seq<nat>>, n: nat)
    requires Shaped(s0, v) && n <= |v|
    ensures Shares(s0, v, n) == Accumulated(s0.clusters[..n]) + Values(v[..n])
  {
    if n > 0 {
      SharesSplit(s0, v, n - 1);
      assert s0.clusters[..n][..n - 1] == s0.clusters[..n - 1] && v[..n][..n - 1] == v[..n - 1];
    }
  }

  /** In every run, every core that returns returns the sum of all values and of all accumulators
      before the call, so the sum of the values exactly when the accumulators cancel out. */
  lemma EveryCoreReturnsSum(run: seq<State>, v: seq<seq<nat>>, i: nat, c: nat, j: nat)
    requires Run(run, v) && i < |run| && c < |run[i].clusters| && j < |run[i].clusters[c].pc|
    requires run[i].clusters[c].pc[j].Done?
    ensures var before := run[0].global + Accumulated(run[0].clusters);
      && run[i].clusters[c].pc[j].result == (before + Values(v)) % WORD
      && (run[i].clusters[c].pc[j].result == Values(v) % WORD <==> before % WORD == 0)
  {
    hide Accumulated, Values, Shares, Follows;
    RunInv(run, v, i);
    assert ClusterInv(run[i], run[0], v, c);
    SharesSplit(run[0], v, |v|);
    assert run[0].clusters[..|v|] == run[0].clusters && v[..|v|] == v;
    CancelIff(run[0].global + Accumulated(run[0].clusters), Values(v));
  }

  lemma {:induction false} CancelIff(before: nat, values: nat)
    ensures (before + values) % WORD == values % WORD <==> before % WORD == 0
  {}

  // ----- Every schedule completes the call

  ghost function ClusterStages(cl: Cluster): (n: nat) {
    Sum(cl.pc, Stage)
  }

  ghost function Stages(s: State): (n: nat) {
    Sum(s.clusters, ClusterStages)
  }

  lemma {:induction false} StepStages(s: State, v: seq<seq<nat>>, c: nat, j: nat)
    requires Shaped(s, v) && Enabled(s, c, j)
    ensures Stages(Next(s, v, c, j)) > Stages(s)
  {
    var (cl, cl') := (s.clusters[c], Next(s, v, c, j).clusters[c]);
    SumUpdate(cl.pc, j, cl'.pc[j], Stage);
    SumUpdate(s.clusters, c, cl', ClusterStages);
  }

  ghost predicate AllDone(s: State) {
    forall c :: 0 <= c < |s.clusters| ==> forall j :: 0 <= j < |s.clusters[c].pc| ==> s.clusters[c].pc[j].Done?
  }

  ghost predicate CanStep(s: State) {
    exists c, j :: Enabled(s, c, j)
  }

  /** A core waits in a barrier only for another core that can step, so somebody can. */
  lemma {:induction false} SomeCoreSteps(s: State, v: seq<seq<nat>>)
    requires Shaped(s, v)
    ensures CanStep(s) <==> !AllDone(s)
  {
    if !CanStep(s) {
      forall c: nat, j: nat | c < |v| && j < |v[c]| ensures Stage(s.clusters[c].pc[j]) >= 5 || s.clusters[c].pc[j] == Meeting {
        NobodyAtFirst(s, v, c, j);
      }
      assert DmsAt(s, 3);
      forall c: nat, j: nat | c < |v| && j < |v[c]| ensures Stage(s.clusters[c].pc[j]) >= 5 {
        assert !Enabled(s, c, j);
      }
      forall c: nat, j: nat | c < |v| && j < |v[c]| ensures s.clusters[c].pc[j].Done? {
        assert !Enabled(s, c, j) && CoresAt(s.clusters[c], 5);
      }
    }
  }

  lemma {:induction false} NobodyAtFirst(s: State, v: seq<seq<nat>>, c: nat, j: nat)
    requires Shaped(s, v) && !CanStep(s) && c < |v| && j < |v[c]|
    ensures Stage(s.clusters[c].pc[j]) >= 5 || s.clusters[c].pc[j] == Meeting
  {
    forall i: nat | i < |v[c]| ensures Stage(s.clusters[c].pc[i]) >= 1 {
      assert !Enabled(s, c, i);
    }
    assert CoresAt(s.clusters[c], 1) && !Enabled(s, c, j);
  }

  lemma {:induction false} RunStages(run: seq<State>, v: seq<seq<nat>>, i: nat)
    requires Run(run, v) && i < |run|
    ensures Stages(run[i]) >= i && Shaped(run[i], v)
  {
    hide Stages;
    if i > 0 {
      RunStages(run, v, i - 1);
      assert Follows(run[i - 1], run[i], v);
      hide Enabled, Next;
      var c, j :| Enabled(run[i - 1], c, j) && run[i] == Next(run[i - 1], v, c, j);
      StepStages(run[i - 1], v, c, j);
      StepShape(run[i - 1], v, c, j);
    }
  }

  /** In every interleaving the call takes at most seven steps for each core, and the steps end
      exactly when every core has returned. */
  lemma {:induction false} EveryRunCompletes(run: seq<State>, v: seq<seq<nat>>, cores: nat)
    requires Run(run, v) && forall c :: 0 <= c < |v| ==> |v[c]| <= cores
    ensures |run| - 1 <= |v| * (cores * 7)
    ensures CanStep(run[|run| - 1]) <==> !AllDone(run[|run| - 1])
  {
    var s := run[|run| - 1];
    RunStages(run, v, |run| - 1);
    hide Run;
    forall c | 0 <= c < |v| ensures ClusterStages(s.clusters[c]) <= cores * 7 {
      SumBound(s.clusters[c].pc, Stage, 7);
    }
    SumBound(s.clusters, ClusterStages, cores * 7);
    SomeCoreSteps(s, v);
  }

  // ----- The next call

  /** The same accumulators, with every core at the start of a call. */
  ghost function Again(s: State): (s': State) {
    State(s.global, seq(|s.clusters|, c requires 0 <= c < |s.clusters| => Restarted(s.clusters[c])))
  }

  ghost function Restarted(cl: Cluster): (cl': Cluster) {
    Cluster(cl.acc, seq(|cl.pc|, j => Adding))
  }

  /** When a call is done, every accumulator holds what it returned. */
  lemma {:induction false} AccumulatorsKeepResult(run: seq<State>, v: seq<seq<nat>>, i: nat)
    requires Run(run, v) && i < |run| && AllDone(run[i]) && |v| > 0
    ensures Shaped(run[i], v) && Shaped(run[0], v)
    ensures var r := Result(run[0], v);
      && run[i].global == r
      && (forall c :: 0 <= c < |v| ==> run[i].clusters[c].acc == r)
      && (forall c, j :: 0 <= c < |v| && 0 <= j < |v[c]| ==> run[i].clusters[c].pc[j] == Done(r))
  {
    hide Result, Published, Follows;
    RunInv(run, v, i);
    forall c | 0 <= c < |v| ensures DmAt(run[i].clusters[c], 7) {
      assert run[i].clusters[c].pc[0].Done?;
    }
    AllPublished(run[i], run[0], v);
    forall c | 0 <= c < |v|
      ensures run[i].clusters[c].acc == Result(run[0], v)
      ensures forall j :: 0 <= j < |v[c]| ==> run[i].clusters[c].pc[j] == Done(Result(run[0], v))
    {
      assert ClusterInv(run[i], run[0], v, c) && DmAt(run[i].clusters[c], 7);
    }
  }

  lemma {:induction false} EqualAccumulators(cls: seq<Cluster>, r: nat)
    requires forall c :: 0 <= c < |cls| ==> cls[c].acc == r
    ensures Accumulated(cls) == |cls| * r
  {
    if cls != [] {
      EqualAccumulators(cls[..|cls| - 1], r);
      assert |cls| * r == (|cls| - 1) * r + r;
    }
  }

  /** A call that follows one that returned `r` returns the sum of its values plus `r` for each
      accumulator, so it is right exactly when these cancel out. */
  lemma {:induction false} NextCallReturns(run: seq<State>, v: seq<seq<nat>>, i: nat,
                                           run': seq<State>, v': seq<seq<nat>>, k: nat, c: nat, j: nat)
    requires Run(run, v) && i < |run| && AllDone(run[i]) && |v| > 0
    requires Run(run', v') && run'[0] == Again(run[i])
    requires k < |run'| && c < |run'[k].clusters| && j < |run'[k].clusters[c].pc| && run'[k].clusters[c].pc[j].Done?
    ensures Shaped(run[0], v)
    ensures var (r, n, result) := (Result(run[0], v), |v|, run'[k].clusters[c].pc[j].result);
      && result == ((n + 1) * r + Values(v')) % WORD
      && (result == Values(v') % WORD <==> (n + 1) * r % WORD == 0)
  {
    hide Accumulated, Values, Follows, Result;
    AccumulatorsKeepResult(run, v, i);
    EveryCoreReturnsSum(run', v', k, c, j);
    var r := Result(run[0], v);
    EqualAccumulators(run'[0].clusters, r);
    assert (|v| + 1) * r == |v| * r + r;
  }

  /** One call by the only core of a single cluster. */
  lemma {:induction false} SoloRun(g: nat, a: nat, x: nat) returns (run: seq<State>)
    requires g < WORD && a < WORD
    ensures Run(run, [[x]]) && |run| == 8 && run[0] == State(g, [Cluster(a, [Adding])])
    ensures var r := (g + (a + x) % WORD) % WORD; run[7] == State(r, [Cluster(r, [Done(r)])])
  {
    var v := [[x]];
    var b := (a + x) % WORD;
    var r := (g + b) % WORD;
    run := [State(g, [Cluster(a, [Adding])]), State(g, [Cluster(b, [First])]), State(g, [Cluster(b, [Publishing])]),
            State(r, [Cluster(b, [Meeting])]), State(r, [Cluster(b, [Copying])]), State(r, [Cluster(r, [Second])]),
            State(r, [Cluster(r, [Returning])]), State(r, [Cluster(r, [Done(r)])])];
    forall i | 0 <= i < 7 ensures Follows(run[i], run[i + 1], v) {
      SoloStep(run[i], run[i + 1], x);
    }
  }

  lemma {:induction false} SoloStep(s: State, s': State, x: nat)
    requires |s.clusters| == 1 && |s.clusters[0].pc| == 1 && !s.clusters[0].pc[0].Done?
    requires s' == (match s.clusters[0].pc[0]
      case Adding => State(s.global, [Cluster((s.clusters[0].acc + x) % WORD, [First])])
      case First => State(s.global, [Cluster(s.clusters[0].acc, [Publishing])])
      case Publishing => State((s.global + s.clusters[0].acc) % WORD, [Cluster(s.clusters[0].acc, [Meeting])])
      case Meeting => State(s.global, [Cluster(s.clusters[0].acc, [Copying])])
      case Copying => State(s.global, [Cluster(s.global, [Second])])
      case Second => State(s.global, [Cluster(s.clusters[0].acc, [Returning])])
      case _ => State(s.global, [Cluster(s.clusters[0].acc, [Done(s.clusters[0].acc)])]))
    ensures Follows(s, s', [[x]])
  {
    var v := [[x]];
    assert Shaped(s, v);
    assert Enabled(s, 0, 0);
    assert forall p :: s.clusters[0].pc[0 := p] == [p];
    assert forall cl :: s.clusters[0 := cl] == [cl];
    assert s' == Next(s, v, 0, 0);
  }

  /** From cleared accumulators, a core that adds 1 in two calls gets 1 and then 3. */
  lemma {:induction false} SecondCallExample() returns (run: seq<State>, run': seq<State>)
    ensures Run(run, [[1]]) && |run| == 8 && run[0] == State(0, [Cluster(0, [Adding])])
    ensures run[7] == State(1, [Cluster(1, [Done(1)])])
    ensures Run(run', [[1]]) && |run'| == 8 && run'[0] == Again(run[7])
    ensures run'[7] == State(3, [Cluster(3, [Done(3)])])
  {
    run := SoloRun(0, 0, 1);
    run' := SoloRun(1, 1, 1);
    assert Restarted(run[7].clusters[0]) == Cluster(1, [Adding]);
  }
}
