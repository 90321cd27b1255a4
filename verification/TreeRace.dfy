/**
 Runs of the tree reduction in which a cluster may start a level while another one has not
 finished its additions of the level before: nothing in the code prevents them.
 */
module TreeRace {
  import opened Arithmetic
  import opened TreeReduction

  /** With at most two clusters every run is ordered. */
  lemma {:induction false} TwoClustersAreOrdered(s: State, levels: nat, run: seq<Action>)
    requires WellFormed(s) && levels <= 1
    ensures Exec(s, levels, false, run) == Exec(s, levels, true, run)
    decreases |run|
  {
    if run != [] {
      TwoClustersAreOrdered(s, levels, run[..|run| - 1]);
      var (t, a) := (Exec(s, levels, true, run[..|run| - 1]), run[|run| - 1]);
      assert Enabled(t, levels, false, a) == Enabled(t, levels, true, a);
    }
  }

  /** Only cluster 1 contributes, its contribution was sent, and no buffer holds it any more. */
  ghost predicate Lost(s: State) {
    && WellFormed(s) && |s.pc| >= 3 && s.pc[1] != Sending(0)
    && (forall c :: 0 <= c < |s.pc| ==> s.dst[c] == [0] && s.src[c] == if c == 1 then [1] else [0])
  }

  lemma {:induction false} OneIsInactive(l: nat)
    requires l >= 1
    ensures !IsActive(1, l) && IsSender(1, 0)
  {
    assert Pow2(l) >= 2;
    DivModUnique(1, Pow2(l), 0, 1);
  }

  lemma {:induction false} LostForever(s: State, levels: nat, run: seq<Action>)
    requires Lost(s)
    ensures Lost(Exec(s, levels, false, run))
    decreases |run|
  {
    if run != [] {
      LostForever(s, levels, run[..|run| - 1]);
      var (t, a) := (Exec(s, levels, false, run[..|run| - 1]), run[|run| - 1]);
      hide Pow2, IsActive, IsSender;
      if Enabled(t, levels, false, a) && t.pc[a.c].level >= 1 {
        OneIsInactive(t.pc[a.c].level);
      }
      OneIsInactive(1);
      assert Plus([0], [0]) == [0];
    }
  }

  /** Clusters 0 to `sent - 1` have sent, clusters 0 to `released - 1` have left the barrier of level 0. */
  function Partial(n: nat, sent: nat, released: nat): (s: State)
    requires released <= sent <= n
    ensures WellFormed(s) && |s.pc| == n
  {
    State(seq(n, c => if c == 1 then [1] else [0]),
          seq(n, c => if c == 0 && sent >= 2 then [1] else [0]),
          seq(n, c => if c < released then Adding(0) else if c < sent then Waiting(0) else Sending(0)))
  }

  lemma {:induction false} SendAll(n: nat, levels: nat, k: nat) returns (run: seq<Action>)
    requires n >= 3 && levels >= 1 && k <= n
    ensures Exec(Partial(n, 0, 0), levels, false, run) == Partial(n, k, 0)
    decreases k
  {
    if k == 0 {
      run := [];
    } else {
      var c := k - 1;
      run := SendAll(n, levels, c);
      var (s, s') := (Partial(n, c, 0), Partial(n, k, 0));
      assert Pow2(0) == 1 && Pow2(1) == 2;
      assert IsActive(c, 0);
      assert Next(s, levels, false, Send(c)).pc == s'.pc;
      assert Next(s, levels, false, Send(c)).dst == s'.dst;
      assert Next(s, levels, false, Send(c)) == s';
      assert (run + [Send(c)])[..|run|] == run;
      run := run + [Send(c)];
    }
  }

  lemma {:induction false} ReleaseAll(n: nat, levels: nat, k: nat) returns (run: seq<Action>)
    requires n >= 3 && levels >= 1 && k <= n
    ensures Exec(Partial(n, n, 0), levels, false, run) == Partial(n, n, k)
    decreases k
  {
    if k == 0 {
      run := [];
    } else {
      var c := k - 1;
      run := ReleaseAll(n, levels, c);
      var s := Partial(n, n, c);
      assert AllReached(s, 1);
      assert Next(s, levels, false, Release(c)).pc == Partial(n, n, k).pc;
      assert (run + [Release(c)])[..|run|] == run;
      run := run + [Release(c)];
    }
  }

  /** With three or more clusters, the transfer of cluster 2 at level 1 can overwrite the data of
      cluster 1 before cluster 0 has added it. */
  lemma {:induction false} RaceLosesData(n: nat, levels: nat) returns (run: seq<Action>)
    requires n >= 3 && levels >= 2
    ensures Lost(Exec(Partial(n, 0, 0), levels, false, run))
  {
    hide Exec, Next, Lost;
    var s0 := Partial(n, 0, 0);
    var r1 := SendAll(n, levels, n);
    var r2 := ReleaseAll(n, levels, n);
    ExecConcat(s0, levels, false, r1, r2);
    ExecTwo(Partial(n, n, n), levels, Add(2), Send(2));
    Overwrites(n, levels);
    ExecConcat(s0, levels, false, r1 + r2, [Add(2), Send(2)]);
    run := r1 + r2 + [Add(2), Send(2)];
  }

  lemma {:induction false} ExecTwo(s: State, levels: nat, a: Action, b: Action)
    requires WellFormed(s)
    ensures Exec(s, levels, false, [a, b]) == Next(Next(s, levels, false, a), levels, false, b)
  {
    hide Next;
    assert [a, b][..1] == [a] && [a][..0] == [];
    assert Exec(s, levels, false, [a]) == Next(s, levels, false, a);
  }

  /** Cluster 2 adds and sends while cluster 0 has not added yet. */
  lemma {:induction false} Overwrites(n: nat, levels: nat)
    requires n >= 3 && levels >= 2
    ensures var s := Partial(n, n, n); Lost(Next(Next(s, levels, false, Add(2)), levels, false, Send(2)))
  {
    var s := Partial(n, n, n);
    assert Pow2(0) == 1 && Pow2(1) == 2 && Pow2(2) == 4;
    assert Plus([0], [0]) == [0];
    var s1 := Next(s, levels, false, Add(2));
    assert IsActive(2, 0) && !IsSender(2, 0);
    assert s1.pc[2] == Sending(1) && s1.src[2] == [0];
    var s2 := Next(s1, levels, false, Send(2));
    assert IsActive(2, 1) && IsSender(2, 1);
    assert s2.dst[0] == [0];
  }

  lemma {:induction false} ExecWithinLevels(s: State, levels: nat, run: seq<Action>)
    requires WellFormed(s) && WithinLevels(s, levels)
    ensures WithinLevels(Exec(s, levels, false, run), levels)
    decreases |run|
  {
    if run != [] {
      ExecWithinLevels(s, levels, run[..|run| - 1]);
      hide Pow2, IsActive, IsSender;
    }
  }

  ghost predicate EveryRunSums(n: nat) {
    forall s: State, run :: Initial(s, n) && Finished(Exec(s, Levels(n), false, run), Levels(n)) ==>
      HoldsSum(Exec(s, Levels(n), false, run), s)
  }

  /** The reduction is correct in every run exactly for at most two clusters. */
  lemma {:induction false} EveryRunSumsIffTwoClusters(n: nat)
    requires n > 0
    ensures EveryRunSums(n) <==> n <= 2
  {
    hide Exec, HoldsSum;
    if n <= 2 {
      assert Levels(1) == 0 && Levels(2) == 1 && Pow2(0) == 1 && Pow2(1) == 2;
      forall s: State, run | Initial(s, n) && Finished(Exec(s, Levels(n), false, run), Levels(n))
        ensures HoldsSum(Exec(s, Levels(n), false, run), s)
      {
        TwoClustersAreOrdered(s, Levels(n), run);
        OrderedRunsSum(s, n, run);
      }
    } else {
      var s, run := WrongRun(n);
    }
  }

  lemma {:induction false} WrongRun(n: nat) returns (s: State, run: seq<Action>)
    requires n >= 3
    ensures Initial(s, n) && Finished(Exec(s, Levels(n), false, run), Levels(n))
    ensures !HoldsSum(Exec(s, Levels(n), false, run), s)
  {
    hide Exec, Levels, Next, Enabled, Sum;
    var levels := Levels(n);
    TwoLevels(n);
    s := Partial(n, 0, 0);
    var race := RaceLosesData(n, levels);
    var t := Exec(s, levels, false, race);
    ExecWithinLevels(s, levels, race);
    var rest := Completion(t, levels, false);
    LostForever(t, levels, rest);
    ExecConcat(s, levels, false, race, rest);
    OnlyOneContributes(s, n);
    run := race + rest;
  }

  lemma {:induction false} TwoLevels(n: nat)
    requires n >= 3
    ensures Levels(n) >= 2
  {
    assert Pow2(0) == 1 && Pow2(1) == 2;
  }

  lemma {:induction false} OnlyOneContributes(s: State, n: nat)
    requires n >= 2 && s == Partial(n, 0, 0)
    ensures Sum(s.src, 0, n, 0) == 1
  {
    for k := 0 to n
      invariant Sum(s.src, 0, k, 0) == if k >= 2 then 1 else 0
    {
    }
  }
}
