/**
 The generic software barrier of n harts as a state machine, with 32-bit wrap-around of
 its `iteration` word.  Every hart calls the barrier over and over; a step is one memory
 access of one hart.  `epoch` counts the completed rounds without wrap-around; no step
 reads it.
 */
module PartialBarrier {
  import opened Arithmetic
  import opened Counting

  /** Outside; about to read `iteration`; about to increment `cnt`; about to reset `cnt`;
      about to increment `iteration`; polling `iteration`. */
  datatype Pc = Out | Reading | Counting | Resetting | Bumping | Polling

  datatype Hart = Hart(pc: Pc, round: nat, prev: nat)

  datatype State = State(cnt: nat, iteration: nat, epoch: nat, harts: seq<Hart>)

  datatype Action = Enter | Read | Count | Reset | Bump | Poll

  predicate Enabled(s: State, h: nat, a: Action) {
    && h < |s.harts|
    && match a
       case Enter => s.harts[h].pc == Out
       case Read => s.harts[h].pc == Reading
       case Count => s.harts[h].pc == Counting
       case Reset => s.harts[h].pc == Resetting
       case Bump => s.harts[h].pc == Bumping
       case Poll => s.harts[h].pc == Polling
  }

  function Set(s: State, h: nat, t: Hart): (s': State)
    requires h < |s.harts|
  {
    s.(harts := s.harts[h := t])
  }

  function Next(s: State, h: nat, a: Action): (s': State)
    requires Enabled(s, h, a)
  {
    var t := s.harts[h];
    match a
    case Enter => Set(s, h, t.(pc := Reading))
    case Read => Set(s, h, t.(pc := Counting, prev := s.iteration))
    case Count =>
      var cnt := (s.cnt + 1) % WORD;
      Set(s, h, t.(pc := if cnt == |s.harts| then Resetting else Polling)).(cnt := cnt)
    case Reset => Set(s, h, t.(pc := Bumping)).(cnt := 0)
    case Bump => Set(s, h, t.(pc := Out, round := t.round + 1)).(iteration := (s.iteration + 1) % WORD, epoch := s.epoch + 1)
    case Poll => if t.prev == s.iteration then s else Set(s, h, t.(pc := Out, round := t.round + 1))
  }

  /** Any initial value of `iteration`. */
  ghost predicate Initial(s: State) {
    && s.cnt == 0 && s.epoch == 0 && s.iteration < WORD && 0 < |s.harts| < WORD
    && forall h :: 0 <= h < |s.harts| ==> s.harts[h].pc == Out && s.harts[h].round == 0
  }

  ghost predicate Follows(s: State, s': State) {
    exists h, a :: Enabled(s, h, a) && s' == Next(s, h, a)
  }

  ghost predicate Run(run: seq<State>) {
    && |run| > 0 && Initial(run[0])
    && forall i :: 0 <= i < |run| - 1 ==> Follows(run[i], run[i + 1])
  }

  // ----- The invariant

  predicate Arrived(t: Hart, epoch: nat) {
    (t.pc == Resetting || t.pc == Bumping || t.pc == Polling) && t.round == epoch
  }

  predicate Last(t: Hart) {
    t.pc == Resetting || t.pc == Bumping
  }

  ghost function HasArrived(epoch: nat): (p: Hart -> bool) {
    t => Arrived(t, epoch)
  }

  ghost function Arrivals(ts: seq<Hart>, epoch: nat): (n: nat) {
    Counting.Count(ts, HasArrived(epoch))
  }

  /** The value of `iteration` in round `r`, when it is `iteration` in round `epoch`. */
  ghost function IterationOf(s: State, r: nat): (v: int) {
    (s.iteration + r - s.epoch) % WORD
  }

  ghost predicate InStep(t: Hart, s: State) {
    && ((t.pc == Polling && t.round + 1 == s.epoch) || t.round == s.epoch)
    && (t.pc == Counting || t.pc == Polling ==> t.prev == IterationOf(s, t.round))
  }

  ghost predicate SomeLast(s: State, pc: Pc) {
    exists h :: 0 <= h < |s.harts| && s.harts[h].pc == pc
  }

  ghost predicate Inv(s: State) {
    && 0 < |s.harts| < WORD && s.iteration < WORD
    && (forall h :: 0 <= h < |s.harts| ==> InStep(s.harts[h], s))
    && (forall g, h :: 0 <= g < h < |s.harts| ==> !(Last(s.harts[g]) && Last(s.harts[h])))
    && (Arrivals(s.harts, s.epoch) == |s.harts| <==> SomeLast(s, Resetting) || SomeLast(s, Bumping))
    && s.cnt == if SomeLast(s, Bumping) then 0 else Arrivals(s.harts, s.epoch)
  }

  lemma {:induction false} ArrivalsUpdate(ts: seq<Hart>, h: nat, t: Hart, epoch: nat)
    requires h < |ts|
    ensures Arrivals(ts[h := t], epoch)
            == Arrivals(ts, epoch) - (if Arrived(ts[h], epoch) then 1 else 0) + (if Arrived(t, epoch) then 1 else 0)
  {
    CountUpdate(ts, h, t, HasArrived(epoch));
  }

  lemma {:induction false} ArrivalsBound(ts: seq<Hart>, epoch: nat)
    ensures Arrivals(ts, epoch) <= |ts|
    ensures Arrivals(ts, epoch) == |ts| <==> forall h :: 0 <= h < |ts| ==> Arrived(ts[h], epoch)
    ensures Arrivals(ts, epoch) == 0 <==> forall h :: 0 <= h < |ts| ==> !Arrived(ts[h], epoch)
  {
    CountBound(ts, HasArrived(epoch));
  }

  lemma {:induction false} InitialInv(s: State)
    requires Initial(s)
    ensures Inv(s)
  {
    ArrivalsBound(s.harts, 0);
  }

  /** Steps that change neither who has arrived nor who is last. */
  lemma {:induction false} QuietStep(s: State, h: nat, t: Hart)
    requires Inv(s) && h < |s.harts| && InStep(t, s)
    requires !Last(s.harts[h]) && !Last(t) && Arrived(t, s.epoch) == Arrived(s.harts[h], s.epoch)
    ensures Inv(Set(s, h, t))
  {
    hide InStep, Arrived;
    var s' := Set(s, h, t);
    ArrivalsUpdate(s.harts, h, t, s.epoch);
    assert forall g :: 0 <= g < |s.harts| && g != h ==> s'.harts[g] == s.harts[g];
    forall pc | pc == Resetting || pc == Bumping ensures SomeLast(s, pc) <==> SomeLast(s', pc) {
      if g :| 0 <= g < |s.harts| && s.harts[g].pc == pc {
        assert s'.harts[g].pc == pc;
      }
      if g :| 0 <= g < |s.harts| && s'.harts[g].pc == pc {
        assert s.harts[g].pc == pc;
      }
    }
    forall g | 0 <= g < |s.harts| ensures InStep(s'.harts[g], s') {
      InStepFrame(s'.harts[g], s, s');
    }
  }

  lemma InStepFrame(t: Hart, s: State, s': State)
    requires s'.epoch == s.epoch && s'.iteration == s.iteration
    ensures InStep(t, s) <==> InStep(t, s')
  {
  }

  lemma CountedInStep(t: Hart, s: State, pc: Pc)
    requires InStep(t, s) && t.pc == Counting && (pc == Resetting || pc == Polling)
    ensures InStep(t.(pc := pc), s) && Arrived(t.(pc := pc), s.epoch) && !Arrived(t, s.epoch)
  {
  }

  lemma {:induction false} CountStep(s: State, h: nat)
    requires Inv(s) && Enabled(s, h, Count)
    ensures Inv(Next(s, h, Count))
  {
    hide InStep, Arrived;
    var s' := Next(s, h, Count);
    CountedInStep(s.harts[h], s, s'.harts[h].pc);
    ArrivalsUpdate(s.harts, h, s'.harts[h], s.epoch);
    ArrivalsBound(s.harts, s.epoch);
    assert !SomeLast(s, Resetting) && !SomeLast(s, Bumping);
    assert forall g :: 0 <= g < |s.harts| ==> !Last(s.harts[g]);
    assert s'.cnt == s.cnt + 1 == Arrivals(s'.harts, s.epoch);
    forall g | 0 <= g < |s.harts| ensures InStep(s'.harts[g], s') {
      InStepFrame(s'.harts[g], s, s');
    }
    assert s'.harts[h].pc == Resetting ==> SomeLast(s', Resetting);
  }

  lemma {:induction false} ResetStep(s: State, h: nat)
    requires Inv(s) && Enabled(s, h, Reset)
    ensures Inv(Next(s, h, Reset))
  {
    var s' := Next(s, h, Reset);
    ArrivalsUpdate(s.harts, h, s'.harts[h], s.epoch);
    assert InStep(s.harts[h], s) && Last(s.harts[h]);
    assert s.harts[h].pc == Resetting && s'.harts[h].pc == Bumping;
    forall g | 0 <= g < |s.harts| ensures InStep(s'.harts[g], s') && (g != h ==> !Last(s'.harts[g])) {
      assert InStep(s.harts[g], s);
    }
  }

  lemma {:induction false} BumpStep(s: State, h: nat)
    requires Inv(s) && Enabled(s, h, Bump)
    ensures Inv(Next(s, h, Bump))
  {
    var s' := Next(s, h, Bump);
    ArrivalsBound(s.harts, s.epoch);
    ArrivalsBound(s'.harts, s'.epoch);
    assert s.harts[h].pc == Bumping && Last(s.harts[h]) && SomeLast(s, Bumping);
    forall g | 0 <= g < |s.harts| ensures InStep(s'.harts[g], s') && !Last(s'.harts[g]) && !Arrived(s'.harts[g], s'.epoch) {
      assert Arrived(s.harts[g], s.epoch) && InStep(s.harts[g], s);
      assert IterationOf(s', s.epoch) == IterationOf(s, s.epoch);
    }
    assert forall g :: 0 <= g < |s.harts| ==> !Last(s'.harts[g]);
  }

  lemma {:induction false} InvStep(s: State, h: nat, a: Action)
    requires Inv(s) && Enabled(s, h, a)
    ensures Inv(Next(s, h, a))
  {
    assert InStep(s.harts[h], s);
    match a
    case Count => CountStep(s, h);
    case Reset => ResetStep(s, h);
    case Bump => BumpStep(s, h);
    case Poll =>
      if s.harts[h].prev != s.iteration {
        QuietStep(s, h, Next(s, h, a).harts[h]);
      }
    case _ => QuietStep(s, h, Next(s, h, a).harts[h]);
  }

  /** Every state of every run satisfies the invariant. */
  lemma {:induction false} RunInv(run: seq<State>, i: nat)
    requires Run(run) && i < |run|
    ensures Inv(run[i])
  {
    if i == 0 {
      InitialInv(run[0]);
    } else {
      RunInv(run, i - 1);
      assert Follows(run[i - 1], run[i]);
      var h, a :| Enabled(run[i - 1], h, a) && run[i] == Next(run[i - 1], h, a);
      InvStep(run[i - 1], h, a);
    }
  }

  // ----- What the barrier guarantees

  /** The hart has entered round `r` and been counted in it. */
  predicate CountedIn(t: Hart, r: nat) {
    t.round > r || (t.round == r && (Last(t) || t.pc == Polling))
  }

  /** No hart leaves a round before all of them were counted in it, so rounds differ by at
      most one, and the counter never exceeds the number of harts. */
  lemma PartialBarrierSafe(run: seq<State>, i: nat, g: nat, h: nat)
    requires Run(run) && i < |run| && g < |run[i].harts| && h < |run[i].harts|
    ensures forall r: nat :: run[i].harts[g].round > r ==> CountedIn(run[i].harts[h], r)
    ensures run[i].harts[g].round <= run[i].harts[h].round + 1
    ensures run[i].cnt <= |run[i].harts|
  {
    RunInv(run, i);
    ArrivalsBound(run[i].harts, run[i].epoch);
    assert InStep(run[i].harts[g], run[i]) && InStep(run[i].harts[h], run[i]);
  }

  /** A polling hart sees its round end exactly when every hart was counted in it and the last
      one has released them: wrap-around of `iteration` neither strands nor releases anyone. */
  lemma PollSeesExactlyTheRelease(run: seq<State>, i: nat, h: nat)
    requires Run(run) && i < |run| && h < |run[i].harts| && run[i].harts[h].pc == Polling
    ensures run[i].harts[h].prev != run[i].iteration <==> run[i].epoch > run[i].harts[h].round
    ensures run[i].harts[h].prev == run[i].iteration ==>
      (exists g :: 0 <= g < |run[i].harts| && !CountedIn(run[i].harts[g], run[i].harts[h].round))
      || (exists g :: 0 <= g < |run[i].harts| && Last(run[i].harts[g]))
  {
    RunInv(run, i);
    var (s, t) := (run[i], run[i].harts[h]);
    assert InStep(t, s);
    ArrivalsBound(s.harts, s.epoch);
    if t.prev == s.iteration {
      if SomeLast(s, Resetting) || SomeLast(s, Bumping) {
        var g :| 0 <= g < |s.harts| && (s.harts[g].pc == Resetting || s.harts[g].pc == Bumping);
        assert Last(s.harts[g]);
      } else {
        var g :| 0 <= g < |s.harts| && !Arrived(s.harts[g], s.epoch);
        assert InStep(s.harts[g], s);
        assert !CountedIn(s.harts[g], t.round);
      }
    }
  }

  /** While every hart is inside the barrier, some hart can take a step that is not futile polling. */
  lemma NoDeadlock(run: seq<State>, i: nat)
    requires Run(run) && i < |run|
    requires forall h :: 0 <= h < |run[i].harts| ==> run[i].harts[h].pc != Out
    ensures exists h, a :: Enabled(run[i], h, a) && Next(run[i], h, a) != run[i]
  {
    RunInv(run, i);
    var s := run[i];
    if h :| 0 <= h < |s.harts| && s.harts[h].pc != Polling {
      var a := match s.harts[h].pc case Reading => Read case Counting => Count case Resetting => Reset case _ => Bump;
      assert Enabled(s, h, a) && Next(s, h, a).harts[h] != s.harts[h];
    } else {
      assert !SomeLast(s, Resetting) && !SomeLast(s, Bumping);
      ArrivalsBound(s.harts, s.epoch);
      var h :| 0 <= h < |s.harts| && !Arrived(s.harts[h], s.epoch);
      assert InStep(s.harts[h], s);
      assert Enabled(s, h, Poll) && Next(s, h, Poll).harts[h] != s.harts[h];
    }
  }

  // ----- Every schedule gets through the rounds

  /** How far a hart has come. */
  function Ahead(t: Hart): (n: nat) {
    6 * t.round + match t.pc
                  case Out => 0 case Reading => 1 case Counting => 2
                  case Polling => 3 case Resetting => 4 case Bumping => 5
  }

  ghost function AllAhead(s: State): (n: nat) {
    Sum(s.harts, Ahead)
  }

  /** A step that is not futile polling brings its hart ahead, and nobody back. */
  lemma {:induction false} StepAhead(s: State, h: nat, a: Action)
    requires Enabled(s, h, a)
    ensures |Next(s, h, a).harts| == |s.harts|
    ensures Next(s, h, a) != s ==> AllAhead(Next(s, h, a)) > AllAhead(s)
  {
    SumUpdate(s.harts, h, Next(s, h, a).harts[h], Ahead);
  }

  /** No step of the run is futile polling. */
  ghost predicate Eager(run: seq<State>) {
    forall i :: 0 <= i < |run| - 1 ==> run[i] != run[i + 1]
  }

  lemma {:induction false} RunAhead(run: seq<State>, i: nat)
    requires Run(run) && Eager(run) && i < |run|
    ensures AllAhead(run[i]) >= i && |run[i].harts| == |run[0].harts|
  {
    hide AllAhead;
    if i > 0 {
      RunAhead(run, i - 1);
      assert Follows(run[i - 1], run[i]) && run[i - 1] != run[i];
      hide Enabled, Next;
      var h, a :| Enabled(run[i - 1], h, a) && run[i] == Next(run[i - 1], h, a);
      StepAhead(run[i - 1], h, a);
    }
  }

  /** Every run of enough steps, in any interleaving, brings every hart through `r` rounds. */
  lemma {:induction false} RoundsComplete(run: seq<State>, r: nat, h: nat)
    requires Run(run) && Eager(run) && |run| > 0 && h < |run[|run| - 1].harts|
    requires |run| - 1 > |run[0].harts| * (6 * r + 5)
    ensures run[|run| - 1].harts[h].round >= r
  {
    hide Run, Eager;
    var last := |run| - 1;
    var s := run[last];
    RunAhead(run, last);
    if s.harts[h].round < r {
      forall g | 0 <= g < |s.harts| ensures Ahead(s.harts[g]) <= 6 * r + 5 {
        PartialBarrierSafe(run, last, g, h);
      }
      SumBound(s.harts, Ahead, 6 * r + 5);
    }
  }

  /** In every reachable state some hart can take a step that is not futile polling, so every run can
      be carried on. */
  lemma {:induction false} AlwaysSomeStep(run: seq<State>, i: nat)
    requires Run(run) && i < |run|
    ensures exists h, a :: Enabled(run[i], h, a) && Next(run[i], h, a) != run[i]
  {
    if h :| 0 <= h < |run[i].harts| && run[i].harts[h].pc == Out {
      assert Enabled(run[i], h, Enter) && Next(run[i], h, Enter).harts[h] != run[i].harts[h];
    } else {
      NoDeadlock(run, i);
    }
  }
}
