/**
 The global barrier as a state machine: every core of every participating cluster calls it
 over and over.  Within a cluster the cores meet in a hardware barrier, then one core per
 cluster (the DM core) joins the software barrier across clusters, then the cores meet in
 the hardware barrier again.

 A step is one atomic access of one core.  `epoch` counts the completed rounds of the
 software barrier; no step reads it.
 */
module GlobalBarrier {
  import opened Counting

  datatype CorePc = Out | First | Second

  datatype Core = Core(pc: CorePc, round: nat)

  /** The DM core: outside, in the first hardware barrier, in the software barrier, or in the second. */
  datatype DmPc =
    | DmOut
    | DmFirst
    | Arriving
    | Resetting
    | Waking(next: nat)
    | Sleeping
    | Clearing
    | Cleared
    | DmSecond

  /** `irq` is the interrupt pending flag of the cluster's DM core. */
  datatype Cluster = Cluster(dm: DmPc, round: nat, irq: bool, cores: seq<Core>)

  datatype State = State(counter: nat, epoch: nat, clusters: seq<Cluster>)

  datatype Action =
    | Enter(core: nat)
    | LeaveFirst(core: nat)
    | LeaveSecond(core: nat)
    | EnterDm
    | LeaveFirstDm
    | Arrive
    | Reset
    | WakeNext
    | WakeUp
    | Clear
    | SeeCleared
    | LeaveSecondDm

  // ----- Hardware barriers

  /** Hardware barriers entered, and left, by a core since the start. */
  function Entered(k: Core): (n: nat) {
    match k.pc case Out => 2 * k.round case First => 2 * k.round + 1 case Second => 2 * k.round + 2
  }

  function Left(k: Core): (n: nat) {
    match k.pc case Out => 2 * k.round case First => 2 * k.round case Second => 2 * k.round + 1
  }

  function DmEntered(cl: Cluster): (n: nat) {
    match cl.dm case DmOut => 2 * cl.round case DmSecond => 2 * cl.round + 2 case _ => 2 * cl.round + 1
  }

  function DmLeft(cl: Cluster): (n: nat) {
    match cl.dm case DmOut => 2 * cl.round case DmFirst => 2 * cl.round case _ => 2 * cl.round + 1
  }

  /** The hardware barrier releases a core from its n-th barrier once every core entered its n-th. */
  predicate Released(cl: Cluster, n: nat) {
    DmEntered(cl) >= n && forall j :: 0 <= j < |cl.cores| ==> Entered(cl.cores[j]) >= n
  }

  // ----- Steps

  predicate Enabled(s: State, c: nat, a: Action) {
    && c < |s.clusters|
    && var cl := s.clusters[c];
    match a
    case Enter(j) => j < |cl.cores| && cl.cores[j].pc == Out
    case LeaveFirst(j) => j < |cl.cores| && cl.cores[j].pc == First && Released(cl, Entered(cl.cores[j]))
    case LeaveSecond(j) => j < |cl.cores| && cl.cores[j].pc == Second && Released(cl, Entered(cl.cores[j]))
    case EnterDm => cl.dm == DmOut
    case LeaveFirstDm => cl.dm == DmFirst && Released(cl, DmEntered(cl))
    case Arrive => cl.dm == Arriving
    case Reset => cl.dm == Resetting
    case WakeNext => cl.dm.Waking?
    case WakeUp => cl.dm == Sleeping && cl.irq
    case Clear => cl.dm == Clearing
    case SeeCleared => cl.dm == Cleared && !cl.irq
    case LeaveSecondDm => cl.dm == DmSecond && Released(cl, DmEntered(cl))
  }

  function Set(s: State, c: nat, cl: Cluster): (s': State)
    requires c < |s.clusters|
  {
    s.(clusters := s.clusters[c := cl])
  }

  function Next(s: State, c: nat, a: Action): (s': State)
    requires Enabled(s, c, a)
  {
    var cl := s.clusters[c];
    match a
    case Enter(j) => Set(s, c, cl.(cores := cl.cores[j := cl.cores[j].(pc := First)]))
    case LeaveFirst(j) => Set(s, c, cl.(cores := cl.cores[j := cl.cores[j].(pc := Second)]))
    case LeaveSecond(j) => Set(s, c, cl.(cores := cl.cores[j := Core(Out, cl.cores[j].round + 1)]))
    case EnterDm => Set(s, c, cl.(dm := DmFirst))
    case LeaveFirstDm => Set(s, c, cl.(dm := Arriving))
    // The counter is incremented; only the last arrival goes on, the others sleep.
    case Arrive =>
      var cnt := s.counter + 1;
      Set(s, c, cl.(dm := if cnt == |s.clusters| then Resetting else Sleeping)).(counter := cnt)
    case Reset => Set(s, c, cl.(dm := Waking(0))).(counter := 0, epoch := s.epoch + 1)
    // The loop over the communicator's clusters, which skips the calling one.
    case WakeNext =>
      var i := cl.dm.next;
      if i >= |s.clusters| then Set(s, c, cl.(dm := DmSecond))
      else
        var s1 := Set(s, c, cl.(dm := Waking(i + 1)));
        if i == c then s1 else Set(s1, i, s1.clusters[i].(irq := true))
    case WakeUp => Set(s, c, cl.(dm := Clearing))
    case Clear => Set(s, c, cl.(dm := Cleared, irq := false))
    case SeeCleared => Set(s, c, cl.(dm := DmSecond))
    case LeaveSecondDm => Set(s, c, cl.(dm := DmOut, round := cl.round + 1))
  }

  ghost predicate Initial(s: State) {
    && s.counter == 0 && s.epoch == 0 && |s.clusters| > 0
    && forall c :: 0 <= c < |s.clusters| ==>
         var cl := s.clusters[c];
         cl.dm == DmOut && cl.round == 0 && !cl.irq && forall j :: 0 <= j < |cl.cores| ==> cl.cores[j] == Core(Out, 0)
  }

  /** A run: any interleaving of steps, by any clusters. */
  ghost predicate Run(run: seq<State>) {
    && |run| > 0 && Initial(run[0])
    && forall i :: 0 <= i < |run| - 1 ==> Follows(run[i], run[i + 1])
  }

  ghost predicate Follows(s: State, s': State) {
    exists c, a :: Enabled(s, c, a) && s' == Next(s, c, a)
  }

  // ----- The invariant

  /** The cluster has arrived in the current round of the software barrier. */
  predicate Arrived(cl: Cluster, epoch: nat) {
    (cl.dm == Sleeping || cl.dm == Resetting) && cl.round == epoch
  }

  ghost function HasArrived(epoch: nat): (p: Cluster -> bool) {
    cl => Arrived(cl, epoch)
  }

  ghost function Arrivals(cls: seq<Cluster>, epoch: nat): (n: nat) {
    Count(cls, HasArrived(epoch))
  }

  /** How far the DM core can be from the current round. */
  ghost predicate InStep(cl: Cluster, epoch: nat) {
    && (match cl.dm
        case DmOut => cl.round == epoch
        case DmFirst => cl.round == epoch
        case Arriving => cl.round == epoch
        case Resetting => cl.round == epoch
        case Sleeping => cl.round == epoch || cl.round + 1 == epoch
        case _ => cl.round + 1 == epoch)
    && (cl.irq ==> (cl.dm == Sleeping || cl.dm == Clearing) && cl.round + 1 == epoch)
    && (cl.dm == Clearing ==> cl.irq)
  }

  /** Asleep although its round is complete, and not interrupted yet. */
  predicate ToBeWoken(cl: Cluster, epoch: nat) {
    cl.dm == Sleeping && cl.round + 1 == epoch && !cl.irq
  }

  ghost predicate Busy(cl: Cluster) {
    cl.dm == Resetting || cl.dm.Waking?
  }

  /** Exactly the clusters that the waking one has not reached yet are to be woken. */
  ghost predicate WakingOn(s: State, w: nat)
    requires w < |s.clusters|
  {
    s.clusters[w].dm.Waking? ==>
      forall c :: 0 <= c < |s.clusters| && c != w ==>
        (ToBeWoken(s.clusters[c], s.epoch) <==> c >= s.clusters[w].dm.next)
  }

  ghost predicate SoftInv(s: State) {
    && |s.clusters| > 0
    && (forall c :: 0 <= c < |s.clusters| ==> InStep(s.clusters[c], s.epoch))
    && s.counter == Arrivals(s.clusters, s.epoch)
    && (s.counter == |s.clusters| <==> SomeResetting(s))
    && (forall b, c :: 0 <= b < c < |s.clusters| ==> !(Busy(s.clusters[b]) && Busy(s.clusters[c])))
    && (forall w :: 0 <= w < |s.clusters| ==> WakingOn(s, w))
    && (forall c :: 0 <= c < |s.clusters| && ToBeWoken(s.clusters[c], s.epoch) ==> SomeWaking(s))
  }

  ghost predicate SomeResetting(s: State) {
    exists c :: 0 <= c < |s.clusters| && s.clusters[c].dm == Resetting
  }

  ghost predicate SomeWaking(s: State) {
    exists w :: 0 <= w < |s.clusters| && s.clusters[w].dm.Waking?
  }

  /** No core is out of a hardware barrier that another core of its cluster has not entered. */
  ghost predicate HardInv(cl: Cluster) {
    && (forall i, j :: 0 <= i < |cl.cores| && 0 <= j < |cl.cores| ==> Left(cl.cores[i]) <= Entered(cl.cores[j]))
    && (forall j :: 0 <= j < |cl.cores| ==> Left(cl.cores[j]) <= DmEntered(cl))
    && (forall j :: 0 <= j < |cl.cores| ==> DmLeft(cl) <= Entered(cl.cores[j]))
  }

  ghost predicate Inv(s: State) {
    SoftInv(s) && forall c :: 0 <= c < |s.clusters| ==> HardInv(s.clusters[c])
  }

  lemma {:induction false} ArrivalsUpdate(cls: seq<Cluster>, c: nat, cl: Cluster, epoch: nat)
    requires c < |cls|
    ensures Arrivals(cls[c := cl], epoch)
            == Arrivals(cls, epoch) - (if Arrived(cls[c], epoch) then 1 else 0) + (if Arrived(cl, epoch) then 1 else 0)
  {
    CountUpdate(cls, c, cl, HasArrived(epoch));
  }

  lemma {:induction false} ArrivalsBound(cls: seq<Cluster>, epoch: nat)
    ensures Arrivals(cls, epoch) <= |cls|
    ensures Arrivals(cls, epoch) == |cls| <==> forall c :: 0 <= c < |cls| ==> Arrived(cls[c], epoch)
    ensures Arrivals(cls, epoch) == 0 <==> forall c :: 0 <= c < |cls| ==> !Arrived(cls[c], epoch)
  {
    CountBound(cls, HasArrived(epoch));
  }

  lemma {:induction false} InitialInv(s: State)
    requires Initial(s)
    ensures Inv(s)
  {
    ArrivalsBound(s.clusters, 0);
  }

  /** The DM core moved on, and left a hardware barrier only if that released it. */
  lemma {:induction false} HardDm(cl: Cluster, cl': Cluster)
    requires HardInv(cl) && cl'.cores == cl.cores
    requires DmEntered(cl') >= DmEntered(cl)
    requires DmLeft(cl') == DmLeft(cl) || Released(cl, DmLeft(cl'))
    ensures HardInv(cl')
  {
    hide Entered, Left, DmEntered, DmLeft;
  }

  lemma {:induction false} HardCore(cl: Cluster, j: nat, k: Core)
    requires HardInv(cl) && j < |cl.cores|
    requires Entered(k) >= Entered(cl.cores[j]) && Left(k) <= Entered(k)
    requires Left(k) == Left(cl.cores[j]) || Released(cl, Left(k))
    ensures HardInv(cl.(cores := cl.cores[j := k]))
  {
    hide Entered, Left;
    var cl' := cl.(cores := cl.cores[j := k]);
    assert DmEntered(cl') == DmEntered(cl) && DmLeft(cl') == DmLeft(cl);
  }

  /** Hardware barriers: the cluster that takes the step. */
  lemma {:induction false} HardStep(s: State, c: nat, a: Action)
    requires Enabled(s, c, a)
    requires HardInv(s.clusters[c])
    ensures HardInv(Next(s, c, a).clusters[c])
  {
    var (cl, cl') := (s.clusters[c], Next(s, c, a).clusters[c]);
    match a
    case Enter(j) => HardCore(cl, j, cl'.cores[j]);
    case LeaveFirst(j) => HardCore(cl, j, cl'.cores[j]);
    case LeaveSecond(j) => HardCore(cl, j, cl'.cores[j]);
    case _ => HardDm(cl, cl');
  }

  /** The other clusters: at most one of them is interrupted. */
  lemma {:induction false} OthersKeep(s: State, c: nat, a: Action, b: nat)
    requires Enabled(s, c, a) && b < |s.clusters| && b != c
    ensures |Next(s, c, a).clusters| == |s.clusters|
    ensures var (cl, cl') := (s.clusters[b], Next(s, c, a).clusters[b]);
      cl' == cl || (a == WakeNext && b == s.clusters[c].dm.next && cl' == cl.(irq := true))
  {
  }

  lemma {:induction false} HardInvStep(s: State, c: nat, a: Action)
    requires Enabled(s, c, a)
    requires forall b :: 0 <= b < |s.clusters| ==> HardInv(s.clusters[b])
    ensures |Next(s, c, a).clusters| == |s.clusters|
    ensures forall b :: 0 <= b < |s.clusters| ==> HardInv(Next(s, c, a).clusters[b])
  {
    hide HardInv, Next, Enabled;
    SameSize(s, c, a);
    HardStep(s, c, a);
    forall b | 0 <= b < |s.clusters| && b != c ensures HardInv(Next(s, c, a).clusters[b]) {
      OthersKeep(s, c, a, b);
      IrqIsSoft(s.clusters[b]);
    }
  }

  lemma SameSize(s: State, c: nat, a: Action)
    requires Enabled(s, c, a)
    ensures c < |s.clusters| == |Next(s, c, a).clusters|
  {
  }

  lemma IrqIsSoft(cl: Cluster)
    requires HardInv(cl)
    ensures HardInv(cl.(irq := true))
  {
    HardDm(cl, cl.(irq := true));
  }

  // ----- The software barrier keeps its invariant

  /** A step that changes neither who has arrived nor who is to be woken. */
  lemma {:induction false} QuietStep(s: State, c: nat, cl: Cluster)
    requires SoftInv(s) && c < |s.clusters|
    requires var was := s.clusters[c];
      && InStep(cl, s.epoch)
      && (cl.dm == was.dm || (!Busy(was) && !Busy(cl)))
      && Arrived(cl, s.epoch) == Arrived(was, s.epoch)
      && ToBeWoken(cl, s.epoch) == ToBeWoken(was, s.epoch)
    ensures SoftInv(Set(s, c, cl))
  {
    hide InStep, ToBeWoken, Arrived;
    ArrivalsUpdate(s.clusters, c, cl, s.epoch);
    var s' := Set(s, c, cl);
    assert forall b :: 0 <= b < |s.clusters| && b != c ==> s'.clusters[b] == s.clusters[b];
    assert SomeResetting(s) ==> SomeResetting(s') by {
      if b :| 0 <= b < |s.clusters| && s.clusters[b].dm == Resetting {
        assert s'.clusters[b].dm == Resetting;
      }
    }
    assert SomeWaking(s) ==> SomeWaking(s') by {
      if b :| 0 <= b < |s.clusters| && s.clusters[b].dm.Waking? {
        assert s'.clusters[b].dm.Waking?;
      }
    }
    assert SomeResetting(s') ==> SomeResetting(s) by {
      if b :| 0 <= b < |s.clusters| && s'.clusters[b].dm == Resetting {
        assert s.clusters[b].dm == Resetting;
      }
    }
    forall w | 0 <= w < |s.clusters| ensures WakingOn(s', w) {
      assert WakingOn(s, w);
    }
  }

  /** An arrival that is not the last one goes to sleep. */
  lemma {:induction false} ArriveEarly(s: State, c: nat)
    requires SoftInv(s) && c < |s.clusters| && s.clusters[c].dm == Arriving && s.counter + 1 != |s.clusters|
    ensures SoftInv(Set(s, c, s.clusters[c].(dm := Sleeping)).(counter := s.counter + 1))
  {
    var (cls, cl) := (s.clusters, s.clusters[c].(dm := Sleeping));
    assert InStep(cls[c], s.epoch);
    hide InStep;
    var s' := Set(s, c, cl).(counter := s.counter + 1);
    ArrivalsUpdate(cls, c, cl, s.epoch);
    ArrivalsBound(cls, s.epoch);
    assert InStep(cl, s.epoch) by { AsleepInStep(cls[c], s.epoch); }
    assert forall b :: 0 <= b < |cls| && b != c ==> s'.clusters[b] == cls[b];
    assert !SomeResetting(s) && !SomeResetting(s');
    assert SomeWaking(s) ==> SomeWaking(s') by {
      if b :| 0 <= b < |cls| && cls[b].dm.Waking? {
        assert s'.clusters[b].dm.Waking?;
      }
    }
    assert !ToBeWoken(cl, s.epoch) && !ToBeWoken(cls[c], s.epoch) by { AsleepInStep(cls[c], s.epoch); }
    hide ToBeWoken, Arrived;
    forall w | 0 <= w < |cls| ensures WakingOn(s', w) {
      assert WakingOn(s, w);
    }
  }

  lemma AsleepInStep(cl: Cluster, epoch: nat)
    requires InStep(cl, epoch) && cl.dm == Arriving
    ensures InStep(cl.(dm := Sleeping), epoch) && InStep(cl.(dm := Resetting), epoch) && cl.round == epoch && !cl.irq
  {
  }

  /** With the last arrival, every other cluster sleeps in the current round. */
  lemma {:induction false} ArriveLast(s: State, c: nat)
    requires SoftInv(s) && c < |s.clusters| && s.clusters[c].dm == Arriving && s.counter + 1 == |s.clusters|
    ensures SoftInv(Set(s, c, s.clusters[c].(dm := Resetting)).(counter := s.counter + 1))
  {
    var (cls, cl) := (s.clusters, s.clusters[c].(dm := Resetting));
    assert InStep(cls[c], s.epoch);
    hide InStep;
    AsleepInStep(cls[c], s.epoch);
    var s' := Set(s, c, cl).(counter := s.counter + 1);
    ArrivalsUpdate(cls, c, cl, s.epoch);
    ArrivalsBound(s'.clusters, s.epoch);
    assert s'.clusters[c].dm == Resetting && SomeResetting(s');
    assert !SomeResetting(s);
    forall b | 0 <= b < |cls| && b != c ensures s'.clusters[b] == cls[b] && cls[b].dm == Sleeping && cls[b].round == s.epoch {
      assert Arrived(s'.clusters[b], s.epoch);
    }
  }

  lemma {:induction false} ArriveStep(s: State, c: nat)
    requires SoftInv(s) && Enabled(s, c, Arrive)
    ensures SoftInv(Next(s, c, Arrive))
  {
    hide SoftInv;
    if s.counter + 1 == |s.clusters| {
      ArriveLast(s, c);
    } else {
      ArriveEarly(s, c);
    }
  }

  lemma {:induction false} ResetStep(s: State, c: nat)
    requires SoftInv(s) && Enabled(s, c, Reset)
    ensures SoftInv(Next(s, c, Reset))
  {
    var (cls, s') := (s.clusters, Next(s, c, Reset));
    ArrivalsBound(cls, s.epoch);
    ArrivalsBound(s'.clusters, s'.epoch);
    assert SomeResetting(s);
    forall b | 0 <= b < |cls| && b != c
      ensures s'.clusters[b] == cls[b] && cls[b].dm == Sleeping && cls[b].round == s.epoch && !cls[b].irq
    {
      assert Arrived(cls[b], s.epoch) && InStep(cls[b], s.epoch);
      assert Busy(cls[c]);
    }
    assert s'.clusters[c].dm == Waking(0);
  }

  /** Everything about the waking cluster `c` that a wake-up step uses. */
  lemma {:induction false} OnlyWaker(s: State, c: nat)
    requires SoftInv(s) && c < |s.clusters| && s.clusters[c].dm.Waking?
    ensures InStep(s.clusters[c], s.epoch) && !Arrived(s.clusters[c], s.epoch)
    ensures !SomeResetting(s) && s.counter < |s.clusters|
    ensures forall b :: 0 <= b < |s.clusters| && b != c ==>
      !Busy(s.clusters[b]) && (ToBeWoken(s.clusters[b], s.epoch) <==> b >= s.clusters[c].dm.next)
  {
    hide ToBeWoken;
    assert WakingOn(s, c) && Busy(s.clusters[c]) && InStep(s.clusters[c], s.epoch);
    ArrivalsBound(s.clusters, s.epoch);
  }

  /** Moving on to the next cluster, or out of the loop. */
  lemma {:induction false} WakerMoves(s: State, c: nat, dm: DmPc)
    requires SoftInv(s) && c < |s.clusters| && s.clusters[c].dm.Waking?
    requires var i := s.clusters[c].dm.next;
      if i >= |s.clusters| then dm == DmSecond else dm == Waking(i + 1)
    ensures var s' := Set(s, c, s.clusters[c].(dm := dm));
      && |s'.clusters| > 0 && s'.counter == Arrivals(s'.clusters, s'.epoch) < |s'.clusters|
      && InStep(s'.clusters[c], s'.epoch) && !SomeResetting(s')
      && forall b :: 0 <= b < |s.clusters| && b != c ==> s'.clusters[b] == s.clusters[b]
  {
    OnlyWaker(s, c);
    ArrivalsUpdate(s.clusters, c, s.clusters[c].(dm := dm), s.epoch);
  }

  lemma {:induction false} WakerSkips(s: State, c: nat, dm: DmPc)
    requires SoftInv(s) && c < |s.clusters| && s.clusters[c].dm.Waking?
    requires var i := s.clusters[c].dm.next;
      if i >= |s.clusters| then dm == DmSecond else i == c && dm == Waking(i + 1)
    ensures SoftInv(Set(s, c, s.clusters[c].(dm := dm)))
  {
    hide InStep, Arrived, ToBeWoken;
    var s1 := Set(s, c, s.clusters[c].(dm := dm));
    OnlyWaker(s, c);
    WakerMoves(s, c, dm);
    NotAsleep(s1.clusters[c], s.epoch);
    assert s1.clusters[c].dm == dm;
  }

  lemma {:induction false} WakerInterrupts(s: State, c: nat, i: nat)
    requires SoftInv(s) && c < |s.clusters| && s.clusters[c].dm == Waking(i) && i < |s.clusters| && i != c
    ensures var s1 := Set(s, c, s.clusters[c].(dm := Waking(i + 1)));
      SoftInv(Set(s1, i, s1.clusters[i].(irq := true)))
  {
    hide InStep, Arrived, ToBeWoken;
    OnlyWaker(s, c);
    WakerMoves(s, c, Waking(i + 1));
    Interrupt(Set(s, c, s.clusters[c].(dm := Waking(i + 1))), c, i);
  }

  lemma {:induction false} WakeNextStep(s: State, c: nat)
    requires SoftInv(s) && Enabled(s, c, WakeNext)
    ensures SoftInv(Next(s, c, WakeNext))
  {
    hide SoftInv;
    var i := s.clusters[c].dm.next;
    if i >= |s.clusters| {
      WakerSkips(s, c, DmSecond);
    } else if i == c {
      WakerSkips(s, c, Waking(i + 1));
    } else {
      WakerInterrupts(s, c, i);
    }
  }

  lemma NotAsleep(cl: Cluster, epoch: nat)
    requires cl.dm != Sleeping
    ensures !ToBeWoken(cl, epoch)
  {
  }

  /** Raising the interrupt of the cluster that the waking one has reached. */
  lemma {:induction false} Interrupt(s: State, c: nat, i: nat)
    requires |s.clusters| > 0 && c < |s.clusters| && i < |s.clusters| && i != c
    requires forall b :: 0 <= b < |s.clusters| ==> InStep(s.clusters[b], s.epoch)
    requires s.counter == Arrivals(s.clusters, s.epoch) < |s.clusters| && !SomeResetting(s)
    requires s.clusters[c].dm == Waking(i + 1)
    requires forall b :: 0 <= b < |s.clusters| && b != c ==>
      !Busy(s.clusters[b]) && (ToBeWoken(s.clusters[b], s.epoch) <==> b >= i)
    ensures SoftInv(Set(s, i, s.clusters[i].(irq := true)))
  {
    var cl := s.clusters[i].(irq := true);
    var s' := Set(s, i, cl);
    assert ToBeWoken(s.clusters[i], s.epoch);
    ArrivalsUpdate(s.clusters, i, cl, s.epoch);
    assert s'.clusters[c].dm.Waking?;
    assert InStep(cl, s.epoch) && !ToBeWoken(cl, s.epoch);
    hide InStep, Arrived, ToBeWoken;
    assert forall b :: 0 <= b < |s.clusters| && b != i ==> s'.clusters[b] == s.clusters[b];
    assert !SomeResetting(s');
    assert WakingOn(s', c);
  }

  lemma {:induction false} SoftInvStep(s: State, c: nat, a: Action)
    requires SoftInv(s) && Enabled(s, c, a)
    ensures SoftInv(Next(s, c, a))
  {
    match a
    case Arrive => ArriveStep(s, c);
    case Reset => ResetStep(s, c);
    case WakeNext => WakeNextStep(s, c);
    case _ =>
      assert InStep(s.clusters[c], s.epoch);
      QuietStep(s, c, Next(s, c, a).clusters[c]);
      assert Next(s, c, a) == Set(s, c, Next(s, c, a).clusters[c]);
  }

  /** Every state of every run satisfies the invariant. */
  lemma {:induction false} RunInv(run: seq<State>, i: nat)
    requires Run(run) && i < |run|
    ensures Inv(run[i])
  {
    if i == 0 {
      InitialInv(run[0]);
    } else {
      RunInv(run, i - 1);
      assert Follows(run[i - 1], run[i]);
      var c, a :| Enabled(run[i - 1], c, a) && run[i] == Next(run[i - 1], c, a);
      SoftInvStep(run[i - 1], c, a);
      HardInvStep(run[i - 1], c, a);
    }
  }

  // ----- What the barrier guarantees

  /** The cluster's DM core has entered round `r` of the software barrier. */
  predicate ArrivedIn(cl: Cluster, r: nat) {
    cl.round > r || (cl.round == r && cl.dm != DmOut && cl.dm != DmFirst && cl.dm != Arriving)
  }

  /** No cluster leaves a round of the software barrier before every cluster has arrived in it. */
  lemma SoftwareBarrierSafe(run: seq<State>, i: nat, b: nat, c: nat, r: nat)
    requires Run(run) && i < |run| && b < |run[i].clusters| && c < |run[i].clusters|
    requires run[i].clusters[c].round > r || (run[i].clusters[c].round == r && run[i].clusters[c].dm == DmSecond)
    ensures ArrivedIn(run[i].clusters[b], r)
  {
    RunInv(run, i);
    var s := run[i];
    assert InStep(s.clusters[c], s.epoch) && InStep(s.clusters[b], s.epoch);
  }

  /** No core leaves its r-th global barrier before every core has entered its r-th. */
  lemma {:induction false} GlobalBarrierSafe(run: seq<State>, i: nat, c: nat, r: nat, c': nat)
    requires Run(run) && i < |run| && c < |run[i].clusters| && c' < |run[i].clusters|
    requires SomeCoreLeft(run[i].clusters[c], r)
    ensures EveryCoreEntered(run[i].clusters[c'], r)
  {
    hide SoftInv, Run, WakingOn;
    RunInv(run, i);
    var s := run[i];
    RoundsInStep(s, c);
    RoundsInStep(s, c');
    assert HardInv(s.clusters[c]) && HardInv(s.clusters[c']);
    LeavingMeansAhead(s.clusters[c], s.epoch, r);
    AheadMeansEntered(s.clusters[c'], s.epoch, r);
  }

  /** A compute core or the DM core of the cluster is out of its r-th global barrier. */
  ghost predicate SomeCoreLeft(cl: Cluster, r: nat) {
    cl.round > r || exists j :: 0 <= j < |cl.cores| && cl.cores[j].round > r
  }

  /** Every compute core and the DM core of the cluster have entered their r-th global barrier. */
  ghost predicate EveryCoreEntered(cl: Cluster, r: nat) {
    && (cl.round > r || (cl.round == r && cl.dm != DmOut))
    && forall j :: 0 <= j < |cl.cores| ==> cl.cores[j].round > r || (cl.cores[j].round == r && cl.cores[j].pc != Out)
  }

  lemma {:induction false} RoundsInStep(s: State, c: nat)
    requires SoftInv(s) && c < |s.clusters|
    ensures InStep(s.clusters[c], s.epoch)
  {}

  lemma {:induction false} LeavingMeansAhead(cl: Cluster, epoch: nat, r: nat)
    requires HardInv(cl) && InStep(cl, epoch) && SomeCoreLeft(cl, r)
    ensures epoch > r
  {
    if cl.round <= r {
      var j :| 0 <= j < |cl.cores| && cl.cores[j].round > r;
      assert Left(cl.cores[j]) <= DmEntered(cl);
    }
  }

  lemma {:induction false} AheadMeansEntered(cl: Cluster, epoch: nat, r: nat)
    requires HardInv(cl) && InStep(cl, epoch) && epoch > r
    ensures EveryCoreEntered(cl, r)
  {
    forall j | 0 <= j < |cl.cores|
      ensures cl.cores[j].round > r || (cl.cores[j].round == r && cl.cores[j].pc != Out)
    {
      assert DmLeft(cl) <= Entered(cl.cores[j]);
    }
  }

  /** No wake-up is lost: a DM core that sleeps although its round is complete is interrupted,
      or the waking cluster is still to reach it.  No wake-up is carried over: an interrupt is
      pending only for a DM core that has not left its completed round yet. */
  lemma {:induction false} WakeUpsMatchRounds(run: seq<State>, i: nat, c: nat)
    requires Run(run) && i < |run| && c < |run[i].clusters|
    ensures var cl := run[i].clusters[c];
      && (cl.dm == Sleeping && (forall b :: 0 <= b < |run[i].clusters| ==> ArrivedIn(run[i].clusters[b], cl.round)) ==>
            cl.irq || exists w :: 0 <= w < |run[i].clusters| && w != c && WillWake(run[i].clusters[w], c))
      && (cl.irq ==> (cl.dm == Sleeping || cl.dm == Clearing)
                     && forall b :: 0 <= b < |run[i].clusters| ==> ArrivedIn(run[i].clusters[b], cl.round))
  {
    RunInv(run, i);
    var (s, cl) := (run[i], run[i].clusters[c]);
    ArrivalsBound(s.clusters, s.epoch);
    forall b | 0 <= b < |s.clusters| ensures InStep(s.clusters[b], s.epoch) && (cl.irq ==> ArrivedIn(s.clusters[b], cl.round)) {
      assert InStep(s.clusters[b], s.epoch) && InStep(cl, s.epoch);
    }
    if cl.dm == Sleeping && !cl.irq && (forall b :: 0 <= b < |s.clusters| ==> ArrivedIn(s.clusters[b], cl.round)) {
      if cl.round == s.epoch {
        assert forall b :: 0 <= b < |s.clusters| ==> Arrived(s.clusters[b], s.epoch);
        var w :| 0 <= w < |s.clusters| && s.clusters[w].dm == Resetting;
        assert WillWake(s.clusters[w], c);
      } else {
        assert ToBeWoken(cl, s.epoch);
        var w :| 0 <= w < |s.clusters| && s.clusters[w].dm.Waking?;
        assert WakingOn(s, w);
        assert WillWake(s.clusters[w], c);
      }
    }
  }

  /** The cluster is the last arrival and has not interrupted cluster `c` yet. */
  predicate WillWake(cl: Cluster, c: nat) {
    cl.dm == Resetting || (cl.dm.Waking? && cl.dm.next <= c)
  }

  // ----- No deadlock

  lemma {:induction false} HindmostCore(cores: seq<Core>) returns (j: nat)
    requires |cores| > 0
    ensures j < |cores| && forall i :: 0 <= i < |cores| ==> Entered(cores[j]) <= Entered(cores[i])
  {
    hide Entered;
    j := 0;
    for i := 1 to |cores|
      invariant j < |cores| && forall b :: 0 <= b < i ==> Entered(cores[j]) <= Entered(cores[b])
    {
      if Entered(cores[i]) < Entered(cores[j]) {
        j := i;
      }
    }
  }

  /** In a cluster whose cores all wait in a hardware barrier, the hindmost core can leave. */
  lemma {:induction false} HardProgress(s: State, c: nat) returns (a: Action)
    requires c < |s.clusters|
    requires var cl := s.clusters[c];
      (cl.dm == DmFirst || cl.dm == DmSecond) && forall j :: 0 <= j < |cl.cores| ==> cl.cores[j].pc != Out
    ensures Enabled(s, c, a)
  {
    var cl := s.clusters[c];
    var dmLeaves := if cl.dm == DmFirst then LeaveFirstDm else LeaveSecondDm;
    if cl.cores == [] {
      a := dmLeaves;
    } else {
      var j := HindmostCore(cl.cores);
      var k := cl.cores[j];
      if DmEntered(cl) < Entered(k) {
        a := dmLeaves;
        assert Released(cl, DmEntered(cl));
      } else {
        a := if k.pc == First then LeaveFirst(j) else LeaveSecond(j);
        assert Released(cl, Entered(k));
      }
    }
  }

  /** While every core is inside the global barrier, some core can take a step. */
  lemma NoDeadlock(run: seq<State>, i: nat)
    requires Run(run) && i < |run|
    requires forall c :: 0 <= c < |run[i].clusters| ==>
      run[i].clusters[c].dm != DmOut && forall j :: 0 <= j < |run[i].clusters[c].cores| ==> run[i].clusters[c].cores[j].pc != Out
    ensures exists c, a :: Enabled(run[i], c, a)
  {
    RunInv(run, i);
    var s := run[i];
    if c :| 0 <= c < |s.clusters| && (s.clusters[c].dm == DmFirst || s.clusters[c].dm == DmSecond) {
      var a := HardProgress(s, c);
    } else {
      forall c | 0 <= c < |s.clusters| ensures (s.clusters[c].dm == Sleeping && !s.clusters[c].irq) || exists a :: Enabled(s, c, a) {
        assert InStep(s.clusters[c], s.epoch);
        SoftProgress(s, c);
      }
      SomeoneAwake(s);
    }
  }

  /** The clusters never all sleep without an interrupt. */
  lemma {:induction false} SomeoneAwake(s: State)
    requires SoftInv(s)
    ensures exists c :: 0 <= c < |s.clusters| && (s.clusters[c].dm != Sleeping || s.clusters[c].irq)
  {
    ArrivalsBound(s.clusters, s.epoch);
    if SomeResetting(s) {
      var c :| 0 <= c < |s.clusters| && s.clusters[c].dm == Resetting;
    } else {
      var c :| 0 <= c < |s.clusters| && !Arrived(s.clusters[c], s.epoch);
      assert InStep(s.clusters[c], s.epoch);
      if ToBeWoken(s.clusters[c], s.epoch) {
        var w :| 0 <= w < |s.clusters| && s.clusters[w].dm.Waking?;
      }
    }
  }

  lemma {:induction false} SoftProgress(s: State, c: nat)
    requires c < |s.clusters| && InStep(s.clusters[c], s.epoch)
    requires s.clusters[c].dm != DmOut && s.clusters[c].dm != DmFirst && s.clusters[c].dm != DmSecond
    ensures (s.clusters[c].dm == Sleeping && !s.clusters[c].irq) || exists a :: Enabled(s, c, a)
  {
    match s.clusters[c].dm
    case Arriving => assert Enabled(s, c, Arrive);
    case Resetting => assert Enabled(s, c, Reset);
    case Waking(_) => assert Enabled(s, c, WakeNext);
    case Sleeping => assert s.clusters[c].irq ==> Enabled(s, c, WakeUp);
    case Clearing => assert Enabled(s, c, Clear);
    case Cleared => assert Enabled(s, c, SeeCleared);
  }

  // ----- Every schedule gets through the rounds

  /** How far a compute core has come. */
  function Ahead(k: Core): (n: nat) {
    3 * k.round + match k.pc case Out => 0 case First => 1 case Second => 2
  }

  /** How far a DM core has come, in a communicator of `n` clusters. */
  function DmAhead(dm: DmPc, round: nat, n: nat): (m: nat) {
    (n + 7) * round + match dm
                      case DmOut => 0 case DmFirst => 1 case Arriving => 2
                      case Sleeping => 3 case Clearing => 4 case Cleared => 5
                      case Resetting => 4 case Waking(i) => if i < n then 5 + i else 5 + n
                      case DmSecond => 6 + n
  }

  ghost function ClusterAhead(n: nat): (f: Cluster -> nat) {
    (cl: Cluster) => DmAhead(cl.dm, cl.round, n) + Sum(cl.cores, Ahead)
  }

  ghost function AllAhead(s: State): (n: nat) {
    Sum(s.clusters, ClusterAhead(|s.clusters|))
  }

  lemma {:induction false} CoreMoveAhead(cl: Cluster, j: nat, k: Core, n: nat)
    requires j < |cl.cores| && Ahead(k) > Ahead(cl.cores[j])
    ensures ClusterAhead(n)(cl.(cores := cl.cores[j := k])) > ClusterAhead(n)(cl)
  {
    hide DmAhead, Ahead;
    SumUpdate(cl.cores, j, k, Ahead);
  }

  lemma {:induction false} DmMoveAhead(cl: Cluster, cl': Cluster, n: nat)
    requires cl'.cores == cl.cores && DmAhead(cl'.dm, cl'.round, n) > DmAhead(cl.dm, cl.round, n)
    ensures ClusterAhead(n)(cl') > ClusterAhead(n)(cl)
  {
    hide DmAhead;
  }

  predicate OfDm(a: Action) {
    !a.Enter? && !a.LeaveFirst? && !a.LeaveSecond?
  }

  lemma {:induction false} DmStepAhead(s: State, c: nat, a: Action)
    requires Enabled(s, c, a) && OfDm(a)
    ensures var (n, cl, cl') := (|s.clusters|, s.clusters[c], Next(s, c, a).clusters[c]);
      cl'.cores == cl.cores && DmAhead(cl'.dm, cl'.round, n) > DmAhead(cl.dm, cl.round, n)
  {
    hide Released;
    var (n, cl) := (|s.clusters|, s.clusters[c]);
    assert (n + 7) * (cl.round + 1) == (n + 7) * cl.round + (n + 7);
  }

  /** The cluster that takes a step comes ahead. */
  lemma {:induction false} ClusterStepAhead(s: State, c: nat, a: Action)
    requires Enabled(s, c, a)
    ensures var n := |s.clusters|; ClusterAhead(n)(Next(s, c, a).clusters[c]) > ClusterAhead(n)(s.clusters[c])
  {
    hide ClusterAhead, DmAhead, Released;
    var (n, cl, cl') := (|s.clusters|, s.clusters[c], Next(s, c, a).clusters[c]);
    match a
    case Enter(j) => CoreMoveAhead(cl, j, cl'.cores[j], n);
    case LeaveFirst(j) => CoreMoveAhead(cl, j, cl'.cores[j], n);
    case LeaveSecond(j) => CoreMoveAhead(cl, j, cl'.cores[j], n);
    case _ =>
      DmStepAhead(s, c, a);
      DmMoveAhead(cl, cl', n);
  }

  lemma {:induction false} SumSame(s: seq<Cluster>, s': seq<Cluster>, f: Cluster -> nat)
    requires |s| == |s'| && forall b :: 0 <= b < |s| ==> f(s'[b]) == f(s[b])
    ensures Sum(s', f) == Sum(s, f)
  {
    if s != [] {
      SumSame(s[..|s| - 1], s'[..|s| - 1], f);
    }
  }

  ghost predicate SameCores(s: State, s': State) {
    |s'.clusters| == |s.clusters| && forall b :: 0 <= b < |s.clusters| ==> |s'.clusters[b].cores| == |s.clusters[b].cores|
  }

  lemma {:induction false} StepKeepsCores(s: State, c: nat, a: Action)
    requires Enabled(s, c, a)
    ensures SameCores(s, Next(s, c, a))
  {}

  lemma {:induction false} StepAhead(s: State, c: nat, a: Action)
    requires Enabled(s, c, a)
    ensures |Next(s, c, a).clusters| == |s.clusters| && AllAhead(Next(s, c, a)) > AllAhead(s)
  {
    hide Enabled, Next;
    SameSize(s, c, a);
    var (s', f) := (Next(s, c, a), ClusterAhead(|s.clusters|));
    var mid := s.clusters[c := s'.clusters[c]];
    ClusterStepAhead(s, c, a);
    SumUpdate(s.clusters, c, s'.clusters[c], f);
    forall b | 0 <= b < |mid| ensures f(s'.clusters[b]) == f(mid[b]) {
      if b != c {
        OthersKeep(s, c, a, b);
      }
    }
    SumSame(mid, s'.clusters, f);
  }

  lemma {:induction false} RunAhead(run: seq<State>, i: nat)
    requires Run(run) && i < |run|
    ensures AllAhead(run[i]) >= i && SameCores(run[0], run[i])
  {
    hide AllAhead;
    if i > 0 {
      RunAhead(run, i - 1);
      assert Follows(run[i - 1], run[i]);
      hide Enabled, Next;
      var c, a :| Enabled(run[i - 1], c, a) && run[i] == Next(run[i - 1], c, a);
      StepAhead(run[i - 1], c, a);
      StepKeepsCores(run[i - 1], c, a);
    }
  }

  /** Every core is in the current round, or has not left the one before it. */
  lemma {:induction false} RoundsNearEpoch(cl: Cluster, epoch: nat)
    requires HardInv(cl) && InStep(cl, epoch)
    ensures cl.round <= epoch <= cl.round + 1
    ensures forall j :: 0 <= j < |cl.cores| ==> cl.cores[j].round <= epoch <= cl.cores[j].round + 1
  {
    forall j | 0 <= j < |cl.cores| ensures cl.cores[j].round <= epoch <= cl.cores[j].round + 1 {
      assert Left(cl.cores[j]) <= DmEntered(cl) && DmLeft(cl) <= Entered(cl.cores[j]);
    }
  }

  ghost predicate CoresBelow(cls: seq<Cluster>, most: nat) {
    forall c :: 0 <= c < |cls| ==> |cls[c].cores| <= most
  }

  /** The steps that a cluster with `m` compute cores can take up to the end of its r-th round. */
  function RoundSteps(n: nat, m: nat, r: nat): (k: nat) {
    (n + 7) * (r + 1) + m * (3 * r + 2)
  }

  lemma {:induction false} AheadBound(cl: Cluster, n: nat, m: nat, r: nat)
    requires cl.round <= r && |cl.cores| <= m && forall j :: 0 <= j < |cl.cores| ==> cl.cores[j].round <= r
    ensures ClusterAhead(n)(cl) <= RoundSteps(n, m, r)
  {
    SumBound(cl.cores, Ahead, 3 * r + 2);
    Grows(n + 7, cl.round, r);
    Grows(3 * r + 2, |cl.cores|, m);
    assert (n + 7) * (r + 1) == (n + 7) * r + (n + 7);
  }

  lemma {:induction false} Grows(k: nat, x: nat, y: nat)
    requires x <= y
    ensures k * x <= k * y && x * k <= y * k
  {}

  /** Every compute core and the DM core of the cluster have left `r` global barriers. */
  ghost predicate EveryCoreLeft(cl: Cluster, r: nat) {
    cl.round >= r && forall j :: 0 <= j < |cl.cores| ==> cl.cores[j].round >= r
  }

  lemma {:induction false} EpochBounds(run: seq<State>, i: nat, c: nat)
    requires Run(run) && i < |run| && c < |run[i].clusters|
    ensures var (cl, epoch) := (run[i].clusters[c], run[i].epoch);
      && cl.round <= epoch <= cl.round + 1
      && forall j :: 0 <= j < |cl.cores| ==> cl.cores[j].round <= epoch <= cl.cores[j].round + 1
  {
    hide SoftInv, Run, HardInv, InStep;
    RunInv(run, i);
    RoundsInStep(run[i], c);
    RoundsNearEpoch(run[i].clusters[c], run[i].epoch);
  }

  /** Every run of enough steps, in any interleaving, brings every core of every cluster out of `r`
      global barriers. */
  lemma {:induction false} RoundsComplete(run: seq<State>, m: nat, r: nat, c: nat)
    requires Run(run) && CoresBelow(run[0].clusters, m) && c < |run[0].clusters|
    requires |run| - 1 > |run[0].clusters| * RoundSteps(|run[0].clusters|, m, r)
    ensures |run[|run| - 1].clusters| == |run[0].clusters| && EveryCoreLeft(run[|run| - 1].clusters[c], r)
  {
    hide Run, RoundSteps, ClusterAhead;
    var last := |run| - 1;
    var (s, n) := (run[last], |run[0].clusters|);
    RunAhead(run, last);
    EpochBounds(run, last, c);
    if s.epoch <= r {
      forall b | 0 <= b < n ensures ClusterAhead(n)(s.clusters[b]) <= RoundSteps(n, m, r) {
        EpochBounds(run, last, b);
        AheadBound(s.clusters[b], n, m, r);
      }
      SumBound(s.clusters, ClusterAhead(n), RoundSteps(n, m, r));
    }
  }

  /** In every reachable state some core can step, so every run can be carried on. */
  lemma {:induction false} AlwaysSomeStep(run: seq<State>, i: nat)
    requires Run(run) && i < |run|
    ensures exists c, a :: Enabled(run[i], c, a)
  {
    hide Run;
    if c :| 0 <= c < |run[i].clusters| && run[i].clusters[c].dm == DmOut {
      assert Enabled(run[i], c, EnterDm);
    } else if c, j :| 0 <= c < |run[i].clusters| && 0 <= j < |run[i].clusters[c].cores| && run[i].clusters[c].cores[j].pc == Out {
      assert Enabled(run[i], c, Enter(j));
    } else {
      NoDeadlock(run, i);
    }
  }
}
