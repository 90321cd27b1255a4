/**
 Progress of the data mover with a sole client.  A client inside a call is stuck exactly when it
 waits for room in a full queue while the DM core sleeps: queued transfers are started by a later
 `dm_start` or `dm_wait` only, which the client never reaches.
 */
module DataMoverProgress {
  import opened DataMover

  predicate IsAsking(pc: ClientPc) {
    pc == AwaitingSleep(Asking) || pc == Interrupting(Asking) || pc == AwaitingValid
  }

  predicate Asleep(dm: DmPc) {
    dm == Sleeping || dm == ClearingIrq || dm == Lowering
  }

  ghost predicate AllSignalled(entries: seq<Entry>) {
    forall i :: 0 <= i < |entries| ==> entries[i].signalled
  }

  ghost predicate AllOwned(entries: seq<Entry>) {
    forall i :: 0 <= i < |entries| ==> entries[i].owner == 0
  }

  /** The requests of the client: in `dm_wait` they are all signalled. */
  ghost predicate EntriesInv(s: State) {
    && |s.clients| == 1 && AllOwned(s.log.entries)
    && (s.clients[0] == DrainQueue ==> AllSignalled(s.log.entries))
  }

  /** The words of the handshake. */
  ghost predicate HandshakeInv(s: State) {
    && |s.clients| == 1
    && s.ctl.wfi == (if Asleep(s.dm) then 1 else 0)
    && (s.dm == ClearingStat ==> s.ctl.pvalid)
    && var pc := s.clients[0];
    && (s.ctl.statQ && !IsAsking(pc) ==> s.dm == ClearingStat)
    && (IsAsking(pc) && s.ctl.statQ && s.ctl.pvalid ==> s.dm == ClearingStat)
    && (IsAsking(pc) && !s.ctl.pvalid ==> s.ctl.statQ)
    && (IsAsking(pc) ==> s.log.statBy.owner == 0)
    && (pc == AwaitingValid && s.ctl.statQ ==> s.log.statBy.signalled)
  }

  ghost predicate ProgressInv(s: State) {
    EntriesInv(s) && HandshakeInv(s)
  }

  lemma {:induction false} ProgressStepDm(s: State)
    requires ProgressInv(s)
    ensures ProgressInv(DmNext(s))
  {}

  lemma {:induction false} EntriesStepClient(s: State)
    requires EntriesInv(s)
    ensures EntriesInv(ClientNext(s, 0))
  {
    SignalAll(s.log.entries);
    hide Signal;
  }

  lemma {:induction false} HandshakeStepClient(s: State)
    requires HandshakeInv(s) && WaitInv(s)
    ensures HandshakeInv(ClientNext(s, 0))
  {
    hide Signal;
  }

  lemma {:induction false} SignalAll(entries: seq<Entry>)
    requires AllOwned(entries)
    ensures AllOwned(Signal(entries, 0)) && AllSignalled(Signal(entries, 0))
  {}

  lemma {:induction false} ProgressStep(s: State, a: Action)
    requires ProgressInv(s) && WaitInv(s)
    ensures ProgressInv(Next(s, a))
  {
    hide ClientNext, DmNext;
    match a
    case DmStep => ProgressStepDm(s);
    case ClientStep(c) =>
      if c == 0 {
        EntriesStepClient(s);
        HandshakeStepClient(s);
      }
    case _ =>
  }

  lemma {:induction false} ProgressRunInv(s: State, run: seq<Action>)
    requires Initial(s) && |s.clients| == 1
    ensures ProgressInv(Exec(s, run))
    decreases |run|
  {
    if run != [] {
      ProgressRunInv(s, run[..|run| - 1]);
      SoleRunInv(s, run[..|run| - 1]);
      hide Next, ProgressInv, RingInv, WaitInv, FillInv;
      ProgressStep(Exec(s, run[..|run| - 1]), run[|run| - 1]);
    }
  }

  // ----- When nothing can go on

  /** The DM core sleeps, no interrupt is pending, and the client waits for room in a full queue. */
  predicate FullAndAsleep(s: State) {
    && |s.clients| == 1 && s.clients[0].Polling? && s.ring.fill >= SLOTS
    && s.dm == Sleeping && !s.ctl.irq
  }

  /** Neither the DM core nor the client can change the state. */
  predicate Stuck(s: State)
    requires |s.clients| == 1
  {
    DmNext(s) == s && ClientNext(s, 0) == s
  }

  lemma {:induction false} DmStopsIff(s: State)
    requires RingInv(s) && FillInv(s)
    ensures DmNext(s) == s <==> s.dm == Sleeping && !s.ctl.irq
  {
    hide AdmittedCount, FrontAt;
  }

  lemma {:induction false} ClientStopsIff(s: State)
    requires RingInv(s) && LockInv(s) && WakeInv(s) && FillInv(s) && ProgressInv(s)
    requires s.dm == Sleeping && !s.ctl.irq && s.clients[0] != Idle
    ensures ClientNext(s, 0) == s <==> s.clients[0].Polling? && s.ring.fill >= SLOTS
  {
    hide AdmittedCount, FrontAt, Signal;
    var pc := s.clients[0];
    assert |s.log.entries| > 0 && AllSignalled(s.log.entries) ==> SomeSignalled(s.log.entries) by {
      if |s.log.entries| > 0 && AllSignalled(s.log.entries) {
        assert s.log.entries[0].signalled;
      }
    }
    assert s.ctl.mutex ==> Holds(pc);
    assert ClientNext(s, 0) == s ==> ClientNext(s, 0).clients[0] == pc;
  }

  /** In every reachable state, a sole client inside a call is stuck exactly in the full queue of a sleeping DM core. */
  lemma {:induction false} StuckIffFullAndAsleep(s: State, run: seq<Action>)
    requires Initial(s) && |s.clients| == 1 && Exec(s, run).clients[0] != Idle
    ensures Stuck(Exec(s, run)) <==> FullAndAsleep(Exec(s, run))
  {
    hide Exec, DmNext, ClientNext, RingInv, FillInv, LockInv, WakeInv, ProgressInv, WaitInv;
    RunInv(s, run);
    SoleRunInv(s, run);
    ProgressRunInv(s, run);
    var t := Exec(s, run);
    DmStopsIff(t);
    if t.dm == Sleeping && !t.ctl.irq {
      ClientStopsIff(t);
    }
  }

  /** No action of anybody ends such a state. */
  lemma {:induction false} StuckForever(s: State, run: seq<Action>)
    requires FullAndAsleep(s)
    ensures FullAndAsleep(Exec(s, run))
    decreases |run|
  {
    hide Next;
    if run != [] {
      StuckForever(s, run[..|run| - 1]);
      NothingHappens(Exec(s, run[..|run| - 1]), run[|run| - 1]);
    }
  }

  lemma {:induction false} NothingHappens(s: State, a: Action)
    requires FullAndAsleep(s)
    ensures FullAndAsleep(Next(s, a))
  {}

  /** After the DM core has fallen asleep, a fifth copy without `dm_start` never returns. */
  lemma {:induction false} FifthCopyIsStuck(s: State) returns (run: seq<Action>)
    requires Initial(s) && |s.clients| == 1
    ensures FullAndAsleep(Exec(s, run))
  {
    hide Exec, Next;
    var r0 := FallAsleep(s);
    var r1 := OneCopy(s, r0, 1);
    var r2 := OneCopy(s, r1, 2);
    var r3 := OneCopy(s, r2, 3);
    var r4 := OneCopy(s, r3, 4);
    ExecSnoc(s, r4, BeginCopy(0, 5));
    BeginsToPoll(Exec(s, r4), 5);
    run := r4 + [BeginCopy(0, 5)];
  }

  lemma {:induction false} BeginsToPoll(s: State, t: Task)
    requires |s.clients| == 1 && s.clients[0] == Idle
    ensures Next(s, BeginCopy(0, t)) == At(s, 0, Polling(t))
  {}

  lemma {:induction false} FallAsleep(s: State) returns (run: seq<Action>)
    requires Initial(s)
    ensures var u := Exec(s, run);
      u.dm == Sleeping && u.ring == s.ring && u.clients == s.clients && !u.ctl.mutex && !u.ctl.irq
  {
    hide Exec, ClientNext;
    ExecNothing(s);
    run := [];
    for i := 0 to 5
      invariant var u := Exec(s, run);
        && u == s.(dm := u.dm, ctl := u.ctl)
        && u.dm == [Top, StatTest, FillTest, SleepTest, Incrementing, Sleeping][i]
        && !u.ctl.statQ && !u.ctl.mutex && !u.ctl.irq
    {
      ExecSnoc(s, run, DmStep);
      run := run + [DmStep];
    }
  }
}
