/**
 The calls of a sole client come to their end.  The DM core, left to itself, serves the queue and
 answers a status request before it sleeps; a client whose DM core sleeps goes on by itself, unless it
 polls a full queue.  So from every reachable state `dm_start` and `dm_wait` can return with all tasks
 issued, and a copy can return exactly when the DM core has not turned to sleep over a full queue.
 */
module DataMoverWait {
  import opened DataMover
  import opened DataMoverProgress

  /** What holds in every reachable state with a sole client. */
  ghost predicate Sound(s: State) {
    && |s.clients| == 1
    && FillInv(s) && LockInv(s) && WakeInv(s) && RingInv(s) && WaitInv(s) && ProgressInv(s)
    && (s.dm == ClearingIrq ==> s.ctl.irq)
  }

  lemma {:induction false} ClearsPending(s: State, a: Action)
    requires s.dm == ClearingIrq ==> s.ctl.irq
    ensures Next(s, a).dm == ClearingIrq ==> Next(s, a).ctl.irq
  {
    hide Signal, ClientRing, ClientLog, DmRing, DmLog;
  }

  lemma {:induction false} SoundStep(s: State, a: Action)
    requires Sound(s)
    ensures Sound(Next(s, a))
  {
    ClearsPending(s, a);
    hide Next, FillInv, LockInv, WakeInv, RingInv, WaitInv, ProgressInv;
    FillStep(s, a);
    LockStep(s, a);
    WakeStep(s, a);
    RingStep(s, a);
    WaitStep(s, a);
    ProgressStep(s, a);
  }

  lemma {:induction false} SoundRun(s: State, run: seq<Action>)
    requires Sound(s)
    ensures Sound(Exec(s, run))
    decreases |run|
  {
    hide Sound, Next;
    if run != [] {
      SoundRun(s, run[..|run| - 1]);
      SoundStep(Exec(s, run[..|run| - 1]), run[|run| - 1]);
    }
  }

  lemma {:induction false} InitialIsSound(s: State)
    requires Initial(s) && |s.clients| == 1
    ensures Sound(s)
  {
    ExecNothing(s);
    hide Exec, FillInv, LockInv, WakeInv, RingInv, WaitInv, ProgressInv;
    RunInv(s, []);
    SoleRunInv(s, []);
    ProgressRunInv(s, []);
  }

  lemma {:induction false} ReachableIsSound(s: State, run: seq<Action>)
    requires Initial(s) && |s.clients| == 1
    ensures Sound(Exec(s, run))
  {
    hide Exec, Sound, Initial;
    InitialIsSound(s);
    SoundRun(s, run);
  }

  // ----- Continuations

  /** Steps of the two cores and of the DMA: the client begins no further call. */
  predicate Ours(run: seq<Action>) {
    forall i :: 0 <= i < |run| ==> run[i] == DmStep || run[i] == DmaIdle || run[i] == ClientStep(0)
  }

  lemma {:induction false} ExecAppend(s: State, run: seq<Action>, more: seq<Action>)
    ensures Exec(s, run + more) == Exec(Exec(s, run), more)
    decreases |more|
  {
    hide Next;
    if more == [] {
      assert run + more == run;
    } else {
      var most := more[..|more| - 1];
      ExecAppend(s, run, most);
      assert (run + more)[..|run + more| - 1] == run + most;
    }
  }

  lemma {:induction false} ExecCons(s: State, a: Action, more: seq<Action>)
    ensures Exec(s, [a] + more) == Exec(Next(s, a), more)
  {
    hide Next;
    ExecAppend(s, [a], more);
    assert [a][..0] == [];
  }

  // ----- The DM core by itself

  predicate Resting(s: State) {
    s.dm == Sleeping && !s.ctl.irq
  }

  /** What happens while the client does nothing: a step of the DM core, or the DMA becomes idle when
      the DM core waits for that. */
  function Turn(s: State): (a: Action) {
    if s.dm == BusyTest && s.ctl.busy then DmaIdle else DmStep
  }

  function ServeRank(dm: DmPc): (r: nat)
    ensures r <= 22
  {
    match dm
    case StatTest => 20 case BusyTest => 19 case Validating => 18 case ClearingStat => 17
    case FillTest => 16 case SleepTest => 15 case Incrementing => 14 case Sleeping => 13
    case ClearingIrq => 12 case Lowering => 11 case Top => 10
    case AwaitingDma => 9 case Issuing => 8 case Popping => 7 case Decrementing => 6
  }

  function AnswerRank(dm: DmPc): (r: nat)
    ensures r <= 22
  {
    match dm
    case FillTest => 20 case SleepTest => 19 case Incrementing => 18 case Sleeping => 17
    case ClearingIrq => 16 case Lowering => 15 case Top => 14
    case StatTest => 13 case BusyTest => 12 case Validating => 11 case ClearingStat => 10
    case _ => 0
  }

  function SleepRank(dm: DmPc): (r: nat)
    ensures r <= 22
  {
    match dm
    case Lowering => 22 case Top => 21 case StatTest => 20 case FillTest => 19
    case SleepTest => 18 case Incrementing => 17 case Sleeping => 16 case ClearingIrq => 15
    case _ => 0
  }

  /** How far the DM core is from serving the next task, from its answer, or from its sleep. */
  function Rank(s: State): (r: nat)
    ensures r <= 22
  {
    if s.ring.fill > 0 then ServeRank(s.dm) else if s.ctl.statQ then AnswerRank(s.dm) else SleepRank(s.dm)
  }

  function One(b: bool): (n: nat) {
    if b then 1 else 0
  }

  function Work(s: State): (w: nat) {
    2 * (60 * (s.ring.fill + One(s.ctl.statQ) + One(s.ctl.irq)) + Rank(s)) + One(s.ctl.busy)
  }

  lemma {:induction false} TurnWorks(s: State)
    requires Sound(s) && !Resting(s)
    ensures Work(Next(s, Turn(s))) < Work(s)
  {
    hide FillInv, LockInv, WakeInv, RingInv, ProgressInv, AdmittedCount;
    assert (Serving(s.dm) ==> s.ring.fill > 0) && !DmWaits(s.dm, s.ring, s.ctl) by {
      DmServes(s);
    }
    TurnRanks(s);
  }

  lemma {:induction false} DmServes(s: State)
    requires FillInv(s) && RingInv(s) && !Resting(s)
    ensures (Serving(s.dm) ==> s.ring.fill > 0) && !DmWaits(s.dm, s.ring, s.ctl)
  {
    hide AdmittedCount, FrontAt;
  }

  lemma {:induction false} TurnRanks(s: State)
    requires (Serving(s.dm) ==> s.ring.fill > 0) && !DmWaits(s.dm, s.ring, s.ctl) && !Resting(s)
    requires (Answering(s.dm) ==> s.ctl.statQ) && (s.dm == ClearingIrq ==> s.ctl.irq)
    ensures Work(Next(s, Turn(s))) < Work(s)
  {}

  /** A copy that will never return: the queue is full, the DM core has read it empty, and nobody wakes it. */
  predicate Doomed(s: State) {
    |s.clients| == 1 && s.clients[0].Polling? && s.ring.fill >= SLOTS && SawEmpty(s.dm) && !s.ctl.irq
  }

  lemma {:induction false} TurnKeeps(s: State)
    requires Sound(s)
    ensures var s' := Next(s, Turn(s));
      && s'.clients == s.clients && s'.log.submitted == s.log.submitted
      && (!Doomed(s) ==> !Doomed(s'))
      && (AllSignalled(s.log.entries) ==> AllSignalled(s'.log.entries))
  {
    if AllSignalled(s.log.entries) {
      TurnSignals(s);
    }
    hide FillInv, LockInv, WakeInv, RingInv, WaitInv, ProgressInv, ClientNext, AllSignalled, DmRing;
    FillFalls(s.ring, s.dm);
  }

  lemma {:induction false} FillFalls(ring: Ring, dm: DmPc)
    ensures DmRing(ring, dm).fill <= ring.fill
  {}

  lemma {:induction false} TurnSignals(s: State)
    requires AllSignalled(s.log.entries)
    ensures AllSignalled(Next(s, Turn(s)).log.entries)
  {
    hide ClientNext, DmRing, DmControl, DmPcAfter;
  }

  /** The DM core comes to rest. */
  lemma {:induction false} Settle(s: State) returns (more: seq<Action>)
    requires Sound(s)
    ensures Ours(more)
    ensures var s' := Exec(s, more);
      && Sound(s') && Resting(s') && s'.clients == s.clients && s'.log.submitted == s.log.submitted
      && (!Doomed(s) ==> !Doomed(s'))
      && (AllSignalled(s.log.entries) ==> AllSignalled(s'.log.entries))
    decreases Work(s)
  {
    hide Sound, Next, Work, Doomed, Exec, AllSignalled;
    more := [];
    if Resting(s) {
      ExecNothing(s);
    } else {
      TurnWorks(s);
      TurnKeeps(s);
      var s' := Next(s, Turn(s));
      SoundStep(s, Turn(s));
      var rest := Settle(s');
      more := [Turn(s)] + rest;
      ExecCons(s, Turn(s), rest);
    }
  }

  // ----- The client

  /** The steps that a call still takes. */
  function Left(pc: ClientPc): (n: nat)
    ensures n == 0 <==> pc == Idle
  {
    match pc
    case Idle => 0
    case Polling(_) => 6 case Locking(_) => 5 case Writing(_) => 4 case Filling(_) => 3 case Fronting => 2 case Unlocking => 1
    case AwaitingSleep(x) => (match x case Starting => 2 case Draining => 11 case Asking => 4)
    case Interrupting(x) => (match x case Starting => 1 case Draining => 10 case Asking => 3)
    case DrainQueue => 9 case DrainStat => 8 case LockingStat => 7 case Invalidating => 6 case Requesting => 5
    case AwaitingValid => 2 case UnlockingStat => 1
  }

  /** The task that the call under way has not submitted yet. */
  function Unsubmitted(pc: ClientPc): (ts: seq<Task>) {
    if pc.Polling? || pc.Locking? || pc.Writing? || pc.Filling? then [pc.task] else []
  }

  predicate InStart(pc: ClientPc) {
    pc == AwaitingSleep(Starting) || pc == Interrupting(Starting)
  }

  predicate InCopy(pc: ClientPc) {
    pc.Polling? || pc.Locking? || pc.Writing? || pc.Filling? || pc == Fronting || pc == Unlocking
  }

  predicate InWait(pc: ClientPc) {
    pc != Idle && !InStart(pc) && !InCopy(pc)
  }

  /** The last steps of the calls: from where the client returns. */
  ghost predicate Ended(s: State, pc: ClientPc) {
    && (InWait(pc) ==> s.log.issued == s.log.submitted && s.ring.fill == 0 && !s.ctl.busy)
    && (InStart(pc) ==> AllSignalled(s.log.entries))
  }

  lemma {:induction false} ClientMoves(s: State)
    requires Sound(s) && Resting(s) && !Doomed(s) && s.clients[0] != Idle
    ensures !ClientWaits(s.clients[0], s.ring, s.ctl)
  {
    hide FillInv, LockInv, WakeInv, RingInv, WaitInv, ProgressInv;
    ClientStopsIff(s);
  }

  lemma {:induction false} MoveKeeps(s: State)
    requires |s.clients| == 1 && AllOwned(s.log.entries) && !ClientWaits(s.clients[0], s.ring, s.ctl)
    ensures var (pc, s') := (s.clients[0], Next(s, ClientStep(0)));
      && s'.clients == [ClientPcAfter(pc)]
      && s'.log.submitted + Unsubmitted(ClientPcAfter(pc)) == s.log.submitted + Unsubmitted(pc)
      && !Doomed(s')
  {
    hide Signal;
  }

  lemma {:induction false} LastMove(s: State)
    requires Sound(s) && !ClientWaits(s.clients[0], s.ring, s.ctl) && ClientPcAfter(s.clients[0]) == Idle
    ensures Ended(Next(s, ClientStep(0)), s.clients[0])
  {
    hide FillInv, LockInv, WakeInv, FrontAt, HandshakeInv;
    SignalAll(s.log.entries);
    hide Signal;
    assert s.log.submitted[..|s.log.submitted|] == s.log.submitted;
  }

  /** The DM core comes to rest, and the client makes its next step. */
  lemma {:induction false} StepOn(s: State) returns (more: seq<Action>)
    requires Sound(s) && !Doomed(s) && s.clients[0] != Idle
    ensures Ours(more)
    ensures var (pc, s') := (s.clients[0], Exec(s, more));
      && Sound(s') && !Doomed(s') && s'.clients == [ClientPcAfter(pc)]
      && s'.log.submitted + Unsubmitted(ClientPcAfter(pc)) == s.log.submitted + Unsubmitted(pc)
      && (ClientPcAfter(pc) == Idle ==> Ended(s', pc))
  {
    var settling := Settle(s);
    var u := Exec(s, settling);
    ClientMoves(u);
    assert AllOwned(u.log.entries);
    hide Exec, Doomed, Sound, Next, Unsubmitted, Ended;
    MoveKeeps(u);
    SoundStep(u, ClientStep(0));
    if ClientPcAfter(s.clients[0]) == Idle {
      LastMove(u);
    }
    more := settling + [ClientStep(0)];
    ExecSnoc(s, settling, ClientStep(0));
  }

  lemma {:induction false} SameCall(pc: ClientPc)
    requires pc != Idle
    ensures Left(ClientPcAfter(pc)) == Left(pc) - 1
    ensures ClientPcAfter(pc) != Idle ==>
              InWait(pc) == InWait(ClientPcAfter(pc)) && InStart(pc) == InStart(ClientPcAfter(pc))
  {}

  /** The call under way returns. */
  lemma {:induction false} Finish(s: State) returns (more: seq<Action>)
    requires Sound(s) && !Doomed(s)
    ensures Ours(more)
    ensures var s' := Exec(s, more);
      && Sound(s') && s'.clients == [Idle] && Ended(s', s.clients[0])
      && s'.log.submitted == s.log.submitted + Unsubmitted(s.clients[0])
    decreases Left(s.clients[0])
  {
    assert |s.clients| == 1;
    hide Next, Doomed, Exec, Sound, ClientPcAfter, InWait, InStart, AllSignalled;
    var pc := s.clients[0];
    more := [];
    if pc == Idle {
      ExecNothing(s);
      IdleOwesNothing(s);
    } else {
      var step := StepOn(s);
      SameCall(pc);
      var u := Exec(s, step);
      if ClientPcAfter(pc) == Idle {
        more := step;
      } else {
        var rest := Finish(u);
        more := step + rest;
        ExecAppend(s, step, rest);
      }
    }
  }

  lemma {:induction false} IdleOwesNothing(s: State)
    ensures Ended(s, Idle) && s.log.submitted + Unsubmitted(Idle) == s.log.submitted
  {}

  lemma {:induction false} DoomedStays(s: State, more: seq<Action>)
    requires Sound(s) && Doomed(s)
    ensures Doomed(Exec(s, more))
    decreases |more|
  {
    hide Sound, Next, Doomed;
    if more != [] {
      var most := more[..|more| - 1];
      DoomedStays(s, most);
      SoundRun(s, most);
      DoomedStep(Exec(s, most), more[|more| - 1]);
    }
  }

  lemma {:induction false} DoomedStep(s: State, a: Action)
    requires Sound(s) && Doomed(s)
    ensures Doomed(Next(s, a))
  {
    hide FillInv, LockInv, WakeInv, RingInv, WaitInv, EntriesInv;
  }

  // ----- The calls of a sole client

  ghost predicate CanReturn(s: State) {
    exists more :: Ours(more) && Exec(s, more).clients == [Idle]
  }

  /** In every reachable state, the call of a sole client can return exactly when it does not poll a full
      queue of a DM core that goes to sleep. */
  lemma {:induction false} CallReturnsIff(s: State, run: seq<Action>)
    requires Initial(s) && |s.clients| == 1
    ensures CanReturn(Exec(s, run)) <==> !Doomed(Exec(s, run))
  {
    hide Initial, Exec, Sound, Ended;
    var u := Exec(s, run);
    ReachableIsSound(s, run);
    if Doomed(u) {
      forall more ensures Exec(u, more).clients != [Idle] {
        DoomedStays(u, more);
      }
    } else {
      var more := Finish(u);
    }
  }

  /** A copy that does not meet such a queue can return, and has then submitted its task last. */
  lemma {:induction false} CopyReturns(s: State, run: seq<Action>, t: Task) returns (more: seq<Action>)
    requires Initial(s) && |s.clients| == 1 && Exec(s, run).clients[0] == Idle
    requires var u := Exec(s, run); !(u.ring.fill == SLOTS && SawEmpty(u.dm) && !u.ctl.irq)
    ensures Ours(more)
    ensures var (u, v) := (Exec(s, run), Exec(s, run + [BeginCopy(0, t)] + more));
      v.clients == [Idle] && v.log.submitted == u.log.submitted + [t]
  {
    hide Initial, Exec, Sound;
    var call := run + [BeginCopy(0, t)];
    ReachableIsSound(s, run);
    ReachableIsSound(s, call);
    ExecSnoc(s, run, BeginCopy(0, t));
    assert Exec(s, run).ring.fill <= SLOTS by { SoleRoom(Exec(s, run)); }
    more := Finish(Exec(s, call));
    ExecAppend(s, call, more);
  }

  lemma {:induction false} SoleRoom(s: State)
    requires Sound(s)
    ensures s.ring.fill <= SLOTS
  {
    hide LockInv, WakeInv, RingInv, WaitInv, ProgressInv, AdmittedCount;
    SoleClientRoom(s);
  }

  /** From every reachable state inside `dm_wait`, the call can return without another call; then every
      task is issued, in order, the queue is empty and the DMA is idle. */
  lemma {:induction false} WaitReturns(s: State, run: seq<Action>) returns (more: seq<Action>)
    requires Initial(s) && |s.clients| == 1 && InWait(Exec(s, run).clients[0])
    ensures Ours(more)
    ensures var (u, v) := (Exec(s, run), Exec(s, run + more));
      && v.clients == [Idle] && v.ring.fill == 0 && !v.ctl.busy
      && v.log.issued == v.log.submitted == u.log.submitted
  {
    hide Initial, Exec, Sound;
    ReachableIsSound(s, run);
    more := Finish(Exec(s, run));
    ExecAppend(s, run, more);
  }

  /** From every reachable state inside `dm_start`, the call can return without another call, and every
      task that was submitted before can be issued. */
  lemma {:induction false} StartServes(s: State, run: seq<Action>) returns (more: seq<Action>)
    requires Initial(s) && |s.clients| == 1 && InStart(Exec(s, run).clients[0])
    ensures Ours(more)
    ensures var (u, v) := (Exec(s, run), Exec(s, run + more));
      && v.clients == [Idle] && v.ring.fill == 0
      && v.log.issued == v.log.submitted == u.log.submitted
  {
    hide Initial, Exec, Sound;
    ReachableIsSound(s, run);
    var u := Exec(s, run);
    var finish := Finish(u);
    var rest := Settle(Exec(u, finish));
    more := finish + rest;
    ExecAppend(u, finish, rest);
    ExecAppend(s, run, more);
    NothingLeft(Exec(u, more));
  }

  lemma {:induction false} FirstSignalled(entries: seq<Entry>)
    requires AllSignalled(entries)
    ensures entries != [] ==> SomeSignalled(entries)
  {
    assert entries != [] ==> entries[0].signalled;
  }

  lemma {:induction false} NothingLeft(s: State)
    requires Sound(s) && Resting(s) && AllSignalled(s.log.entries)
    ensures s.ring.fill == 0 && s.log.issued == s.log.submitted
  {
    hide LockInv, WaitInv, ProgressInv, AdmittedCount, FrontAt, RingHolds;
    FirstSignalled(s.log.entries);
    assert s.log.submitted[..|s.log.submitted|] == s.log.submitted;
  }

  /** A `dm_wait` that begins in any reachable state can return, with everything issued and the DMA idle. */
  lemma {:induction false} WaitCallReturns(s: State, run: seq<Action>) returns (more: seq<Action>)
    requires Initial(s) && |s.clients| == 1 && Exec(s, run).clients[0] == Idle
    ensures Ours(more)
    ensures var (u, v) := (Exec(s, run), Exec(s, run + [BeginWait(0)] + more));
      && v.clients == [Idle] && v.ring.fill == 0 && !v.ctl.busy
      && v.log.issued == v.log.submitted == u.log.submitted
  {
    hide Initial, Exec;
    ExecSnoc(s, run, BeginWait(0));
    more := WaitReturns(s, run + [BeginWait(0)]);
  }

  /** A `dm_start` that begins in any reachable state can return, and lets everything be issued. */
  lemma {:induction false} StartCallServes(s: State, run: seq<Action>) returns (more: seq<Action>)
    requires Initial(s) && |s.clients| == 1 && Exec(s, run).clients[0] == Idle
    ensures Ours(more)
    ensures var (u, v) := (Exec(s, run), Exec(s, run + [BeginStart(0)] + more));
      && v.clients == [Idle] && v.ring.fill == 0
      && v.log.issued == v.log.submitted == u.log.submitted
  {
    hide Initial, Exec;
    ExecSnoc(s, run, BeginStart(0));
    more := StartServes(s, run + [BeginStart(0)]);
  }

  // ----- dm_wait covers the transfers

  /** The `j`-th action of the run issues a task. */
  ghost predicate Issues(s: State, run: seq<Action>, j: nat)
    requires j < |run|
  {
    Exec(s, run[..j + 1]).log.issued != Exec(s, run[..j]).log.issued
  }

  lemma {:induction false} IssueMakesBusy(s: State, a: Action)
    requires Next(s, a).log.issued != s.log.issued
    ensures Next(s, a).ctl.busy
  {
    hide Signal, ClientRing, ClientPcAfter, DmRing, DmPcAfter;
  }

  lemma {:induction false} StaysBusy(s: State, a: Action)
    requires s.ctl.busy && a != DmaIdle
    ensures Next(s, a).ctl.busy
  {
    hide Signal, ClientRing, ClientLog, ClientPcAfter, DmRing, DmLog, DmPcAfter;
  }

  lemma {:induction false} BusySince(s: State, run: seq<Action>, j: nat, k: nat)
    requires j < k <= |run| && Issues(s, run, j)
    requires forall i :: j < i < k ==> run[i] != DmaIdle
    ensures Exec(s, run[..k]).ctl.busy
    decreases k
  {
    hide Exec, Next;
    assert run[..k] == run[..k - 1] + [run[k - 1]];
    ExecSnoc(s, run[..k - 1], run[k - 1]);
    if k == j + 1 {
      IssueMakesBusy(Exec(s, run[..j]), run[j]);
    } else {
      BusySince(s, run, j, k - 1);
      StaysBusy(Exec(s, run[..k - 1]), run[k - 1]);
    }
  }

  /** When dm_wait returns to a sole client, the DMA has become idle after each issue. */
  lemma {:induction false} WaitCoversIssues(s: State, run: seq<Action>, j: nat)
    requires Initial(s) && |s.clients| == 1
    requires Exec(s, run).clients[0] == UnlockingStat
    requires j < |run| && Issues(s, run, j)
    ensures exists k :: j < k < |run| && run[k] == DmaIdle
  {
    hide Exec, Initial, Issues;
    assert run[..|run|] == run;
    WaitReturnsWhenIdle(s, run);
    if forall k :: j < k < |run| ==> run[k] != DmaIdle {
      BusySince(s, run, j, |run|);
    }
  }
}
