/**
 The data mover service: a DM core that issues queued transfers, clients that queue them,
 and the sleep and wake handshake between them, as a state machine.  A step is one access
 to shared memory, to the interrupt register or to the DMA by one core.

 `log` is history: no step's effect on the rest of the state depends on it.
 */
module DataMover {
  import opened Counting

  const SLOTS: nat := 4

  type Task = int

  /** Where a client continues after waking the DM core. */
  datatype Context = Starting | Draining | Asking

  datatype ClientPc =
    | Idle
    // dm_memcpy_async and dm_memcpy2d_async
    | Polling(task: Task)
    | Locking(task: Task)
    | Writing(task: Task)
    | Filling(task: Task)
    | Fronting
    | Unlocking
    // wake_dm
    | AwaitingSleep(ctx: Context)
    | Interrupting(ctx: Context)
    // dm_wait
    | DrainQueue
    | DrainStat
    | LockingStat
    | Invalidating
    | Requesting
    | AwaitingValid
    | UnlockingStat

  datatype DmPc =
    | Top
    | AwaitingDma
    | Issuing
    | Popping
    | Decrementing
    | StatTest
    | BusyTest
    | Validating
    | ClearingStat
    | FillTest
    | SleepTest
    | Incrementing
    | Sleeping
    | ClearingIrq
    | Lowering

  /** A queued request: who queued it, and whether that client has completed a wake-up since. */
  datatype Entry = Entry(owner: nat, signalled: bool)

  datatype Ring = Ring(slots: seq<Task>, back: nat, front: nat, fill: nat)

  /** The other words of the control block, the interrupt and the state of the DMA. */
  datatype Control = Control(mutex: bool, statQ: bool, pvalid: bool, wfi: nat, irq: bool, busy: bool)

  /** What happened so far: the requests that `fill` counts, the last status request, the
      tasks submitted and issued, and whether the DMA was seen idle since the last issue. */
  datatype History = History(entries: seq<Entry>, statBy: Entry, submitted: seq<Task>, issued: seq<Task>, idleSeen: bool)

  datatype State = State(ring: Ring, ctl: Control, dm: DmPc, clients: seq<ClientPc>, log: History)

  datatype Action =
    | DmStep
    | DmaIdle
    | BeginCopy(c: nat, task: Task)
    | BeginStart(c: nat)
    | BeginWait(c: nat)
    | ClientStep(c: nat)

  // ----- The DM core

  /** Asleep without an interrupt; the other two cases do not occur. */
  predicate DmWaits(dm: DmPc, ring: Ring, ctl: Control) {
    || (dm == Sleeping && !ctl.irq)
    || (dm == Issuing && ring.back >= |ring.slots|)
    || (dm == Decrementing && ring.fill == 0)
  }

  function DmPcAfter(dm: DmPc, ring: Ring, ctl: Control): (dm': DmPc) {
    match dm
    case Top => if ring.fill != 0 then AwaitingDma else StatTest
    case AwaitingDma => Issuing
    case Issuing => Popping
    case Popping => Decrementing
    case Decrementing => StatTest
    case StatTest => if ctl.statQ then BusyTest else FillTest
    case BusyTest => if ctl.busy then FillTest else Validating
    case Validating => ClearingStat
    case ClearingStat => FillTest
    case FillTest => if ring.fill == 0 then SleepTest else Top
    case SleepTest => if ctl.statQ then Top else Incrementing
    case Incrementing => Sleeping
    case Sleeping => ClearingIrq
    case ClearingIrq => Lowering
    case Lowering => Top
  }

  function DmRing(ring: Ring, dm: DmPc): (ring': Ring)
    ensures |ring'.slots| == |ring.slots|
  {
    match dm
    case Popping => ring.(back := (ring.back + 1) % SLOTS)
    case Decrementing => ring.(fill := if ring.fill > 0 then ring.fill - 1 else 0)
    case _ => ring
  }

  function DmControl(ctl: Control, dm: DmPc): (ctl': Control) {
    match dm
    case Issuing => ctl.(busy := true)
    case Validating => ctl.(pvalid := true)
    case ClearingStat => ctl.(statQ := false)
    case Incrementing => ctl.(wfi := ctl.wfi + 1)
    case ClearingIrq => ctl.(irq := false)
    case Lowering => ctl.(wfi := if ctl.wfi > 0 then ctl.wfi - 1 else 0)
    case _ => ctl
  }

  function DmLog(log: History, dm: DmPc, ring: Ring, busy: bool): (log': History) {
    match dm
    case Issuing =>
      if ring.back < |ring.slots| then log.(issued := log.issued + [ring.slots[ring.back]], idleSeen := false) else log
    case Decrementing => log.(entries := if log.entries == [] then [] else log.entries[1..])
    case BusyTest => if busy then log else log.(idleSeen := true)
    case _ => log
  }

  function DmNext(s: State): (s': State)
    ensures |s'.ring.slots| == |s.ring.slots| && s'.clients == s.clients
  {
    if DmWaits(s.dm, s.ring, s.ctl) then s
    else State(DmRing(s.ring, s.dm), DmControl(s.ctl, s.dm), DmPcAfter(s.dm, s.ring, s.ctl), s.clients,
               DmLog(s.log, s.dm, s.ring, s.ctl.busy))
  }

  // ----- The clients

  function Signal(entries: seq<Entry>, c: nat): (r: seq<Entry>)
    ensures |r| == |entries|
  {
    seq(|entries|, i requires 0 <= i < |entries| => if entries[i].owner == c then Entry(c, true) else entries[i])
  }

  function At(s: State, c: nat, pc: ClientPc): (s': State)
    requires c < |s.clients|
  {
    s.(clients := s.clients[c := pc])
  }

  /** Polling a value that does not let the client go on, or outside any call. */
  predicate ClientWaits(pc: ClientPc, ring: Ring, ctl: Control) {
    match pc
    case Idle => true
    case Polling(_) => ring.fill >= SLOTS
    case Locking(_) => ctl.mutex
    case Writing(_) => ring.front >= |ring.slots|
    case AwaitingSleep(_) => ctl.wfi == 0
    case DrainQueue => ring.fill != 0
    case DrainStat => ctl.statQ
    case LockingStat => ctl.mutex
    case AwaitingValid => !ctl.pvalid
    case _ => false
  }

  function ClientPcAfter(pc: ClientPc): (pc': ClientPc) {
    match pc
    case Idle => Idle
    case Polling(t) => Locking(t)
    case Locking(t) => Writing(t)
    case Writing(t) => Filling(t)
    case Filling(_) => Fronting
    case Fronting => Unlocking
    case Unlocking => Idle
    case AwaitingSleep(x) => Interrupting(x)
    case Interrupting(x) => (match x case Starting => Idle case Draining => DrainQueue case Asking => AwaitingValid)
    case DrainQueue => DrainStat
    case DrainStat => LockingStat
    case LockingStat => Invalidating
    case Invalidating => Requesting
    case Requesting => AwaitingSleep(Asking)
    case AwaitingValid => UnlockingStat
    case UnlockingStat => Idle
  }

  function ClientRing(ring: Ring, pc: ClientPc): (ring': Ring)
    ensures |ring'.slots| == |ring.slots|
  {
    match pc
    case Writing(t) => if ring.front < |ring.slots| then ring.(slots := ring.slots[ring.front := t]) else ring
    case Filling(_) => ring.(fill := ring.fill + 1)
    case Fronting => ring.(front := (ring.front + 1) % SLOTS)
    case _ => ring
  }

  function ClientControl(ctl: Control, pc: ClientPc): (ctl': Control) {
    match pc
    case Locking(_) => ctl.(mutex := true)
    case Unlocking => ctl.(mutex := false)
    case Interrupting(_) => ctl.(irq := true)
    case LockingStat => ctl.(mutex := true)
    case Invalidating => ctl.(pvalid := false)
    case Requesting => ctl.(statQ := true)
    case UnlockingStat => ctl.(mutex := false)
    case _ => ctl
  }

  function ClientLog(log: History, c: nat, pc: ClientPc): (log': History) {
    match pc
    case Filling(t) => log.(entries := log.entries + [Entry(c, false)], submitted := log.submitted + [t])
    case Interrupting(_) =>
      log.(entries := Signal(log.entries, c), statBy := if log.statBy.owner == c then Entry(c, true) else log.statBy)
    case Requesting => log.(statBy := Entry(c, false))
    case _ => log
  }

  /** A step of client `c`. */
  function ClientNext(s: State, c: nat): (s': State)
    requires c < |s.clients|
    ensures |s'.ring.slots| == |s.ring.slots| && |s'.clients| == |s.clients|
  {
    var pc := s.clients[c];
    if ClientWaits(pc, s.ring, s.ctl) then s
    else State(ClientRing(s.ring, pc), ClientControl(s.ctl, pc), s.dm, s.clients[c := ClientPcAfter(pc)],
               ClientLog(s.log, c, pc))
  }

  function Next(s: State, a: Action): (s': State)
    ensures |s'.ring.slots| == |s.ring.slots| && |s'.clients| == |s.clients|
  {
    match a
    case DmStep => DmNext(s)
    case DmaIdle => s.(ctl := s.ctl.(busy := false))
    case BeginCopy(c, t) => if c < |s.clients| && s.clients[c] == Idle then At(s, c, Polling(t)) else s
    case BeginStart(c) => if c < |s.clients| && s.clients[c] == Idle then At(s, c, AwaitingSleep(Starting)) else s
    case BeginWait(c) => if c < |s.clients| && s.clients[c] == Idle then At(s, c, AwaitingSleep(Draining)) else s
    case ClientStep(c) => if c < |s.clients| then ClientNext(s, c) else s
  }

  /** The cleared control block, an idle DMA and no client call under way. */
  ghost predicate Initial(s: State) {
    && |s.ring.slots| == SLOTS && s.ring.back == s.ring.front == s.ring.fill == 0
    && s.ctl == Control(false, false, false, 0, false, false) && s.dm == Top
    && (forall c :: 0 <= c < |s.clients| ==> s.clients[c] == Idle)
    && s.log.entries == [] && s.log.submitted == [] && s.log.issued == []
  }

  function Exec(s: State, run: seq<Action>): (s': State)
    ensures |s'.ring.slots| == |s.ring.slots| && |s'.clients| == |s.clients|
  {
    if run == [] then s else Next(Exec(s, run[..|run| - 1]), run[|run| - 1])
  }

  // ----- Any number of clients

  /** The client has seen room in the queue and not used it yet. */
  predicate Admitted(pc: ClientPc) {
    pc.Locking? || pc.Writing? || pc.Filling?
  }

  ghost function AdmittedCount(cs: seq<ClientPc>): (n: nat)
    ensures n <= |cs|
  {
    CountBound(cs, Admitted);
    Count(cs, Admitted)
  }

  predicate Holds(pc: ClientPc) {
    match pc
    case Writing(_) => true case Filling(_) => true case Fronting => true case Unlocking => true
    case Invalidating => true case Requesting => true case AwaitingSleep(x) => x == Asking
    case Interrupting(x) => x == Asking case AwaitingValid => true case UnlockingStat => true
    case _ => false
  }

  ghost predicate SomeHolder(cs: seq<ClientPc>) {
    exists c :: 0 <= c < |cs| && Holds(cs[c])
  }

  ghost predicate SomeSignalled(entries: seq<Entry>) {
    exists i :: 0 <= i < |entries| && entries[i].signalled
  }

  predicate Serving(dm: DmPc) {
    dm == AwaitingDma || dm == Issuing || dm == Popping || dm == Decrementing
  }

  /** Since the DM core read an empty queue. */
  predicate SawEmpty(dm: DmPc) {
    dm == SleepTest || dm == Incrementing || dm == Sleeping
  }

  /** Entries match the fill count, and room seen by a client bounds it. */
  ghost predicate FillInv(s: State) {
    && |s.log.entries| == s.ring.fill
    && (Serving(s.dm) ==> s.ring.fill > 0)
    && s.ring.fill + AdmittedCount(s.clients) <= SLOTS - 1 + |s.clients|
  }

  ghost predicate LockInv(s: State) {
    && (s.ctl.mutex <==> SomeHolder(s.clients))
    && (forall b, c :: 0 <= b < c < |s.clients| ==> !(Holds(s.clients[b]) && Holds(s.clients[c])))
  }

  /** A request that was signalled since the DM core found nothing to do keeps an interrupt pending. */
  ghost predicate WakeInv(s: State) {
    && (SawEmpty(s.dm) && SomeSignalled(s.log.entries) ==> s.ctl.irq)
    && ((s.dm == Incrementing || s.dm == Sleeping) && s.ctl.statQ && s.log.statBy.signalled ==> s.ctl.irq)
  }

  lemma {:induction false} AdmittedUpdate(cs: seq<ClientPc>, c: nat, pc: ClientPc)
    requires c < |cs|
    ensures AdmittedCount(cs[c := pc])
            == AdmittedCount(cs) - (if Admitted(cs[c]) then 1 else 0) + (if Admitted(pc) then 1 else 0)
  {
    CountUpdate(cs, c, pc, Admitted);
  }

  lemma {:induction false} NoneAdmitted(cs: seq<ClientPc>)
    requires forall c :: 0 <= c < |cs| ==> !Admitted(cs[c])
    ensures AdmittedCount(cs) == 0
  {
    CountBound(cs, Admitted);
  }

  lemma {:induction false} FillStepDm(s: State)
    requires FillInv(s)
    ensures FillInv(DmNext(s))
  {
    hide AdmittedCount;
  }

  /** A client counts one request in, and only after it has seen room for it. */
  lemma {:induction false} FillRules(s: State, c: nat)
    requires c < |s.clients|
    ensures var (pc, s', one) := (s.clients[c], ClientNext(s, c), if s.clients[c].Filling? then 1 else 0);
      && s'.dm == s.dm
      && s'.ring.fill == s.ring.fill + one && |s'.log.entries| == |s.log.entries| + one
      && (one == 1 ==> Admitted(pc) && !Admitted(s'.clients[c]))
      && (!Admitted(pc) && Admitted(s'.clients[c]) ==> s.ring.fill < SLOTS)
  {
    hide Signal;
  }

  lemma {:induction false} FillStepClient(s: State, c: nat)
    requires FillInv(s) && c < |s.clients|
    ensures FillInv(ClientNext(s, c))
  {
    hide AdmittedCount, ClientNext, Admitted;
    var s' := ClientNext(s, c);
    FillRules(s, c);
    LockRules(s, c);
    AdmittedUpdate(s.clients, c, s'.clients[c]);
    if !Admitted(s.clients[c]) {
      AdmittedOthers(s.clients, c);
    }
  }

  lemma {:induction false} FillStep(s: State, a: Action)
    requires FillInv(s)
    ensures FillInv(Next(s, a))
  {
    hide AdmittedCount, ClientNext, DmNext;
    match a
    case DmStep => FillStepDm(s);
    case DmaIdle =>
    case ClientStep(c) => if c < |s.clients| { FillStepClient(s, c); }
    case _ =>
      if a.c < |s.clients| && s.clients[a.c] == Idle {
        AdmittedUpdate(s.clients, a.c, Next(s, a).clients[a.c]);
      }
  }

  lemma {:induction false} AdmittedOthers(cs: seq<ClientPc>, c: nat)
    requires c < |cs| && !Admitted(cs[c])
    ensures AdmittedCount(cs) <= |cs| - 1
  {
    AdmittedUpdate(cs, c, Locking(0));
    assert AdmittedCount(cs[c := Locking(0)]) <= |cs|;
  }

  /** The lock bookkeeping when client `c` moves to `pc`. */
  lemma {:induction false} LockMove(s: State, c: nat, pc: ClientPc, mutex: bool)
    requires LockInv(s) && c < |s.clients|
    requires Holds(s.clients[c]) ==> mutex == Holds(pc)
    requires !Holds(s.clients[c]) && Holds(pc) ==> !s.ctl.mutex && mutex
    requires !Holds(s.clients[c]) && !Holds(pc) ==> mutex == s.ctl.mutex
    ensures var cs := s.clients[c := pc];
      && (mutex <==> SomeHolder(cs))
      && (forall a, b :: 0 <= a < b < |cs| ==> !(Holds(cs[a]) && Holds(cs[b])))
  {
    hide Holds;
    var cs := s.clients[c := pc];
    assert forall b :: 0 <= b < |cs| && b != c ==> cs[b] == s.clients[b];
    if Holds(pc) {
      assert Holds(cs[c]);
    } else if SomeHolder(s.clients) {
      var b :| 0 <= b < |s.clients| && Holds(s.clients[b]);
      assert b != c ==> Holds(cs[b]);
    }
  }

  /** A client takes the lock only when it is free, and gives it back only when it holds it. */
  lemma {:induction false} LockRules(s: State, c: nat)
    requires c < |s.clients|
    ensures var (pc, s') := (s.clients[c], ClientNext(s, c));
      && s'.clients == s.clients[c := s'.clients[c]]
      && (Holds(pc) ==> (s.ctl.mutex ==> s'.ctl.mutex == Holds(s'.clients[c])))
      && (!Holds(pc) && Holds(s'.clients[c]) ==> !s.ctl.mutex && s'.ctl.mutex)
      && (!Holds(pc) && !Holds(s'.clients[c]) ==> s'.ctl.mutex == s.ctl.mutex)
  {
    assert s.clients[c := s.clients[c]] == s.clients;
  }

  lemma {:induction false} LockStepClient(s: State, c: nat)
    requires LockInv(s) && c < |s.clients|
    ensures LockInv(ClientNext(s, c))
  {
    hide ClientNext, Holds;
    LockRules(s, c);
    assert Holds(s.clients[c]) ==> SomeHolder(s.clients);
    LockMove(s, c, ClientNext(s, c).clients[c], ClientNext(s, c).ctl.mutex);
  }

  lemma DmKeepsLock(s: State)
    ensures DmNext(s).ctl.mutex == s.ctl.mutex
  {
  }

  lemma {:induction false} LockStep(s: State, a: Action)
    requires LockInv(s)
    ensures LockInv(Next(s, a))
  {
    hide ClientNext, DmNext;
    match a
    case DmStep => DmKeepsLock(s);
    case DmaIdle =>
    case ClientStep(c) => if c < |s.clients| { LockStepClient(s, c); }
    case _ =>
      if a.c < |s.clients| && s.clients[a.c] == Idle {
        LockMove(s, a.c, Next(s, a).clients[a.c], s.ctl.mutex);
      }
  }

  lemma {:induction false} WakeStepDm(s: State)
    requires WakeInv(s) && |s.log.entries| == s.ring.fill
    ensures WakeInv(DmNext(s))
  {
  }

  lemma {:induction false} IrqRules(s: State, c: nat)
    requires c < |s.clients|
    ensures ClientNext(s, c).dm == s.dm
    ensures s.ctl.irq || s.clients[c].Interrupting? ==> ClientNext(s, c).ctl.irq
  {
    hide Signal;
  }

  lemma {:induction false} EntryRules(s: State, c: nat)
    requires c < |s.clients|
    ensures s.clients[c].Filling? ==> ClientNext(s, c).log.entries == s.log.entries + [Entry(c, false)]
    ensures !s.clients[c].Interrupting? && !s.clients[c].Filling? ==> ClientNext(s, c).log.entries == s.log.entries
  {
    hide Signal;
  }

  lemma {:induction false} StatRules(s: State, c: nat)
    requires c < |s.clients|
    ensures var (pc, s') := (s.clients[c], ClientNext(s, c));
      !pc.Interrupting? && s'.ctl.statQ && s'.log.statBy.signalled ==> s.ctl.statQ && s.log.statBy.signalled
  {
    hide Signal;
  }

  lemma {:induction false} NewlySignalled(s: State, c: nat)
    requires c < |s.clients|
    ensures var s' := ClientNext(s, c);
      SomeSignalled(s'.log.entries) ==> SomeSignalled(s.log.entries) || s'.ctl.irq
  {
    hide ClientNext;
    IrqRules(s, c);
    EntryRules(s, c);
    var s' := ClientNext(s, c);
    if SomeSignalled(s'.log.entries) && !s'.ctl.irq {
      var i :| 0 <= i < |s'.log.entries| && s'.log.entries[i].signalled;
      assert i < |s.log.entries| && s.log.entries[i].signalled;
    }
  }

  lemma {:induction false} WakeStep(s: State, a: Action)
    requires WakeInv(s) && FillInv(s)
    ensures WakeInv(Next(s, a))
  {
    hide ClientNext, DmNext, AdmittedCount, SomeSignalled;
    match a
    case DmStep => WakeStepDm(s);
    case ClientStep(c) => if c < |s.clients| { NewlySignalled(s, c); IrqRules(s, c); StatRules(s, c); }
    case _ =>
  }

  lemma {:induction false} RunInv(s: State, run: seq<Action>)
    requires Initial(s)
    ensures var t := Exec(s, run); FillInv(t) && LockInv(t) && WakeInv(t)
    decreases |run|
  {
    if run == [] {
      NoneAdmitted(s.clients);
    } else {
      RunInv(s, run[..|run| - 1]);
      var (t, a) := (Exec(s, run[..|run| - 1]), run[|run| - 1]);
      hide Next, FillInv, LockInv, WakeInv;
      FillStep(t, a);
      LockStep(t, a);
      WakeStep(t, a);
    }
  }

  /** With P clients the fill count never exceeds the number of slots by more than P - 1. */
  lemma {:induction false} FillIsBounded(s: State, run: seq<Action>)
    requires Initial(s)
    ensures Exec(s, run).ring.fill <= SLOTS - 1 + |s.clients|
  {
    hide Exec;
    RunInv(s, run);
  }

  /** At most one client is inside the critical sections. */
  lemma {:induction false} MutualExclusion(s: State, run: seq<Action>, b: nat, c: nat)
    requires Initial(s) && b < c < |s.clients|
    ensures !(Holds(Exec(s, run).clients[b]) && Holds(Exec(s, run).clients[c]))
  {
    hide Exec;
    RunInv(s, run);
  }

  /** No wake-up is lost: while the DM core is blocked, no queued transfer and no status request
      is left whose client has completed a wake-up since it made the request. */
  lemma {:induction false} NoLostWakeUp(s: State, run: seq<Action>)
    requires Initial(s)
    ensures var t := Exec(s, run);
      t.dm == Sleeping && !t.ctl.irq ==>
        && (forall i :: 0 <= i < |t.log.entries| ==> !t.log.entries[i].signalled)
        && |t.log.entries| == t.ring.fill
        && !(t.ctl.statQ && t.log.statBy.signalled)
  {
    hide Exec;
    RunInv(s, run);
    var t := Exec(s, run);
    if i :| 0 <= i < |t.log.entries| && t.log.entries[i].signalled {
      assert SomeSignalled(t.log.entries);
    }
  }

  // ----- A sole client

  /** Slots between `back` and `front` that hold a task: the fill count lags behind a pop. */
  function Live(s: State): (m: int) {
    if s.dm == Decrementing then s.ring.fill - 1 else s.ring.fill
  }

  /** The tasks issued are the tasks submitted without the live ones, plus the one being popped. */
  ghost predicate IssuedInOrder(s: State) {
    var n := |s.log.submitted| - Live(s) + if s.dm == Popping then 1 else 0;
    0 <= n <= |s.log.submitted| && s.log.issued == s.log.submitted[..n]
  }

  ghost predicate RingHolds(ring: Ring, submitted: seq<Task>, m: int) {
    && |ring.slots| == SLOTS && ring.back < SLOTS && ring.front < SLOTS
    && 0 <= m <= |submitted| && m <= SLOTS
    && forall i :: 0 <= i < m ==> SlotAt(ring, i) == submitted[|submitted| - m..][i]
  }

  function SlotIndex(ring: Ring, i: nat): (k: nat) {
    (ring.back + i) % SLOTS
  }

  /** The i-th task from the back. */
  function SlotAt(ring: Ring, i: nat): (t: Task)
    requires |ring.slots| == SLOTS
  {
    ring.slots[SlotIndex(ring, i)]
  }

  ghost predicate FrontAt(ring: Ring, m: int, pc: ClientPc) {
    && ring.front == (ring.back + m - (if pc == Fronting then 1 else 0)) % SLOTS
    && (pc.Filling? ==> ring.front < |ring.slots| && ring.slots[ring.front] == pc.task)
  }

  ghost predicate RingInv(s: State) {
    && |s.clients| == 1
    && RingHolds(s.ring, s.log.submitted, Live(s))
    && FrontAt(s.ring, Live(s), s.clients[0])
    && IssuedInOrder(s)
  }

  lemma {:induction false} SoleClientRoom(s: State)
    requires FillInv(s) && |s.clients| == 1
    ensures s.ring.fill <= SLOTS && (Admitted(s.clients[0]) ==> s.ring.fill < SLOTS)
  {
    assert s.clients[..0] == [];
    CountBound(s.clients, Admitted);
    assert AdmittedCount(s.clients) == if Admitted(s.clients[0]) then 1 else 0;
  }

  lemma {:induction false} PopRing(ring: Ring, submitted: seq<Task>, m: int, pc: ClientPc)
    requires RingHolds(ring, submitted, m) && m >= 1 && FrontAt(ring, m, pc)
    ensures var ring' := ring.(back := (ring.back + 1) % SLOTS);
      RingHolds(ring', submitted, m - 1) && FrontAt(ring', m - 1, pc)
  {
    var ring' := ring.(back := (ring.back + 1) % SLOTS);
    forall i | 0 <= i < m - 1 ensures SlotAt(ring', i) == submitted[|submitted| - (m - 1)..][i] {
      assert SlotAt(ring, i + 1) == submitted[|submitted| - m..][i + 1];
      NextSlot(ring.back, i);
    }
    NextSlot(ring.back, m - 1);
  }

  lemma {:induction false} NextSlot(back: nat, i: int)
    ensures ((back + 1) % SLOTS + i) % SLOTS == (back + (i + 1)) % SLOTS
  {}

  lemma {:induction false} RingStepDm(s: State)
    requires RingInv(s) && FillInv(s)
    ensures RingInv(DmNext(s))
  {
    hide AdmittedCount, RingHolds, FrontAt;
    SoleClientRoom(s);
    match s.dm
    case Issuing => IssueOldest(s);
    case Popping => PopRing(s.ring, s.log.submitted, Live(s), s.clients[0]);
    case Decrementing => FillIsNotInRing(s.ring, s.log.submitted, Live(s), s.clients[0]);
    case _ =>
  }

  lemma FillIsNotInRing(ring: Ring, submitted: seq<Task>, m: int, pc: ClientPc)
    requires RingHolds(ring, submitted, m) && FrontAt(ring, m, pc)
    ensures forall fill :: RingHolds(ring.(fill := fill), submitted, m) && FrontAt(ring.(fill := fill), m, pc)
  {
    forall fill ensures RingHolds(ring.(fill := fill), submitted, m) {
      forall i | 0 <= i < m ensures SlotAt(ring.(fill := fill), i) == submitted[|submitted| - m..][i] {
        assert SlotAt(ring, i) == submitted[|submitted| - m..][i];
      }
    }
  }

  /** The DM core issues the oldest task that was not issued yet. */
  lemma {:induction false} IssueOldest(s: State)
    requires RingInv(s) && FillInv(s) && s.dm == Issuing
    ensures RingInv(DmNext(s))
  {
    hide AdmittedCount, FrontAt;
    var (sub, m) := (s.log.submitted, Live(s));
    assert SlotAt(s.ring, 0) == sub[|sub| - m..][0];
    assert sub[..|sub| - m] + [sub[|sub| - m]] == sub[..|sub| - m + 1];
  }

  /** The slot that a client writes holds no live task. */
  lemma {:induction false} WriteRing(ring: Ring, submitted: seq<Task>, m: int, t: Task)
    requires RingHolds(ring, submitted, m) && m < SLOTS && FrontAt(ring, m, Writing(t))
    ensures var ring' := ring.(slots := ring.slots[ring.front := t]);
      RingHolds(ring', submitted, m) && FrontAt(ring', m, Filling(t))
  {
    var ring' := ring.(slots := ring.slots[ring.front := t]);
    forall i | 0 <= i < m ensures SlotAt(ring', i) == submitted[|submitted| - m..][i] {
      assert SlotAt(ring, i) == submitted[|submitted| - m..][i];
      assert (ring.back + i) % SLOTS != ring.front;
    }
  }

  lemma {:induction false} FillRing(ring: Ring, submitted: seq<Task>, m: int, t: Task)
    requires RingHolds(ring, submitted, m) && m < SLOTS && FrontAt(ring, m, Filling(t))
    ensures RingHolds(ring.(fill := ring.fill + 1), submitted + [t], m + 1)
    ensures FrontAt(ring.(fill := ring.fill + 1), m + 1, Fronting)
  {
    var (ring', sub) := (ring.(fill := ring.fill + 1), submitted + [t]);
    forall i | 0 <= i < m + 1 ensures SlotAt(ring', i) == sub[|sub| - (m + 1)..][i] {
      if i < m {
        assert SlotAt(ring, i) == submitted[|submitted| - m..][i];
      }
    }
  }

  lemma {:induction false} FrontRing(ring: Ring, submitted: seq<Task>, m: int)
    requires RingHolds(ring, submitted, m) && FrontAt(ring, m, Fronting)
    ensures var ring' := ring.(front := (ring.front + 1) % SLOTS);
      RingHolds(ring', submitted, m) && FrontAt(ring', m, Unlocking)
  {
    var ring' := ring.(front := (ring.front + 1) % SLOTS);
    forall i | 0 <= i < m ensures SlotAt(ring', i) == submitted[|submitted| - m..][i] {
      assert SlotAt(ring, i) == submitted[|submitted| - m..][i];
    }
  }

  lemma OtherPcs(ring: Ring, m: int, pc: ClientPc, pc': ClientPc)
    requires FrontAt(ring, m, pc) && pc != Fronting && pc' != Fronting && !pc'.Filling?
    ensures FrontAt(ring, m, pc')
  {
  }

  /** The other steps of a client do not touch the ring. */
  lemma {:induction false} RingRules(s: State, c: nat)
    requires c < |s.clients|
    requires !s.clients[c].Writing? && !s.clients[c].Filling? && s.clients[c] != Fronting
    ensures ClientNext(s, c).ring == s.ring && ClientNext(s, c).dm == s.dm
    ensures ClientNext(s, c).log.submitted == s.log.submitted && ClientNext(s, c).log.issued == s.log.issued
    ensures ClientNext(s, c).clients[c] != Fronting && !ClientNext(s, c).clients[c].Filling?
  {
    hide Signal;
  }

  lemma {:induction false} FillingKeepsOrder(s: State, t: Task)
    requires RingInv(s) && FillInv(s) && s.clients[0] == Filling(t)
    ensures RingInv(ClientNext(s, 0))
  {
    hide AdmittedCount, RingHolds, FrontAt;
    SoleClientRoom(s);
    var (sub, m) := (s.log.submitted, Live(s));
    FillRing(s.ring, sub, m, t);
    var n := |sub| - m + if s.dm == Popping then 1 else 0;
    assert (sub + [t])[..n] == sub[..n];
  }

  lemma {:induction false} RingStepClient(s: State)
    requires RingInv(s) && FillInv(s)
    ensures RingInv(ClientNext(s, 0))
  {
    hide AdmittedCount, RingHolds, FrontAt;
    var (pc, sub, m) := (s.clients[0], s.log.submitted, Live(s));
    if pc.Filling? {
      FillingKeepsOrder(s, pc.task);
    } else if pc.Writing? {
      SoleClientRoom(s);
      WriteRing(s.ring, sub, m, pc.task);
      RingInBounds(s.ring, sub, m);
    } else if pc == Fronting {
      FrontRing(s.ring, sub, m);
    } else {
      hide ClientNext;
      RingRules(s, 0);
      OtherPcs(s.ring, m, pc, ClientNext(s, 0).clients[0]);
    }
  }

  lemma RingInBounds(ring: Ring, submitted: seq<Task>, m: int)
    requires RingHolds(ring, submitted, m)
    ensures ring.front < |ring.slots|
  {
  }

  /** The ring keeps the tasks that were submitted and not issued, in order. */
  lemma {:induction false} RingStep(s: State, a: Action)
    requires RingInv(s) && FillInv(s)
    ensures RingInv(Next(s, a))
  {
    hide AdmittedCount, RingHolds, FrontAt, ClientNext, DmNext;
    match a
    case DmStep => RingStepDm(s);
    case DmaIdle =>
    case ClientStep(c) => if c < |s.clients| { RingStepClient(s); }
    case _ =>
      if a.c < |s.clients| && s.clients[a.c] == Idle {
        OtherPcs(s.ring, Live(s), Idle, Next(s, a).clients[0]);
      }
  }

  // ----- dm_wait

  predicate Drained(pc: ClientPc) {
    pc == DrainStat || pc == LockingStat || pc == Invalidating || pc == Requesting || Asked(pc) || pc == UnlockingStat
  }

  /** The client has made its status request and not seen the answer. */
  predicate Asked(pc: ClientPc) {
    pc == AwaitingSleep(Asking) || pc == Interrupting(Asking) || pc == AwaitingValid
  }

  predicate Answering(dm: DmPc) {
    dm == BusyTest || dm == Validating || dm == ClearingStat
  }

  ghost predicate WaitInv(s: State) {
    && |s.clients| == 1
    && var pc := s.clients[0];
    && (Drained(pc) ==> s.ring.fill == 0)
    && (Answering(s.dm) ==> s.ctl.statQ)
    && (pc == LockingStat || pc == Invalidating || pc == Requesting ==> !s.ctl.statQ)
    && (s.dm == Validating || s.dm == ClearingStat ==> s.log.idleSeen)
    && (pc == Requesting ==> !s.ctl.pvalid)
    && (Asked(pc) && s.ctl.pvalid ==> s.log.idleSeen)
    && (pc == UnlockingStat ==> s.log.idleSeen)
    && (s.log.idleSeen ==> !s.ctl.busy)
  }

  lemma {:induction false} WaitStepDm(s: State)
    requires WaitInv(s) && (Serving(s.dm) ==> s.ring.fill > 0)
    ensures WaitInv(DmNext(s))
  {
  }

  lemma {:induction false} WaitStepClient(s: State)
    requires WaitInv(s)
    ensures WaitInv(ClientNext(s, 0))
  {
    hide Signal;
  }

  lemma {:induction false} WaitStep(s: State, a: Action)
    requires WaitInv(s) && FillInv(s)
    ensures WaitInv(Next(s, a))
  {
    hide AdmittedCount, ClientNext, DmNext;
    match a
    case DmStep => WaitStepDm(s);
    case ClientStep(c) => if c < |s.clients| { WaitStepClient(s); }
    case _ =>
  }

  lemma {:induction false} SoleRunInv(s: State, run: seq<Action>)
    requires Initial(s) && |s.clients| == 1
    ensures var t := Exec(s, run); RingInv(t) && WaitInv(t) && FillInv(t)
    decreases |run|
  {
    if run == [] {
      NoneAdmitted(s.clients);
    } else {
      SoleRunInv(s, run[..|run| - 1]);
      var (t, a) := (Exec(s, run[..|run| - 1]), run[|run| - 1]);
      hide Next, FillInv, RingInv, WaitInv;
      FillStep(t, a);
      RingStep(t, a);
      WaitStep(t, a);
    }
  }

  /** With one client, transfers are issued in the order in which they were submitted, and no
      slot is overwritten before its task was issued. */
  lemma {:induction false} IssuesInSubmissionOrder(s: State, run: seq<Action>)
    requires Initial(s) && |s.clients| == 1
    ensures var t := Exec(s, run);
      && t.log.issued <= t.log.submitted
      && RingHolds(t.ring, t.log.submitted, Live(t))
      && |t.log.submitted| - |t.log.issued| <= Live(t) <= SLOTS
      && (t.clients[0].Writing? ==>
            forall i :: 0 <= i < Live(t) ==> SlotIndex(t.ring, i) != t.ring.front)
  {
    hide Exec, AdmittedCount;
    SoleRunInv(s, run);
    SoleClientRoom(Exec(s, run));
  }

  /** When dm_wait returns to a sole client, every transfer that it queued was issued, in order,
      the DMA was seen idle after the last of them, and it is idle. */
  lemma {:induction false} WaitReturnsWhenIdle(s: State, run: seq<Action>)
    requires Initial(s) && |s.clients| == 1
    requires Exec(s, run).clients[0] == UnlockingStat
    ensures Exec(s, run).log.issued == Exec(s, run).log.submitted
    ensures Exec(s, run).log.idleSeen && !Exec(s, run).ctl.busy
  {
    hide Exec, AdmittedCount, RingHolds, FrontAt;
    SoleRunInv(s, run);
    var t := Exec(s, run);
    assert t.log.submitted[..|t.log.submitted|] == t.log.submitted;
  }

  // ----- Two clients

  lemma {:induction false} ExecSnoc(s: State, run: seq<Action>, a: Action)
    ensures Exec(s, run + [a]) == Next(Exec(s, run), a)
  {
    assert (run + [a])[..|run|] == run;
  }

  /** The remaining steps of a copy by client `c` that has seen room, with nobody interfering. */
  lemma {:induction false} FinishCopy(s: State, run: seq<Action>, c: nat, t: Task) returns (run': seq<Action>)
    requires var u := Exec(s, run);
      c < |s.clients| && u.clients[c] == Locking(t) && !u.ctl.mutex && |u.ring.slots| == SLOTS && u.ring.front < SLOTS
    ensures var (u, u') := (Exec(s, run), Exec(s, run'));
      && u'.clients == u.clients[c := Idle] && u'.ctl == u.ctl && u'.dm == u.dm
      && u'.ring == Ring(u.ring.slots[u.ring.front := t], u.ring.back, (u.ring.front + 1) % SLOTS, u.ring.fill + 1)
      && u'.log.submitted == u.log.submitted + [t] && u'.log.issued == u.log.issued
  {
    hide Exec, Next;
    var a := ClientStep(c);
    ExecSnoc(s, run, a);
    ExecSnoc(s, run + [a], a);
    ExecSnoc(s, run + [a] + [a], a);
    ExecSnoc(s, run + [a] + [a] + [a], a);
    ExecSnoc(s, run + [a] + [a] + [a] + [a], a);
    run' := run + [a] + [a] + [a] + [a] + [a];
    var u := Exec(s, run);
    var u1 := Exec(s, run + [a]);
    var u2 := Exec(s, run + [a] + [a]);
    var u3 := Exec(s, run + [a] + [a] + [a]);
    var u4 := Exec(s, run + [a] + [a] + [a] + [a]);
    CopyBegins(u, u1, u2, c, t);
    CopyEnds(u2, u3, u4, Exec(s, run'), c, t);
    assert u.clients[c := Filling(t)][c := Idle] == u.clients[c := Idle];
  }

  /** The lock is taken and the slot is written. */
  lemma {:induction false} CopyBegins(u: State, u1: State, u2: State, c: nat, t: Task)
    requires c < |u.clients| && u.clients[c] == Locking(t) && !u.ctl.mutex && u.ring.front < |u.ring.slots|
    requires u1 == Next(u, ClientStep(c)) && u2 == Next(u1, ClientStep(c))
    ensures u2 == u.(clients := u.clients[c := Filling(t)], ctl := u.ctl.(mutex := true),
                     ring := u.ring.(slots := u.ring.slots[u.ring.front := t]))
  {
    assert u.clients[c := Writing(t)][c := Filling(t)] == u.clients[c := Filling(t)];
  }

  /** The counts are bumped and the lock is given back. */
  lemma {:induction false} CopyEnds(u: State, u1: State, u2: State, u3: State, c: nat, t: Task)
    requires c < |u.clients| && u.clients[c] == Filling(t)
    requires u1 == Next(u, ClientStep(c)) && u2 == Next(u1, ClientStep(c)) && u3 == Next(u2, ClientStep(c))
    ensures u3.clients == u.clients[c := Idle] && u3.ctl == u.ctl.(mutex := false) && u3.dm == u.dm
    ensures u3.ring == u.ring.(fill := u.ring.fill + 1, front := (u.ring.front + 1) % SLOTS)
    ensures u3.log.submitted == u.log.submitted + [t] && u3.log.issued == u.log.issued
  {
    assert u.clients[c := Fronting][c := Unlocking][c := Idle] == u.clients[c := Idle];
  }

  lemma {:induction false} SeeRoom(s: State, run: seq<Action>, c: nat, t: Task) returns (run': seq<Action>)
    requires var u := Exec(s, run); c < |s.clients| && u.clients[c] == Idle && u.ring.fill < SLOTS
    ensures Exec(s, run') == At(Exec(s, run), c, Locking(t))
  {
    hide Exec;
    var (b, a) := (BeginCopy(c, t), ClientStep(c));
    ExecSnoc(s, run, b);
    ExecSnoc(s, run + [b], a);
    run' := run + [b] + [a];
    var u := Exec(s, run);
    assert u.clients[c := Polling(t)][c := Locking(t)] == u.clients[c := Locking(t)];
  }

  /** One undisturbed copy by client 0. */
  lemma {:induction false} OneCopy(s: State, run: seq<Action>, t: Task) returns (run': seq<Action>)
    requires var u := Exec(s, run);
      |s.clients| > 0 && u.clients[0] == Idle && !u.ctl.mutex && |u.ring.slots| == SLOTS && u.ring.fill < SLOTS && u.ring.front < SLOTS
    ensures var (u, u') := (Exec(s, run), Exec(s, run'));
      && u'.clients == u.clients && u'.ctl == u.ctl && u'.dm == u.dm
      && u'.ring == Ring(u.ring.slots[u.ring.front := t], u.ring.back, (u.ring.front + 1) % SLOTS, u.ring.fill + 1)
      && u'.log.submitted == u.log.submitted + [t] && u'.log.issued == u.log.issued
  {
    hide Exec, Next;
    var u := Exec(s, run);
    var r := SeeRoom(s, run, 0, t);
    run' := FinishCopy(s, r, 0, t);
    assert u.clients[0 := Locking(t)][0 := Idle] == u.clients;
  }

  lemma ExecNothing(s: State)
    ensures Exec(s, []) == s
  {
  }

  lemma {:induction false} ThreeCopies(s: State) returns (run: seq<Action>)
    requires Initial(s) && |s.clients| > 0
    ensures var u := Exec(s, run);
      && u.clients == s.clients && u.ctl == s.ctl && u.dm == Top
      && |u.ring.slots| == SLOTS && u.ring.back == 0 && u.ring.front == u.ring.fill == 3
      && u.log.submitted == [1, 2, 3] && u.log.issued == []
  {
    hide Exec, Next;
    ExecNothing(s);
    var r1 := OneCopy(s, [], 1);
    var r2 := OneCopy(s, r1, 2);
    run := OneCopy(s, r2, 3);
  }

  /** Three steps of the DM core issue the task in the oldest slot. */
  lemma {:induction false} IssueOne(s: State, run: seq<Action>) returns (run': seq<Action>)
    requires var u := Exec(s, run); u.dm == Top && u.ring.fill > 0 && |u.ring.slots| == SLOTS && u.ring.back < SLOTS
    ensures var (u, u') := (Exec(s, run), Exec(s, run'));
      u'.log.issued == u.log.issued + [u.ring.slots[u.ring.back]] && u'.log.submitted == u.log.submitted
  {
    hide Exec, ClientNext;
    ExecSnoc(s, run, DmStep);
    ExecSnoc(s, run + [DmStep], DmStep);
    ExecSnoc(s, run + [DmStep] + [DmStep], DmStep);
    run' := run + [DmStep] + [DmStep] + [DmStep];
  }

  /** Two clients that both see the last free slot overfill the ring: the oldest task is
      overwritten and never issued. */
  lemma {:induction false} TwoClientsLoseATask(s: State) returns (run: seq<Action>)
    requires Initial(s) && |s.clients| >= 2
    ensures !(Exec(s, run).log.issued <= Exec(s, run).log.submitted)
  {
    hide Exec, Next;
    var r := ThreeCopies(s);
    var r1 := SeeRoom(s, r, 0, 4);
    var r2 := SeeRoom(s, r1, 1, 5);
    var r3 := FinishCopy(s, r2, 0, 4);
    var r4 := FinishCopy(s, r3, 1, 5);
    run := IssueOne(s, r4);
    var (issued, submitted) := (Exec(s, run).log.issued, Exec(s, run).log.submitted);
    assert issued[0] == 5 && submitted[0] == [1, 2, 3][0] == 1;
  }

  ghost predicate AlwaysInOrder(s: State) {
    forall run :: Exec(s, run).log.issued <= Exec(s, run).log.submitted
  }

  /** Transfers are issued in submission order in every run exactly when there is one client. */
  lemma InOrderIffOneClient(s: State)
    requires Initial(s) && |s.clients| >= 1
    ensures AlwaysInOrder(s) <==> |s.clients| == 1
  {
    hide Exec;
    if |s.clients| == 1 {
      forall run ensures Exec(s, run).log.issued <= Exec(s, run).log.submitted {
        IssuesInSubmissionOrder(s, run);
      }
    } else {
      var run := TwoClientsLoseATask(s);
    }
  }
}
