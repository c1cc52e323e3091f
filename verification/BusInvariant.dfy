/** The inductive invariant of the bus machine.  `Inv` has one conjunct per
    concern, each a predicate of just the parts of the state it speaks about;
    the preservation proof has one lemma per group of program points. */
module BusInvariant {
  import opened Routing
  import opened Wrappers
  import opened Bus

  // ----- mutual exclusion ------------------------------------------------------

  predicate PusherHolds(pc: PusherPc) { pc.PTest? || pc.PGoingToSleep? || pc.PCheck? || pc.PPushing? }
  predicate ConsumerHolds(pc: ConsumerPc) { pc.CTest? || pc.CGoingToSleep? || pc.CDecide? || pc.CLogHeld? }
  predicate StopperHolds(pc: StopperPc) { pc.SHeld? || pc.FClear? }

  /** A thread is inside its critical section exactly when it owns the mutex. */
  ghost predicate PushersExclude(mutex: Option<Owner>, pushers: map<Tid, Pusher>) {
    && (forall p :: p in pushers ==> (PusherHolds(pushers[p].pc) <==> mutex == Some(PusherOwner(p))))
    && (mutex.Some? && mutex.value.PusherOwner? ==> mutex.value.p in pushers)
  }

  ghost predicate StoppersExclude(mutex: Option<Owner>, stoppers: map<Tid, StopperPc>) {
    && (forall t :: t in stoppers ==> (StopperHolds(stoppers[t]) <==> mutex == Some(StopperOwner(t))))
    && (mutex.Some? && mutex.value.StopperOwner? ==> mutex.value.t in stoppers)
  }

  ghost predicate ConsumerExcludes(mutex: Option<Owner>, c: ConsumerPc) {
    ConsumerHolds(c) <==> mutex == Some(ConsumerOwner)
  }

  // ----- flags and program counters ---------------------------------------------

  /** Program counters that lie behind the store of `running_ = false`. */
  predicate AfterStore(pc: StopperPc) {
    pc.SClearReaders? || pc.SLock? || pc.SHeld? || pc.SNotifyFull? || pc.SNotifyEmpty? || pc.SJoin? || pc.SFinish? ||
    pc.FLock? || pc.FClear? || pc.FNotifyFull? || pc.FNotifyEmpty?
  }

  predicate AfterForce(pc: StopperPc) {
    pc.FStore? || pc.FLock? || pc.FClear? || pc.FNotifyFull? || pc.FNotifyEmpty?
  }

  ghost predicate FlagInv(running: bool, forceQuit: bool, stoppers: map<Tid, StopperPc>) {
    && (forall t :: t in stoppers && AfterStore(stoppers[t]) ==> !running)
    && (forall t :: t in stoppers && AfterForce(stoppers[t]) ==> forceQuit)
  }

  /** Program counters at which the consumer has no swapped-out batches. */
  predicate LocalDone(pc: ConsumerPc) { !pc.CNotify? && !pc.CLoop? && !pc.CSubmit? && !pc.CAwait? }

  ghost predicate ExitInv(running: bool, queue: seq<Entry>, c: ConsumerPc, local: seq<Entry>) {
    && (LocalDone(c) ==> local == [])
    && (c == CExited ==> !running && queue == [])
  }

  // ----- the queue bound ----------------------------------------------------------

  ghost predicate BoundInv(capacity: nat, queue: seq<Entry>, local: seq<Entry>) {
    |queue| <= capacity && |local| <= capacity
  }

  /** A pusher that got past the wait found room, and room stays while it holds the mutex. */
  ghost predicate RoomInv(capacity: nat, running: bool, depth: nat, exited: bool, pushers: map<Tid, Pusher>) {
    && (forall p :: p in pushers && pushers[p].pc == PPushing ==> depth < capacity && !exited)
    && (forall p :: p in pushers && pushers[p].pc == PCheck ==> depth < capacity || !running)
  }

  // ----- first in, first out, nothing lost -------------------------------------------

  ghost predicate FlowInv(forceQuit: bool, accepted: seq<Entry>, dispatched: seq<Entry>, local: seq<Entry>, queue: seq<Entry>) {
    && dispatched <= accepted
    && (!forceQuit ==> accepted == dispatched + (local + queue))
  }

  /** What one thread got accepted, in order. */
  function ByThread(log: seq<Entry>, p: Tid): seq<Batch> {
    if log == [] then []
    else ByThread(log[..|log|-1], p) + (if log[|log|-1].pusher == p then [log[|log|-1].batch] else [])
  }

  function InFlight(me: Pusher): seq<Batch> { if me.pc == PNotify then [me.batch] else [] }

  ghost predicate ThreadInv(accepted: seq<Entry>, pushers: map<Tid, Pusher>) {
    forall p :: p in pushers ==> ByThread(accepted, p) == pushers[p].succeeded + InFlight(pushers[p])
  }

  // ----- nobody sleeps without a pending wakeup ----------------------------------------

  predicate PreLock(pc: StopperPc) { pc.SClearReaders? || pc.SLock? || pc.FLock? }
  predicate OwesFull(pc: StopperPc) { PreLock(pc) || pc.SHeld? || pc.FClear? || pc.SNotifyFull? || pc.FNotifyFull? }
  predicate OwesEmpty(pc: StopperPc) { OwesFull(pc) || pc.SNotifyEmpty? || pc.FNotifyEmpty? }

  /** Some stopping thread is at a program counter where `owes` holds. */
  ghost predicate SomeStopper(stoppers: map<Tid, StopperPc>, owes: StopperPc -> bool) {
    exists t :: t in stoppers && owes(stoppers[t])
  }

  predicate ClearOwesFull(pc: StopperPc) { pc.FNotifyFull? }

  ghost predicate PushOwesEmpty(pushers: map<Tid, Pusher>) { exists p :: p in pushers && pushers[p].pc == PNotify }

  ghost predicate ConsumerSleepInv(running: bool, queue: seq<Entry>, c: ConsumerPc, pushers: map<Tid, Pusher>, stoppers: map<Tid, StopperPc>) {
    && (c == CGoingToSleep ==> queue == [] && (!running ==> SomeStopper(stoppers, PreLock)))
    && (c == CAsleep ==> (queue != [] ==> PushOwesEmpty(pushers)) && (!running ==> SomeStopper(stoppers, OwesEmpty)))
  }

  /** `room`: the queue is below capacity. */
  ghost predicate PusherSleepInv(running: bool, room: bool, c: ConsumerPc, pushers: map<Tid, Pusher>, stoppers: map<Tid, StopperPc>) {
    && (forall p :: p in pushers && pushers[p].pc == PGoingToSleep ==> !room && (running || SomeStopper(stoppers, PreLock)))
    && (forall p :: p in pushers && pushers[p].pc == PAsleep ==>
          (room ==> c == CNotify || SomeStopper(stoppers, ClearOwesFull)) && (running || SomeStopper(stoppers, OwesFull)))
  }

  // ----- one winner among the callers of stop ---------------------------------------------

  predicate WinnerBusy(pc: StopperPc) {
    pc.SStore? || pc.SClearReaders? || pc.SLock? || pc.SHeld? || pc.SNotifyFull? || pc.SNotifyEmpty? || pc.SJoin? || pc.SFinish?
  }

  /** Whoever waits for `stopped_` waits for a call that is still on its way. */
  ghost predicate WinnerInv(stopping: bool, stopped: bool, stoppers: map<Tid, StopperPc>) {
    && (stopping && !stopped ==> SomeStopper(stoppers, WinnerBusy))
    && (forall t :: t in stoppers && stoppers[t] == SSpin ==> stopping)
  }

  /** `stop` gets past the join, and `stopped_` is set, only after the consumer left. */
  ghost predicate JoinInv(stopped: bool, c: ConsumerPc, stoppers: map<Tid, StopperPc>) {
    && (stopped ==> c == CExited)
    && (forall t :: t in stoppers && stoppers[t] == SFinish ==> c == CExited)
  }

  // ----- the fan-out ------------------------------------------------------------------

  /** The dispatched batches that writer i must be given, in order. */
  function Delivered(cfg: Config, i: nat, log: seq<Entry>): seq<Batch>
    requires i < |cfg.writers|
  {
    if log == [] then []
    else Delivered(cfg, i, log[..|log|-1]) + (if Takes(cfg, i, log[|log|-1].batch) then [log[|log|-1].batch] else [])
  }

  /** Writer i has yet to receive the current batch. */
  predicate Outstanding(cfg: Config, fan: FanOut, c: ConsumerPc, i: nat)
    requires i < |cfg.writers|
  {
    i in fan.pending || (c.CSubmit? && c.i <= i && Takes(cfg, i, fan.current))
  }

  /** The tasks not yet run are among those the consumer still has to wait for. */
  ghost predicate BarrierInv(writers: nat, fan: FanOut, c: ConsumerPc) {
    && |fan.writerLog| == writers
    && (forall i :: i in fan.pending ==> i < writers)
    && (c.CSubmit? ==> c.i <= writers && forall i :: i in fan.pending ==> i < c.i && i in fan.indices)
    && (c.CAwait? ==> c.f <= |fan.indices| && forall i :: i in fan.pending ==> i in fan.indices[c.f..])
    && (!c.CSubmit? && !c.CAwait? ==> fan.pending == {})
  }

  ghost predicate DeliveryInv(cfg: Config, fan: FanOut, c: ConsumerPc, dispatched: seq<Entry>) {
    |fan.writerLog| == |cfg.writers| &&
    forall i {:trigger fan.writerLog[i]} :: 0 <= i < |cfg.writers| ==>
      fan.writerLog[i] + (if Outstanding(cfg, fan, c, i) then [fan.current] else []) == Delivered(cfg, i, dispatched)
  }

  ghost predicate Inv(cfg: Config, s: State) {
    && PushersExclude(s.mutex, s.pushers)
    && StoppersExclude(s.mutex, s.stoppers)
    && ConsumerExcludes(s.mutex, s.consumer)
    && FlagInv(s.running, s.forceQuit, s.stoppers)
    && ExitInv(s.running, s.queue, s.consumer, s.local)
    && BoundInv(cfg.capacity, s.queue, s.local)
    && RoomInv(cfg.capacity, s.running, |s.queue|, s.consumer == CExited, s.pushers)
    && FlowInv(s.forceQuit, s.accepted, s.dispatched, s.local, s.queue)
    && ThreadInv(s.accepted, s.pushers)
    && ConsumerSleepInv(s.running, s.queue, s.consumer, s.pushers, s.stoppers)
    && PusherSleepInv(s.running, |s.queue| < cfg.capacity, s.consumer, s.pushers, s.stoppers)
    && WinnerInv(s.stopping, s.stopped, s.stoppers)
    && JoinInv(s.stopped, s.consumer, s.stoppers)
    && BarrierInv(|cfg.writers|, s.fan, s.consumer)
    && DeliveryInv(cfg, s.fan, s.consumer, s.dispatched)
  }

  // ----- helpers -----------------------------------------------------------------------

  lemma ByThreadAppend(log: seq<Entry>, e: Entry, p: Tid)
    ensures ByThread(log + [e], p) == ByThread(log, p) + (if e.pusher == p then [e.batch] else [])
  {
    assert (log + [e])[..|log|] == log;
  }

  lemma DeliveredAppend(cfg: Config, i: nat, log: seq<Entry>, e: Entry)
    requires i < |cfg.writers|
    ensures Delivered(cfg, i, log + [e]) == Delivered(cfg, i, log) + (if Takes(cfg, i, e.batch) then [e.batch] else [])
  {
    assert (log + [e])[..|log|] == log;
  }

  /** A thread that owes a wakeup keeps owing it while another thread moves. */
  lemma SomeStopperKept(stoppers: map<Tid, StopperPc>, t: Tid, pc: StopperPc, owes: StopperPc -> bool)
    requires SomeStopper(stoppers, owes) || owes(pc)
    requires t in stoppers && owes(stoppers[t]) ==> owes(pc)
    ensures SomeStopper(stoppers[t := pc], owes)
  {
    var after := stoppers[t := pc];
    if owes(pc) {
      assert t in after && owes(after[t]);
    } else {
      var u :| u in stoppers && owes(stoppers[u]);
      assert u in after && owes(after[u]);
    }
  }

  lemma StopOwesMore(stoppers: map<Tid, StopperPc>)
    ensures SomeStopper(stoppers, PreLock) ==> SomeStopper(stoppers, OwesFull)
    ensures SomeStopper(stoppers, OwesFull) ==> SomeStopper(stoppers, OwesEmpty)
    ensures SomeStopper(stoppers, ClearOwesFull) ==> SomeStopper(stoppers, OwesFull)
  {
  }

  /** One kind of owed wakeup, which a step may start owing or pay. */
  lemma OwesStep(stoppers: map<Tid, StopperPc>, t: Tid, pc: StopperPc, owes: StopperPc -> bool, starts: bool, pays: bool)
    requires t in stoppers && (starts ==> owes(pc)) && (owes(stoppers[t]) && !pays ==> owes(pc))
    ensures starts || (SomeStopper(stoppers, owes) && !pays) ==> SomeStopper(stoppers[t := pc], owes)
  {
    if starts || (SomeStopper(stoppers, owes) && !pays) { SomeStopperKept(stoppers, t, pc, owes); }
  }

  /** What one step of stop or forceStop does to the owed wakeups. */
  lemma StopperOwes(stoppers: map<Tid, StopperPc>, t: Tid, stopping: bool)
    requires t in stoppers
    ensures var pc := stoppers[t];
            var stores := pc.SStore? || pc.FStore?;
            var after := stoppers[t := StopperGoes(pc, stopping)];
            && (stores || (SomeStopper(stoppers, PreLock) && !pc.SLock? && !pc.FLock?) ==> SomeStopper(after, PreLock))
            && (stores || (SomeStopper(stoppers, OwesFull) && !pc.SNotifyFull? && !pc.FNotifyFull?) ==> SomeStopper(after, OwesFull))
            && (stores || (SomeStopper(stoppers, OwesEmpty) && !pc.SNotifyEmpty? && !pc.FNotifyEmpty?) ==> SomeStopper(after, OwesEmpty))
            && (pc.FClear? || (SomeStopper(stoppers, ClearOwesFull) && !pc.FNotifyFull?) ==> SomeStopper(after, ClearOwesFull))
  {
    var pc, pc' := stoppers[t], StopperGoes(stoppers[t], stopping);
    var stores := pc.SStore? || pc.FStore?;
    OwesStep(stoppers, t, pc', PreLock, stores, pc.SLock? || pc.FLock?);
    OwesStep(stoppers, t, pc', OwesFull, stores, pc.SNotifyFull? || pc.FNotifyFull?);
    OwesStep(stoppers, t, pc', OwesEmpty, stores, pc.SNotifyEmpty? || pc.FNotifyEmpty?);
    OwesStep(stoppers, t, pc', ClearOwesFull, pc.FClear?, pc.FNotifyFull?);
  }

  /** A new call of stop or forceStop takes nothing away from the owed wakeups. */
  lemma CallOwes(stoppers: map<Tid, StopperPc>, t: Tid, pc: StopperPc)
    requires t in stoppers && stoppers[t] == SIdle
    ensures SomeStopper(stoppers, PreLock) ==> SomeStopper(stoppers[t := pc], PreLock)
    ensures SomeStopper(stoppers, OwesFull) ==> SomeStopper(stoppers[t := pc], OwesFull)
    ensures SomeStopper(stoppers, OwesEmpty) ==> SomeStopper(stoppers[t := pc], OwesEmpty)
    ensures SomeStopper(stoppers, ClearOwesFull) ==> SomeStopper(stoppers[t := pc], ClearOwesFull)
    ensures SomeStopper(stoppers, WinnerBusy) ==> SomeStopper(stoppers[t := pc], WinnerBusy)
  {
    if SomeStopper(stoppers, PreLock) { SomeStopperKept(stoppers, t, pc, PreLock); }
    if SomeStopper(stoppers, OwesFull) { SomeStopperKept(stoppers, t, pc, OwesFull); }
    if SomeStopper(stoppers, OwesEmpty) { SomeStopperKept(stoppers, t, pc, OwesEmpty); }
    if SomeStopper(stoppers, ClearOwesFull) { SomeStopperKept(stoppers, t, pc, ClearOwesFull); }
    if SomeStopper(stoppers, WinnerBusy) { SomeStopperKept(stoppers, t, pc, WinnerBusy); }
  }

  lemma PushOwesKept(pushers: map<Tid, Pusher>, p: Tid, me: Pusher)
    requires PushOwesEmpty(pushers) || me.pc == PNotify
    requires p in pushers && pushers[p].pc == PNotify ==> me.pc == PNotify
    ensures PushOwesEmpty(pushers[p := me])
  {
    var after := pushers[p := me];
    if me.pc == PNotify {
      assert p in after && after[p].pc == PNotify;
    } else {
      var q :| q in pushers && pushers[q].pc == PNotify;
      assert q in after && after[q].pc == PNotify;
    }
  }

  lemma PushOwesWoken(pushers: map<Tid, Pusher>)
    requires PushOwesEmpty(pushers)
    ensures PushOwesEmpty(WakePushers(pushers))
  {
    var q :| q in pushers && pushers[q].pc == PNotify;
    assert q in WakePushers(pushers) && WakePushers(pushers)[q].pc == PNotify;
  }

  // ----- pushers --------------------------------------------------------------------------

  lemma PusherMutexPreserved(cfg: Config, s: State, p: Tid)
    requires PushersExclude(s.mutex, s.pushers) && StoppersExclude(s.mutex, s.stoppers) && ConsumerExcludes(s.mutex, s.consumer)
    requires PusherReady(s, p)
    ensures var s' := PusherStep(cfg, s, p);
      PushersExclude(s'.mutex, s'.pushers) && StoppersExclude(s'.mutex, s'.stoppers) && ConsumerExcludes(s'.mutex, s'.consumer)
  {
  }

  lemma PusherQueuePreserved(cfg: Config, s: State, p: Tid)
    requires PushersExclude(s.mutex, s.pushers) && ExitInv(s.running, s.queue, s.consumer, s.local) && BoundInv(cfg.capacity, s.queue, s.local)
    requires RoomInv(cfg.capacity, s.running, |s.queue|, s.consumer == CExited, s.pushers) && PusherReady(s, p)
    ensures var s' := PusherStep(cfg, s, p);
      && ExitInv(s'.running, s'.queue, s'.consumer, s'.local) && BoundInv(cfg.capacity, s'.queue, s'.local)
      && RoomInv(cfg.capacity, s'.running, |s'.queue|, s'.consumer == CExited, s'.pushers)
  {
  }

  lemma PusherFlowPreserved(cfg: Config, s: State, p: Tid)
    requires FlowInv(s.forceQuit, s.accepted, s.dispatched, s.local, s.queue) && PusherReady(s, p)
    ensures var s' := PusherStep(cfg, s, p); FlowInv(s'.forceQuit, s'.accepted, s'.dispatched, s'.local, s'.queue)
  {
    var e := Entry(p, s.pushers[p].batch);
    assert s.dispatched + (s.local + (s.queue + [e])) == (s.dispatched + (s.local + s.queue)) + [e];
  }

  lemma ByThreadPushed(log: seq<Entry>, e: Entry, pushed: bool, q: Tid)
    ensures ByThread(log + (if pushed then [e] else []), q) == ByThread(log, q) + (if pushed && e.pusher == q then [e.batch] else [])
  {
    ByThreadAppend(log, e, q);
    assert log + [] == log && ByThread(log, q) + [] == ByThread(log, q);
  }

  /** What a pusher has in flight and what it got true for, after its step. */
  lemma OwnLogStep(me: Pusher, running: bool, room: bool)
    requires me.pc != PIdle && me.pc != PAsleep
    ensures var after := Pusher(PusherGoes(me.pc, running, room, Malformed(me.batch)), me.batch,
                                me.succeeded + if me.pc == PNotify then [me.batch] else []);
            after.succeeded + InFlight(after) == me.succeeded + InFlight(me) + (if me.pc == PPushing then [me.batch] else [])
  {
    assert me.succeeded + [] == me.succeeded;
  }

  lemma PusherThreadPreserved(cfg: Config, s: State, p: Tid)
    requires ThreadInv(s.accepted, s.pushers) && PusherReady(s, p)
    ensures var s' := PusherStep(cfg, s, p); ThreadInv(s'.accepted, s'.pushers)
  {
    var me := s.pushers[p];
    var s' := PusherStep(cfg, s, p);
    OwnLogStep(me, s.running, |s.queue| < cfg.capacity);
    forall q | q in s'.pushers ensures ByThread(s'.accepted, q) == s'.pushers[q].succeeded + InFlight(s'.pushers[q]) {
      ByThreadPushed(s.accepted, Entry(p, me.batch), me.pc == PPushing, q);
      assert ByThread(s.accepted, q) + [] == ByThread(s.accepted, q);
    }
  }

  lemma PusherSleepPreserved(cfg: Config, s: State, p: Tid)
    requires PushersExclude(s.mutex, s.pushers) && ConsumerExcludes(s.mutex, s.consumer) 
    requires ConsumerSleepInv(s.running, s.queue, s.consumer, s.pushers, s.stoppers)
    requires PusherSleepInv(s.running, |s.queue| < cfg.capacity, s.consumer, s.pushers, s.stoppers)
    requires PusherReady(s, p)
    ensures var s' := PusherStep(cfg, s, p);
      && ConsumerSleepInv(s'.running, s'.queue, s'.consumer, s'.pushers, s'.stoppers)
      && PusherSleepInv(s'.running, |s'.queue| < cfg.capacity, s'.consumer, s'.pushers, s'.stoppers)
  {
    StopOwesMore(s.stoppers);
    var me' := PusherStep(cfg, s, p).pushers[p];
    if s.consumer == CAsleep && s.pushers[p].pc != PNotify && (s.queue != [] || me'.pc == PNotify) {
      PushOwesKept(s.pushers, p, me');
    }
  }

  lemma PusherFanPreserved(cfg: Config, s: State, p: Tid)
    requires JoinInv(s.stopped, s.consumer, s.stoppers)
    requires BarrierInv(|cfg.writers|, s.fan, s.consumer) && DeliveryInv(cfg, s.fan, s.consumer, s.dispatched) && PusherReady(s, p)
    ensures var s' := PusherStep(cfg, s, p);
      JoinInv(s'.stopped, s'.consumer, s'.stoppers) && BarrierInv(|cfg.writers|, s'.fan, s'.consumer) && DeliveryInv(cfg, s'.fan, s'.consumer, s'.dispatched)
  {
  }

  // ----- the consumer --------------------------------------------------------------------------

  lemma ConsumerMutexPreserved(cfg: Config, s: State, logs: bool)
    requires PushersExclude(s.mutex, s.pushers) && StoppersExclude(s.mutex, s.stoppers) && ConsumerExcludes(s.mutex, s.consumer)
    requires ConsumerReady(s)
    ensures var s' := ConsumerStep(cfg, s, logs);
      PushersExclude(s'.mutex, s'.pushers) && StoppersExclude(s'.mutex, s'.stoppers) && ConsumerExcludes(s'.mutex, s'.consumer)
  {
  }

  lemma ConsumerQueuePreserved(cfg: Config, s: State, logs: bool)
    requires PushersExclude(s.mutex, s.pushers) && ConsumerExcludes(s.mutex, s.consumer)
    requires ExitInv(s.running, s.queue, s.consumer, s.local) && BoundInv(cfg.capacity, s.queue, s.local)
    requires RoomInv(cfg.capacity, s.running, |s.queue|, s.consumer == CExited, s.pushers) && ConsumerReady(s)
    ensures var s' := ConsumerStep(cfg, s, logs);
      && ExitInv(s'.running, s'.queue, s'.consumer, s'.local) && BoundInv(cfg.capacity, s'.queue, s'.local)
      && RoomInv(cfg.capacity, s'.running, |s'.queue|, s'.consumer == CExited, s'.pushers)
  {
  }

  lemma ConsumerFlowPreserved(cfg: Config, s: State, logs: bool)
    requires FlowInv(s.forceQuit, s.accepted, s.dispatched, s.local, s.queue) && ThreadInv(s.accepted, s.pushers)
    requires ExitInv(s.running, s.queue, s.consumer, s.local) && ConsumerReady(s)
    ensures var s' := ConsumerStep(cfg, s, logs);
      FlowInv(s'.forceQuit, s'.accepted, s'.dispatched, s'.local, s'.queue) && ThreadInv(s'.accepted, s'.pushers)
  {
  }

  lemma ConsumerSleepPreserved(cfg: Config, s: State, logs: bool)
    requires PushersExclude(s.mutex, s.pushers) && ConsumerExcludes(s.mutex, s.consumer) 
    requires ConsumerSleepInv(s.running, s.queue, s.consumer, s.pushers, s.stoppers)
    requires PusherSleepInv(s.running, |s.queue| < cfg.capacity, s.consumer, s.pushers, s.stoppers)
    requires ConsumerReady(s)
    ensures var s' := ConsumerStep(cfg, s, logs);
      && ConsumerSleepInv(s'.running, s'.queue, s'.consumer, s'.pushers, s'.stoppers)
      && PusherSleepInv(s'.running, |s'.queue| < cfg.capacity, s'.consumer, s'.pushers, s'.stoppers)
  {
    StopOwesMore(s.stoppers);
  }

  lemma ConsumerFanPreserved(cfg: Config, s: State, logs: bool)
    requires JoinInv(s.stopped, s.consumer, s.stoppers)
    requires BarrierInv(|cfg.writers|, s.fan, s.consumer) && DeliveryInv(cfg, s.fan, s.consumer, s.dispatched) && ConsumerReady(s)
    ensures var s' := ConsumerStep(cfg, s, logs);
      JoinInv(s'.stopped, s'.consumer, s'.stoppers) && BarrierInv(|cfg.writers|, s'.fan, s'.consumer) && DeliveryInv(cfg, s'.fan, s'.consumer, s'.dispatched)
  {
    var s' := ConsumerStep(cfg, s, logs);
    forall i: nat | i < |cfg.writers|
      ensures s'.fan.writerLog[i] + (if Outstanding(cfg, s'.fan, s'.consumer, i) then [s'.fan.current] else []) == Delivered(cfg, i, s'.dispatched)
    {
      assert s.fan.writerLog[i] + (if Outstanding(cfg, s.fan, s.consumer, i) then [s.fan.current] else []) == Delivered(cfg, i, s.dispatched);
      if s.consumer == CLoop && Dispatches(s) {
        DeliveredAppend(cfg, i, s.dispatched, s.local[0]);
      } else {
        assert s'.dispatched == s.dispatched;
      }
    }
  }

  // ----- stop and forceStop --------------------------------------------------------------------------

  lemma StopperMutexPreserved(cfg: Config, s: State, t: Tid)
    requires PushersExclude(s.mutex, s.pushers) && StoppersExclude(s.mutex, s.stoppers) && ConsumerExcludes(s.mutex, s.consumer)
    requires StopperReady(cfg, s, t)
    ensures var s' := StopperStep(cfg, s, t);
      PushersExclude(s'.mutex, s'.pushers) && StoppersExclude(s'.mutex, s'.stoppers) && ConsumerExcludes(s'.mutex, s'.consumer)
  {
  }

  lemma StopperQueuePreserved(cfg: Config, s: State, t: Tid)
    requires PushersExclude(s.mutex, s.pushers) && StoppersExclude(s.mutex, s.stoppers)
    requires ExitInv(s.running, s.queue, s.consumer, s.local) && BoundInv(cfg.capacity, s.queue, s.local)
    requires RoomInv(cfg.capacity, s.running, |s.queue|, s.consumer == CExited, s.pushers) && StopperReady(cfg, s, t)
    ensures var s' := StopperStep(cfg, s, t);
      && ExitInv(s'.running, s'.queue, s'.consumer, s'.local) && BoundInv(cfg.capacity, s'.queue, s'.local)
      && RoomInv(cfg.capacity, s'.running, |s'.queue|, s'.consumer == CExited, s'.pushers)
  {
  }

  lemma StopperFlowPreserved(cfg: Config, s: State, t: Tid)
    requires FlowInv(s.forceQuit, s.accepted, s.dispatched, s.local, s.queue) && ThreadInv(s.accepted, s.pushers)
    requires FlagInv(s.running, s.forceQuit, s.stoppers) && StopperReady(cfg, s, t)
    ensures var s' := StopperStep(cfg, s, t);
      && FlowInv(s'.forceQuit, s'.accepted, s'.dispatched, s'.local, s'.queue) && ThreadInv(s'.accepted, s'.pushers)
      && FlagInv(s'.running, s'.forceQuit, s'.stoppers)
  {
  }

  lemma StopperSleepPreserved(cfg: Config, s: State, t: Tid)
    requires PushersExclude(s.mutex, s.pushers) && StoppersExclude(s.mutex, s.stoppers) && StopperReady(cfg, s, t)
    requires PusherSleepInv(s.running, |s.queue| < cfg.capacity, s.consumer, s.pushers, s.stoppers)
    ensures var s' := StopperStep(cfg, s, t);
      PusherSleepInv(s'.running, |s'.queue| < cfg.capacity, s'.consumer, s'.pushers, s'.stoppers)
  {
    StopOwesMore(s.stoppers);
    StopperOwes(s.stoppers, t, s.stopping);
  }

  lemma StopperConsumerSleepPreserved(cfg: Config, s: State, t: Tid)
    requires ConsumerExcludes(s.mutex, s.consumer) && StoppersExclude(s.mutex, s.stoppers) && StopperReady(cfg, s, t)
    requires ConsumerSleepInv(s.running, s.queue, s.consumer, s.pushers, s.stoppers)
    ensures var s' := StopperStep(cfg, s, t);
      ConsumerSleepInv(s'.running, s'.queue, s'.consumer, s'.pushers, s'.stoppers)
  {
    StopOwesMore(s.stoppers);
    StopperOwes(s.stoppers, t, s.stopping);
    if PushOwesEmpty(s.pushers) { PushOwesWoken(s.pushers); }
  }

  lemma StopperWinnerPreserved(cfg: Config, s: State, t: Tid)
    requires WinnerInv(s.stopping, s.stopped, s.stoppers) && StopperReady(cfg, s, t)
    ensures var s' := StopperStep(cfg, s, t); WinnerInv(s'.stopping, s'.stopped, s'.stoppers)
  {
    var pc, pc' := s.stoppers[t], StopperGoes(s.stoppers[t], s.stopping);
    if WinnerBusy(pc') || (SomeStopper(s.stoppers, WinnerBusy) && !WinnerBusy(pc)) {
      SomeStopperKept(s.stoppers, t, pc', WinnerBusy);
    }
  }

  lemma StopperFanPreserved(cfg: Config, s: State, t: Tid)
    requires JoinInv(s.stopped, s.consumer, s.stoppers)
    requires BarrierInv(|cfg.writers|, s.fan, s.consumer) && DeliveryInv(cfg, s.fan, s.consumer, s.dispatched) && StopperReady(cfg, s, t)
    ensures var s' := StopperStep(cfg, s, t);
      JoinInv(s'.stopped, s'.consumer, s'.stoppers) && BarrierInv(|cfg.writers|, s'.fan, s'.consumer) && DeliveryInv(cfg, s'.fan, s'.consumer, s'.dispatched)
  {
  }

  lemma TaskFanPreserved(cfg: Config, s: State, i: nat)
    requires BarrierInv(|cfg.writers|, s.fan, s.consumer) && DeliveryInv(cfg, s.fan, s.consumer, s.dispatched) && TaskReady(s, i)
    ensures var s' := TaskStep(s, i);
      BarrierInv(|cfg.writers|, s'.fan, s'.consumer) && DeliveryInv(cfg, s'.fan, s'.consumer, s'.dispatched)
  {
  }

  // ----- calls and spurious wakeups ----------------------------------------------------------

  predicate CallOrWake(from: PusherPc, to: PusherPc) {
    (from == PIdle && to == PEntry) || (from == PAsleep && to == PWoken)
  }

  lemma PushCallExclusion(cfg: Config, s: State, p: Tid, me: Pusher)
    requires PushersExclude(s.mutex, s.pushers) && ThreadInv(s.accepted, s.pushers)
    requires RoomInv(cfg.capacity, s.running, |s.queue|, s.consumer == CExited, s.pushers)
    requires p in s.pushers && CallOrWake(s.pushers[p].pc, me.pc) && me.succeeded == s.pushers[p].succeeded
    ensures var pushers := s.pushers[p := me];
      && PushersExclude(s.mutex, pushers) && ThreadInv(s.accepted, pushers)
      && RoomInv(cfg.capacity, s.running, |s.queue|, s.consumer == CExited, pushers)
  {
  }

  lemma PushCallSleep(cfg: Config, s: State, p: Tid, me: Pusher)
    requires ConsumerSleepInv(s.running, s.queue, s.consumer, s.pushers, s.stoppers)
    requires PusherSleepInv(s.running, |s.queue| < cfg.capacity, s.consumer, s.pushers, s.stoppers)
    requires p in s.pushers && CallOrWake(s.pushers[p].pc, me.pc)
    ensures var pushers := s.pushers[p := me];
      && ConsumerSleepInv(s.running, s.queue, s.consumer, pushers, s.stoppers)
      && PusherSleepInv(s.running, |s.queue| < cfg.capacity, s.consumer, pushers, s.stoppers)
  {
    if PushOwesEmpty(s.pushers) { PushOwesKept(s.pushers, p, me); }
  }

  lemma PushCallPreserved(cfg: Config, s: State, p: Tid, me: Pusher)
    requires Inv(cfg, s) && p in s.pushers && CallOrWake(s.pushers[p].pc, me.pc) && me.succeeded == s.pushers[p].succeeded
    ensures Inv(cfg, s.(pushers := s.pushers[p := me]))
  {
    PushCallExclusion(cfg, s, p, me);
    PushCallSleep(cfg, s, p, me);
  }

  lemma StopCallPreserved(cfg: Config, s: State, t: Tid, pc: StopperPc)
    requires Inv(cfg, s) && t in s.stoppers && s.stoppers[t] == SIdle && (pc == SExchange || pc == FForce)
    ensures Inv(cfg, s.(stoppers := s.stoppers[t := pc]))
  {
    StopCallFlags(s.mutex, s.running, s.forceQuit, s.stopping, s.stopped, s.consumer, s.stoppers, t, pc);
    StopCallSleep(cfg, s.running, s.queue, s.consumer, s.pushers, s.stoppers, t, pc);
  }

  lemma StopCallFlags(mutex: Option<Owner>, running: bool, forceQuit: bool, stopping: bool, stopped: bool, c: ConsumerPc,
                      stoppers: map<Tid, StopperPc>, t: Tid, pc: StopperPc)
    requires StoppersExclude(mutex, stoppers) && FlagInv(running, forceQuit, stoppers)
    requires WinnerInv(stopping, stopped, stoppers) && JoinInv(stopped, c, stoppers)
    requires t in stoppers && stoppers[t] == SIdle && (pc == SExchange || pc == FForce)
    ensures StoppersExclude(mutex, stoppers[t := pc]) && FlagInv(running, forceQuit, stoppers[t := pc])
    ensures WinnerInv(stopping, stopped, stoppers[t := pc]) && JoinInv(stopped, c, stoppers[t := pc])
  {
    if SomeStopper(stoppers, WinnerBusy) { SomeStopperKept(stoppers, t, pc, WinnerBusy); }
  }

  lemma StopCallSleep(cfg: Config, running: bool, queue: seq<Entry>, c: ConsumerPc, pushers: map<Tid, Pusher>,
                      stoppers: map<Tid, StopperPc>, t: Tid, pc: StopperPc)
    requires ConsumerSleepInv(running, queue, c, pushers, stoppers)
    requires PusherSleepInv(running, |queue| < cfg.capacity, c, pushers, stoppers)
    requires t in stoppers && stoppers[t] == SIdle
    ensures ConsumerSleepInv(running, queue, c, pushers, stoppers[t := pc])
    ensures PusherSleepInv(running, |queue| < cfg.capacity, c, pushers, stoppers[t := pc])
  {
    CallOwes(stoppers, t, pc);
  }

  lemma ConsumerWakePreserved(cfg: Config, s: State)
    requires Inv(cfg, s) && s.consumer == CAsleep
    ensures Inv(cfg, s.(consumer := CWoken))
  {
  }

  // ----- the machine ---------------------------------------------------------------------------

  lemma PusherPreserved(cfg: Config, s: State, p: Tid)
    requires Inv(cfg, s) && PusherReady(s, p)
    ensures Inv(cfg, PusherStep(cfg, s, p))
  {
    PusherMutexPreserved(cfg, s, p);
    PusherQueuePreserved(cfg, s, p);
    PusherFlowPreserved(cfg, s, p);
    PusherThreadPreserved(cfg, s, p);
    PusherSleepPreserved(cfg, s, p);
    PusherFanPreserved(cfg, s, p);
  }

  lemma ConsumerPreserved(cfg: Config, s: State, logs: bool)
    requires Inv(cfg, s) && ConsumerReady(s)
    ensures Inv(cfg, ConsumerStep(cfg, s, logs))
  {
    ConsumerMutexPreserved(cfg, s, logs);
    ConsumerQueuePreserved(cfg, s, logs);
    ConsumerFlowPreserved(cfg, s, logs);
    ConsumerSleepPreserved(cfg, s, logs);
    ConsumerFanPreserved(cfg, s, logs);
  }

  lemma StopperPreserved(cfg: Config, s: State, t: Tid)
    requires Inv(cfg, s) && StopperReady(cfg, s, t)
    ensures Inv(cfg, StopperStep(cfg, s, t))
  {
    StopperMutexPreserved(cfg, s, t);
    StopperQueuePreserved(cfg, s, t);
    StopperFlowPreserved(cfg, s, t);
    StopperSleepPreserved(cfg, s, t);
    StopperConsumerSleepPreserved(cfg, s, t);
    StopperWinnerPreserved(cfg, s, t);
    StopperFanPreserved(cfg, s, t);
  }

  lemma InvPreserved(cfg: Config, s: State, a: Action)
    requires Inv(cfg, s) && Enabled(cfg, s, a)
    ensures Inv(cfg, Next(cfg, s, a))
  {
    match a
    case CallPush(p, b) => PushCallPreserved(cfg, s, p, s.pushers[p].(pc := PEntry, batch := b));
    case CallStop(t) => StopCallPreserved(cfg, s, t, SExchange);
    case CallForceStop(t) => StopCallPreserved(cfg, s, t, FForce);
    case RunPusher(p) => PusherPreserved(cfg, s, p);
    case RunConsumer(logs) => ConsumerPreserved(cfg, s, logs);
    case RunStopper(t) => StopperPreserved(cfg, s, t);
    case RunTask(i) => TaskFanPreserved(cfg, s, i);
    case SpuriousPusher(p) => PushCallPreserved(cfg, s, p, s.pushers[p].(pc := PWoken));
    case SpuriousConsumer => ConsumerWakePreserved(cfg, s);
  }

  lemma InvInitially(cfg: Config)
    ensures Inv(cfg, Init(cfg))
  {
  }

  lemma {:induction false} InvAlong(cfg: Config, schedule: seq<Action>)
    ensures Exec(cfg, schedule).Some? ==> Inv(cfg, Exec(cfg, schedule).value)
  {
    if schedule == [] {
      InvInitially(cfg);
    } else {
      var before, a := Exec(cfg, schedule[..|schedule|-1]), schedule[|schedule|-1];
      InvAlong(cfg, schedule[..|schedule|-1]);
      if before.Some? && Enabled(cfg, before.value, a) {
        InvPreserved(cfg, before.value, a);
      }
    }
  }

  /** Every state any schedule leads to satisfies the invariant. */
  lemma InvReachable(cfg: Config, s: State)
    requires Reachable(cfg, s)
    ensures Inv(cfg, s)
  {
    var schedule :| Exec(cfg, schedule) == Some(s);
    InvAlong(cfg, schedule);
  }
}
