/** The controller bus as a step machine (src/controller/MLDPPVXSController.cpp).

    Threads are pushers (some of them owned by a reader), one consumer, the
    tasks of the fan-out pool, and threads that call `stop` or `forceStop`.
    One step is one access to shared memory, or one stretch of code run under
    `queue_mutex_` that touches nothing outside its protection.  A wait on a
    condition variable is: test the predicate, go to sleep (releasing the
    mutex), be woken, take the mutex again, test again. */
module Bus {
  import opened Routing
  import opened Wrappers

  type Tid = nat

  /** A writer: its name and the payloads its `acceptsPayload` lets through. */
  datatype Writer = Writer(name: string, acceptsPayload: Payload -> bool)

  /** What is fixed once `start` has returned. `readerThreads` are the pushers
      that belong to a reader: destroying the reader waits for them. */
  datatype Config = Config(
    capacity: nat, writers: seq<Writer>, routes: RouteTable, glob: Glob,
    pushers: set<Tid>, readerThreads: set<Tid>, stoppers: set<Tid>)

  /** The three tests of the dispatch loop. */
  predicate Takes(cfg: Config, i: nat, b: Batch)
    requires i < |cfg.writers|
  {
    && Accepts(cfg.routes, cfg.writers[i].name, b.readerName)
    && AcceptsSource(cfg.routes, cfg.glob, cfg.writers[i].name, RootSource(b))
    && cfg.writers[i].acceptsPayload(b.payload)
  }

  // ----- program counters --------------------------------------------------

  datatype PusherPc =
    | PIdle          // outside push
    | PEntry         // about to load running_ and look at the batch
    | PLock          // about to take queue_mutex_
    | PTest          // holds the mutex, about to evaluate the wait predicate
    | PGoingToSleep  // holds the mutex, predicate was false
    | PAsleep        // waiting on queue_not_full_
    | PWoken         // about to take the mutex again
    | PCheck         // holds the mutex, about to load running_ again
    | PPushing       // holds the mutex, about to push_back
    | PNotify        // released, about to notify queue_not_empty_

  datatype ConsumerPc =
    | CLock
    | CTest
    | CGoingToSleep
    | CAsleep
    | CWoken
    | CDecide             // holds the mutex, predicate was true
    | CNotify             // swapped and released, about to notify queue_not_full_
    | CLoop               // about to look at the next batch of `local`
    | CSubmit(i: nat)     // dispatchToWriters, submitting for writer i
    | CAwait(f: nat)      // dispatchToWriters, waiting for future f
    | CLogLock            // about to take the mutex to read the depth
    | CLogHeld
    | CExited

  datatype StopperPc =
    | SIdle
    | SExchange      // stop: about to exchange stopping_
    | SSpin          // lost the exchange: waits for stopped_
    | SStore         // won: about to store running_ = false
    | SClearReaders  // about to destroy the readers
    | SLock          // about to take the mutex (to log the depth)
    | SHeld
    | SNotifyFull
    | SNotifyEmpty
    | SJoin          // about to join the consumer
    | SFinish        // stopping processors and writers, then stopped_ = true
    | FForce         // forceStop: about to store force_quit_
    | FStore         // about to store running_ = false
    | FLock
    | FClear         // holds the mutex, about to clear the queue
    | FNotifyFull
    | FNotifyEmpty

  datatype Owner = PusherOwner(p: Tid) | ConsumerOwner | StopperOwner(t: Tid)

  /** A queue element remembers who pushed it (ghost information). */
  datatype Entry = Entry(pusher: Tid, batch: Batch)

  /** `succeeded` lists the batches for which push returned true to this thread. */
  datatype Pusher = Pusher(pc: PusherPc, batch: Batch, succeeded: seq<Batch>)

  /** The dispatch in progress: its batch, the writers it was submitted for
      (in order), those whose task has not run yet, and what each writer was
      given so far. */
  datatype FanOut = FanOut(current: Batch, indices: seq<nat>, pending: set<nat>, writerLog: seq<seq<Batch>>)

  datatype State = State(
    running: bool, stopping: bool, forceQuit: bool, stopped: bool,
    readersGone: bool,
    mutex: Option<Owner>,
    queue: seq<Entry>,
    pushers: map<Tid, Pusher>,
    consumer: ConsumerPc,
    local: seq<Entry>,            // the swapped-out batches the loop has not reached
    fan: FanOut,
    stoppers: map<Tid, StopperPc>,
    accepted: seq<Entry>,         // every push_back, in order
    dispatched: seq<Entry>)       // every dispatchToWriters, in order

  const NO_BATCH := Batch("", SourceMetadata("", 0))

  function Init(cfg: Config): State {
    State(true, false, false, false, false, None, [],
          map p | p in cfg.pushers :: Pusher(PIdle, NO_BATCH, []),
          CLock, [], FanOut(NO_BATCH, [], {}, seq(|cfg.writers|, _ => [])),
          map t | t in cfg.stoppers :: SIdle, [], [])
  }

  // ----- condition variables ----------------------------------------------

  function WakePushers(pushers: map<Tid, Pusher>): map<Tid, Pusher> {
    map p | p in pushers :: if pushers[p].pc == PAsleep then pushers[p].(pc := PWoken) else pushers[p]
  }

  function WakeConsumer(c: ConsumerPc): ConsumerPc {
    if c == CAsleep then CWoken else c
  }

  // ----- one step of a pusher ----------------------------------------------

  predicate PusherReady(s: State, p: Tid) {
    p in s.pushers &&
    match s.pushers[p].pc
    case PIdle | PAsleep => false
    case PLock | PWoken => s.mutex.None?
    case _ => true
  }

  /** Where control goes; `room` says that the queue is below capacity. */
  function PusherGoes(pc: PusherPc, running: bool, room: bool, malformed: bool): PusherPc {
    match pc
    case PEntry => if running && !malformed then PLock else PIdle
    case PLock | PWoken => PTest
    case PTest => if room || !running then PCheck else PGoingToSleep
    case PGoingToSleep => PAsleep
    case PCheck => if running then PPushing else PIdle
    case PPushing => PNotify
    case PNotify => PIdle
    case PIdle | PAsleep => pc
  }

  function PusherMutex(pc: PusherPc, running: bool, mutex: Option<Owner>, p: Tid): Option<Owner> {
    if pc.PLock? || pc.PWoken? then Some(PusherOwner(p))
    else if pc.PGoingToSleep? || pc.PPushing? || (pc.PCheck? && !running) then None
    else mutex
  }

  function PusherStep(cfg: Config, s: State, p: Tid): State
    requires PusherReady(s, p)
  {
    var me := s.pushers[p];
    var pushed := if me.pc == PPushing then [Entry(p, me.batch)] else [];
    var returned := if me.pc == PNotify then [me.batch] else [];
    var pc := PusherGoes(me.pc, s.running, |s.queue| < cfg.capacity, Malformed(me.batch));
    s.(mutex := PusherMutex(me.pc, s.running, s.mutex, p),
       queue := s.queue + pushed,
       accepted := s.accepted + pushed,
       consumer := if me.pc == PNotify then WakeConsumer(s.consumer) else s.consumer,
       pushers := s.pushers[p := Pusher(pc, me.batch, me.succeeded + returned)])
  }

  // ----- one step of the consumer -------------------------------------------

  predicate ConsumerReady(s: State) {
    match s.consumer
    case CAsleep | CExited => false
    case CLock | CWoken | CLogLock => s.mutex.None?
    case CAwait(f) => f < |s.fan.indices| ==> s.fan.indices[f] !in s.fan.pending
    case _ => true
  }

  /** Where control goes; `logs` resolves the clock test in front of the depth message. */
  function ConsumerGoes(cfg: Config, s: State, logs: bool): ConsumerPc {
    match s.consumer
    case CLock | CWoken => CTest
    case CTest => if s.queue != [] || !s.running then CDecide else CGoingToSleep
    case CGoingToSleep => CAsleep
    case CDecide => if Drained(s) then CExited else CNotify
    case CNotify => CLoop
    case CLoop => if Dispatches(s) then CSubmit(0) else if logs then CLogLock else CLock
    case CSubmit(i) => if i < |cfg.writers| then CSubmit(i + 1) else CAwait(0)
    case CAwait(f) => if f < |s.fan.indices| then CAwait(f + 1) else CLoop
    case CLogLock => CLogHeld
    case CLogHeld => CLock
    case CAsleep | CExited => s.consumer
  }

  /** The break of the outer loop. */
  predicate Drained(s: State) { !s.running && s.queue == [] }

  /** The inner loop has a batch and is not told to abort. */
  predicate Dispatches(s: State) { s.local != [] && !s.forceQuit }

  function ConsumerMutex(pc: ConsumerPc, mutex: Option<Owner>): Option<Owner> {
    if pc.CLock? || pc.CWoken? || pc.CLogLock? then Some(ConsumerOwner)
    else if pc.CGoingToSleep? || pc.CDecide? || pc.CLogHeld? then None
    else mutex
  }

  function ConsumerFan(cfg: Config, s: State): FanOut {
    if s.consumer == CLoop && Dispatches(s) then s.fan.(current := s.local[0].batch, indices := [])
    else if s.consumer.CSubmit? && s.consumer.i < |cfg.writers| && Takes(cfg, s.consumer.i, s.fan.current) then
      s.fan.(indices := s.fan.indices + [s.consumer.i], pending := s.fan.pending + {s.consumer.i})
    else s.fan
  }

  function ConsumerStep(cfg: Config, s: State, logs: bool): State
    requires ConsumerReady(s)
  {
    var swaps := s.consumer == CDecide && !Drained(s);
    var dispatches := s.consumer == CLoop && Dispatches(s);
    s.(mutex := ConsumerMutex(s.consumer, s.mutex),
       queue := if swaps then [] else s.queue,
       local := if swaps then s.queue
                else if dispatches then s.local[1..]
                else if s.consumer == CLoop then []
                else s.local,
       dispatched := s.dispatched + (if dispatches then [s.local[0]] else []),
       fan := ConsumerFan(cfg, s),
       pushers := if s.consumer == CNotify then WakePushers(s.pushers) else s.pushers,
       consumer := ConsumerGoes(cfg, s, logs))
  }

  // ----- one step of a pool task: writers_[i]->push(batch) ------------------

  predicate TaskReady(s: State, i: nat) { i in s.fan.pending && i < |s.fan.writerLog| }

  function TaskStep(s: State, i: nat): State
    requires TaskReady(s, i)
  {
    s.(fan := s.fan.(pending := s.fan.pending - {i},
                     writerLog := s.fan.writerLog[i := s.fan.writerLog[i] + [s.fan.current]]))
  }

  // ----- one step of stop or forceStop ---------------------------------------

  predicate ReadersQuiet(cfg: Config, s: State) {
    forall p :: p in cfg.readerThreads && p in s.pushers ==> s.pushers[p].pc == PIdle
  }

  predicate StopperReady(cfg: Config, s: State, t: Tid) {
    t in s.stoppers &&
    match s.stoppers[t]
    case SIdle => false
    case SSpin => s.stopped
    case SClearReaders => ReadersQuiet(cfg, s)
    case SLock | FLock => s.mutex.None?
    case SJoin => s.consumer == CExited
    case _ => true
  }

  function StopperGoes(pc: StopperPc, stopping: bool): StopperPc {
    match pc
    case SExchange => if stopping then SSpin else SStore
    case SStore => SClearReaders
    case SClearReaders => SLock
    case SLock => SHeld
    case SHeld => SNotifyFull
    case SNotifyFull => SNotifyEmpty
    case SNotifyEmpty => SJoin
    case SJoin => SFinish
    case FForce => FStore
    case FStore => FLock
    case FLock => FClear
    case FClear => FNotifyFull
    case FNotifyFull => FNotifyEmpty
    case SIdle | SSpin | SFinish | FNotifyEmpty => SIdle
  }

  function StopperMutex(pc: StopperPc, mutex: Option<Owner>, t: Tid): Option<Owner> {
    if pc.SLock? || pc.FLock? then Some(StopperOwner(t))
    else if pc.SHeld? || pc.FClear? then None
    else mutex
  }

  function StopperStep(cfg: Config, s: State, t: Tid): State
    requires StopperReady(cfg, s, t)
  {
    var pc := s.stoppers[t];
    s.(running := s.running && !pc.SStore? && !pc.FStore?,
       stopping := s.stopping || pc.SExchange?,
       forceQuit := s.forceQuit || pc.FForce?,
       stopped := s.stopped || pc.SFinish?,
       readersGone := s.readersGone || pc.SClearReaders?,
       mutex := StopperMutex(pc, s.mutex, t),
       queue := if pc.FClear? then [] else s.queue,
       pushers := if pc.SNotifyFull? || pc.FNotifyFull? then WakePushers(s.pushers) else s.pushers,
       consumer := if pc.SNotifyEmpty? || pc.FNotifyEmpty? then WakeConsumer(s.consumer) else s.consumer,
       stoppers := s.stoppers[t := StopperGoes(pc, s.stopping)])
  }

  // ----- the machine ---------------------------------------------------------

  datatype Action =
    | CallPush(p: Tid, b: Batch)
    | CallStop(t: Tid)
    | CallForceStop(t: Tid)
    | RunPusher(p: Tid)
    | RunConsumer(logs: bool)
    | RunStopper(t: Tid)
    | RunTask(i: nat)
    | SpuriousPusher(p: Tid)
    | SpuriousConsumer

  predicate Enabled(cfg: Config, s: State, a: Action) {
    match a
    case CallPush(p, b) => p in s.pushers && s.pushers[p].pc == PIdle && !(p in cfg.readerThreads && s.readersGone)
    case CallStop(t) => t in s.stoppers && s.stoppers[t] == SIdle
    case CallForceStop(t) => t in s.stoppers && s.stoppers[t] == SIdle
    case RunPusher(p) => PusherReady(s, p)
    case RunConsumer(_) => ConsumerReady(s)
    case RunStopper(t) => StopperReady(cfg, s, t)
    case RunTask(i) => TaskReady(s, i)
    case SpuriousPusher(p) => p in s.pushers && s.pushers[p].pc == PAsleep
    case SpuriousConsumer => s.consumer == CAsleep
  }

  function Next(cfg: Config, s: State, a: Action): State
    requires Enabled(cfg, s, a)
  {
    match a
    case CallPush(p, b) => s.(pushers := s.pushers[p := s.pushers[p].(pc := PEntry, batch := b)])
    case CallStop(t) => s.(stoppers := s.stoppers[t := SExchange])
    case CallForceStop(t) => s.(stoppers := s.stoppers[t := FForce])
    case RunPusher(p) => PusherStep(cfg, s, p)
    case RunConsumer(logs) => ConsumerStep(cfg, s, logs)
    case RunStopper(t) => StopperStep(cfg, s, t)
    case RunTask(i) => TaskStep(s, i)
    case SpuriousPusher(p) => s.(pushers := s.pushers[p := s.pushers[p].(pc := PWoken)])
    case SpuriousConsumer => s.(consumer := CWoken)
  }

  /** The state after a schedule, if every action of it was enabled in turn. */
  function Exec(cfg: Config, schedule: seq<Action>): Option<State> {
    if schedule == [] then Some(Init(cfg))
    else
      var before := Exec(cfg, schedule[..|schedule|-1]);
      var a := schedule[|schedule|-1];
      if before.Some? && Enabled(cfg, before.value, a) then Some(Next(cfg, before.value, a)) else None
  }

  ghost predicate Reachable(cfg: Config, s: State) {
    exists schedule :: Exec(cfg, schedule) == Some(s)
  }

  /** Steps a started call takes by itself: no new calls, no spurious wakeups. */
  predicate Productive(a: Action) {
    a.RunPusher? || a.RunConsumer? || a.RunStopper? || a.RunTask?
  }

  ghost predicate CanProgress(cfg: Config, s: State) {
    exists a :: Productive(a) && Enabled(cfg, s, a)
  }
}
