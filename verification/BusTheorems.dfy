/** What the bus promises, for every schedule of every set of threads. */
module BusTheorems {
  import opened Routing
  import opened Wrappers
  import opened Bus
  import opened BusInvariant

  // ----- order, loss, duplication ---------------------------------------------------

  /** Batches are dispatched in the order they were accepted: none is skipped,
      repeated or made up, forceStop or not. */
  lemma DispatchFollowsAcceptance(cfg: Config, s: State)
    requires Reachable(cfg, s)
    ensures s.dispatched <= s.accepted
    ensures !s.forceQuit ==> s.accepted == s.dispatched + s.local + s.queue
  {
    InvReachable(cfg, s);
    assert s.dispatched + (s.local + s.queue) == s.dispatched + s.local + s.queue;
  }

  /** push returned true exactly for the batches of this thread that entered
      the queue, in order; the one exception is a push that has enqueued and not
      yet returned. */
  lemma PushIsTruthful(cfg: Config, s: State, p: Tid)
    requires Reachable(cfg, s) && p in s.pushers
    ensures s.pushers[p].pc != PNotify ==> s.pushers[p].succeeded == ByThread(s.accepted, p)
    ensures s.pushers[p].pc == PNotify ==> s.pushers[p].succeeded + [s.pushers[p].batch] == ByThread(s.accepted, p)
  {
    InvReachable(cfg, s);
  }

  /** Without forceStop the consumer leaves only after every accepted batch has
      reached every writer whose route takes it, in order. */
  lemma DrainedAtExit(cfg: Config, s: State)
    requires Reachable(cfg, s) && s.consumer == CExited && !s.forceQuit
    ensures s.dispatched == s.accepted
    ensures |s.fan.writerLog| == |cfg.writers|
    ensures forall i :: 0 <= i < |cfg.writers| ==> s.fan.writerLog[i] == Delivered(cfg, i, s.accepted)
  {
    InvReachable(cfg, s);
    assert s.dispatched + ([] + []) == s.dispatched;
    forall i: nat | i < |cfg.writers| ensures s.fan.writerLog[i] == Delivered(cfg, i, s.accepted) {
      assert s.fan.writerLog[i] + [] == s.fan.writerLog[i];
    }
  }

  /** Once the consumer has left, nothing is accepted or dispatched any more. */
  lemma {:induction false} FrozenAfterExit(cfg: Config, before: seq<Action>, more: seq<Action>)
    requires Exec(cfg, before).Some? && Exec(cfg, before).value.consumer == CExited
    ensures Exec(cfg, before + more).Some? ==>
              var s, s' := Exec(cfg, before).value, Exec(cfg, before + more).value;
              s'.consumer == CExited && s'.accepted == s.accepted && s'.dispatched == s.dispatched
  {
    if more == [] {
      assert before + more == before;
    } else {
      var init, a := before + more[..|more|-1], more[|more|-1];
      assert (before + more)[..|before + more|-1] == init && (before + more)[|before + more|-1] == a;
      FrozenAfterExit(cfg, before, more[..|more|-1]);
      if Exec(cfg, before + more).Some? {
        InvAlong(cfg, init);
        FrozenStep(cfg, Exec(cfg, init).value, a);
      }
    }
  }

  lemma FrozenStep(cfg: Config, s: State, a: Action)
    requires Inv(cfg, s) && s.consumer == CExited && Enabled(cfg, s, a)
    ensures var s' := Next(cfg, s, a); s'.consumer == CExited && s'.accepted == s.accepted && s'.dispatched == s.dispatched
  {
    match a
    case RunPusher(p) => FrozenPusher(cfg, s, p);
    case _ =>
  }

  lemma FrozenPusher(cfg: Config, s: State, p: Tid)
    requires RoomInv(cfg.capacity, s.running, |s.queue|, true, s.pushers) && s.consumer == CExited && PusherReady(s, p)
    ensures var s' := PusherStep(cfg, s, p); s'.consumer == CExited && s'.accepted == s.accepted && s'.dispatched == s.dispatched
  {
    assert s.pushers[p].pc != PPushing;
    assert s.accepted + [] == s.accepted;
  }

  // ----- bounds ------------------------------------------------------------------------

  lemma QueueBounded(cfg: Config, s: State)
    requires Reachable(cfg, s)
    ensures |s.queue| <= cfg.capacity
    ensures |s.queue| + |s.local| <= 2 * cfg.capacity
  {
    InvReachable(cfg, s);
  }

  // ----- the fan-out ---------------------------------------------------------------------

  /** Per-writer refinement: whatever order the pool runs the tasks in, a writer
      has been given the dispatched batches its route takes, in order, except
      perhaps the one being dispatched right now. */
  lemma WriterSeesItsRoute(cfg: Config, s: State, i: nat)
    requires Reachable(cfg, s) && i < |cfg.writers|
    ensures |s.fan.writerLog| == |cfg.writers|
    ensures s.fan.writerLog[i] == Delivered(cfg, i, s.dispatched) ||
            (s.fan.writerLog[i] + [s.fan.current] == Delivered(cfg, i, s.dispatched) && (s.consumer.CSubmit? || s.consumer.CAwait?))
  {
    InvReachable(cfg, s);
    assert s.fan.writerLog[i] + (if Outstanding(cfg, s.fan, s.consumer, i) then [s.fan.current] else []) == Delivered(cfg, i, s.dispatched);
    assert s.fan.writerLog[i] + [] == s.fan.writerLog[i];
  }

  /** A delivered batch is a dispatched batch whose route takes the writer, and
      every such batch is delivered. */
  lemma {:induction false} DeliveredIsTheRoute(cfg: Config, i: nat, log: seq<Entry>, b: Batch)
    requires i < |cfg.writers|
    ensures multiset(Delivered(cfg, i, log))[b] ==
            if Takes(cfg, i, b) then multiset(BatchesOf(log))[b] else 0
  {
    if log != [] {
      DeliveredIsTheRoute(cfg, i, log[..|log|-1], b);
    }
  }

  function BatchesOf(log: seq<Entry>): seq<Batch> {
    if log == [] then [] else BatchesOf(log[..|log|-1]) + [log[|log|-1].batch]
  }

  /** With the table that was built from a list of routes, a writer takes a batch
      exactly when there are no routes or its first entry lists the reader, includes
      the source and does not exclude it, and when its payload test passes. */
  lemma TakenByFirstEntry(cfg: Config, routes: seq<RouteEntry>, i: nat, b: Batch)
    requires i < |cfg.writers| && (cfg.routes.allToAll <==> routes == []) && TableOf(routes, cfg.routes.table)
    ensures Takes(cfg, i, b) <==>
            cfg.writers[i].acceptsPayload(b.payload) &&
            (routes == [] ||
             exists e :: FirstEntry(routes, e, cfg.writers[i].name) &&
               var source := if b.payload.ConfigurationActivation? then b.payload.configurationName else b.payload.rootSourceName;
               && ("all" in routes[e].fromReaders || b.readerName in routes[e].fromReaders)
               && (routes[e].includePatterns == [] || exists p :: p in routes[e].includePatterns && cfg.glob(p, source))
               && !exists p :: p in routes[e].excludePatterns && cfg.glob(p, source))
  {
    AcceptsByFirstEntry(routes, cfg.routes, cfg.writers[i].name, b.readerName);
    SourceByFirstEntry(routes, cfg.routes, cfg.glob, cfg.writers[i].name, RootSource(b));
    OnlyFirstEntry(routes, cfg.writers[i].name);
  }

  // ----- no lost wakeup ----------------------------------------------------------------------

  /** Nobody sleeps on a condition variable with a true predicate unless some
      other thread is still going to notify that variable. */
  lemma NoLostWakeup(cfg: Config, s: State)
    requires Reachable(cfg, s)
    ensures s.consumer == CAsleep && (s.queue != [] || !s.running) ==>
              || (exists p :: p in s.pushers && s.pushers[p].pc == PNotify)
              || (exists t :: t in s.stoppers && OwesEmpty(s.stoppers[t]))
    ensures forall p :: p in s.pushers && s.pushers[p].pc == PAsleep && (|s.queue| < cfg.capacity || !s.running) ==>
              s.consumer == CNotify || exists t :: t in s.stoppers && OwesFull(s.stoppers[t])
  {
    InvReachable(cfg, s);
    StopOwesMore(s.stoppers);
  }

  // ----- deadlock freedom ----------------------------------------------------------------------

  /** Some thread is inside push, stop or forceStop. */
  ghost predicate CallInProgress(s: State) {
    || (exists p :: p in s.pushers && s.pushers[p].pc != PIdle)
    || (exists t :: t in s.stoppers && s.stoppers[t] != SIdle)
  }

  lemma OwnerCanProgress(cfg: Config, s: State)
    requires Inv(cfg, s) && s.mutex.Some?
    ensures CanProgress(cfg, s)
  {
    match s.mutex.value
    case PusherOwner(p) => assert Enabled(cfg, s, RunPusher(p));
    case ConsumerOwner => assert Enabled(cfg, s, RunConsumer(false));
    case StopperOwner(t) => assert Enabled(cfg, s, RunStopper(t));
  }

  lemma AwakeConsumerCanProgress(cfg: Config, s: State)
    requires Inv(cfg, s) && s.mutex.None? && s.consumer != CAsleep && s.consumer != CExited
    ensures CanProgress(cfg, s)
  {
    if ConsumerReady(s) {
      assert Enabled(cfg, s, RunConsumer(false));
    } else {
      var i := s.fan.indices[s.consumer.f];
      assert Enabled(cfg, s, RunTask(i));
    }
  }

  /** With room for one batch, a full queue keeps the consumer going, so a
      sleeping pusher is never the last thread alive. */
  lemma SleeperIsNotAlone(cfg: Config, s: State, p: Tid)
    requires Inv(cfg, s) && s.mutex.None? && cfg.capacity >= 1
    requires p in s.pushers && s.pushers[p].pc == PAsleep
    ensures CanProgress(cfg, s)
  {
    if s.consumer != CAsleep && s.consumer != CExited {
      AwakeConsumerCanProgress(cfg, s);
    } else if |s.queue| < cfg.capacity {
      var t :| t in s.stoppers && ClearOwesFull(s.stoppers[t]);
      assert Enabled(cfg, s, RunStopper(t));
    } else {
      var q :| q in s.pushers && s.pushers[q].pc == PNotify;
      assert Enabled(cfg, s, RunPusher(q));
    }
  }

  /** While the consumer sleeps although `running_` is false, some call of stop or
      forceStop has yet to notify it; with all readers quiet that call can go on. */
  lemma WakerCanProgress(cfg: Config, s: State)
    requires Inv(cfg, s) && s.mutex.None? && (forall p :: p in s.pushers ==> s.pushers[p].pc == PIdle)
    requires s.consumer == CAsleep && !s.running
    ensures CanProgress(cfg, s)
  {
    var u :| u in s.stoppers && OwesEmpty(s.stoppers[u]);
    assert Enabled(cfg, s, RunStopper(u));
  }

  lemma StopCanProgress(cfg: Config, s: State, t: Tid)
    requires Inv(cfg, s) && s.mutex.None? && (forall p :: p in s.pushers ==> s.pushers[p].pc == PIdle)
    requires t in s.stoppers && s.stoppers[t] != SIdle
    ensures CanProgress(cfg, s)
  {
    if StopperReady(cfg, s, t) {
      assert Enabled(cfg, s, RunStopper(t));
    } else if s.consumer != CAsleep && s.consumer != CExited {
      AwakeConsumerCanProgress(cfg, s);
    } else if s.stoppers[t] == SJoin {
      WakerCanProgress(cfg, s);
    } else {
      var u :| u in s.stoppers && WinnerBusy(s.stoppers[u]);
      if StopperReady(cfg, s, u) {
        assert Enabled(cfg, s, RunStopper(u));
      } else {
        WakerCanProgress(cfg, s);
      }
    }
  }

  /** With a capacity of at least one, no reachable state with a call in
      progress is stuck: not even while `stop`, which destroys the readers before
      it wakes anybody, waits for a reader thread that is blocked in push. */
  lemma NeverStuck(cfg: Config, s: State)
    requires Reachable(cfg, s) && cfg.capacity >= 1 && CallInProgress(s)
    ensures CanProgress(cfg, s)
  {
    InvReachable(cfg, s);
    if s.mutex.Some? {
      OwnerCanProgress(cfg, s);
    } else if p :| p in s.pushers && s.pushers[p].pc != PIdle {
      if s.pushers[p].pc == PAsleep {
        SleeperIsNotAlone(cfg, s, p);
      } else {
        assert Enabled(cfg, s, RunPusher(p));
      }
    } else {
      var t :| t in s.stoppers && s.stoppers[t] != SIdle;
      StopCanProgress(cfg, s, t);
    }
  }

  // ----- and with capacity zero ---------------------------------------------------------------------

  lemma ExecStep(cfg: Config, schedule: seq<Action>, a: Action)
    requires Exec(cfg, schedule).Some? && Enabled(cfg, Exec(cfg, schedule).value, a)
    ensures Exec(cfg, schedule + [a]) == Some(Next(cfg, Exec(cfg, schedule).value, a))
  {
    assert (schedule + [a])[..|schedule|] == schedule;
  }

  predicate OnlyPusher(cfg: Config, s: State, p: Tid, pc: PusherPc) {
    && p in s.pushers && s.pushers[p].pc == pc
    && (forall q :: q in s.pushers && q != p ==> s.pushers[q].pc == PIdle)
  }

  /** The pusher is on its way to sleep, and nothing else has happened. */
  ghost predicate Falling(cfg: Config, s: State, p: Tid, b: Batch, pc: PusherPc) {
    && s.pushers.Keys == cfg.pushers && OnlyPusher(cfg, s, p, pc) && s.pushers[p].batch == b
    && s == Init(cfg).(pushers := s.pushers, mutex := if pc == PTest || pc == PGoingToSleep then Some(PusherOwner(p)) else None)
  }

  lemma FallsFurther(cfg: Config, schedule: seq<Action>, s: State, p: Tid, b: Batch, pc: PusherPc)
    requires cfg.capacity == 0 && !Malformed(b) && pc in {PEntry, PLock, PTest, PGoingToSleep}
    requires Exec(cfg, schedule) == Some(s) && Falling(cfg, s, p, b, pc)
    ensures PusherReady(s, p) && Exec(cfg, schedule + [RunPusher(p)]) == Some(PusherStep(cfg, s, p))
    ensures Falling(cfg, PusherStep(cfg, s, p), p, b,
                    match pc case PEntry => PLock case PLock => PTest case PTest => PGoingToSleep case _ => PAsleep)
  {
    ExecStep(cfg, schedule, RunPusher(p));
  }

  /** A push that finds a queue of capacity zero goes to sleep. */
  lemma PusherFallsAsleep(cfg: Config, p: Tid, b: Batch) returns (schedule: seq<Action>, s: State)
    requires cfg.capacity == 0 && p in cfg.pushers && !Malformed(b)
    ensures Exec(cfg, schedule) == Some(s)
    ensures s == Init(cfg).(pushers := s.pushers) && OnlyPusher(cfg, s, p, PAsleep) && s.pushers.Keys == cfg.pushers
  {
    ExecStep(cfg, [], CallPush(p, b));
    schedule, s := [] + [CallPush(p, b)], Next(cfg, Init(cfg), CallPush(p, b));
    FallsFurther(cfg, schedule, s, p, b, PEntry);
    schedule, s := schedule + [RunPusher(p)], PusherStep(cfg, s, p);
    FallsFurther(cfg, schedule, s, p, b, PLock);
    schedule, s := schedule + [RunPusher(p)], PusherStep(cfg, s, p);
    FallsFurther(cfg, schedule, s, p, b, PTest);
    schedule, s := schedule + [RunPusher(p)], PusherStep(cfg, s, p);
    FallsFurther(cfg, schedule, s, p, b, PGoingToSleep);
    schedule, s := schedule + [RunPusher(p)], PusherStep(cfg, s, p);
  }

  /** The consumer finds nothing to do and goes to sleep as well. */
  lemma ConsumerFallsAsleep(cfg: Config, p: Tid, schedule0: seq<Action>, s0: State) returns (schedule: seq<Action>, s: State)
    requires Exec(cfg, schedule0) == Some(s0) && s0 == Init(cfg).(pushers := s0.pushers)
    ensures Exec(cfg, schedule) == Some(s) && s == s0.(consumer := CAsleep)
  {
    schedule, s := schedule0, s0;
    var pcs := [CLock, CTest, CGoingToSleep, CAsleep];
    for k := 0 to 3
      invariant Exec(cfg, schedule) == Some(s)
      invariant s == s0.(consumer := pcs[k], mutex := if k == 0 || k == 3 then None else Some(ConsumerOwner))
    {
      ExecStep(cfg, schedule, RunConsumer(false));
      schedule, s := schedule + [RunConsumer(false)], ConsumerStep(cfg, s, false);
    }
  }

  /** A first call of stop wins the exchange. */
  lemma StopWins(cfg: Config, t: Tid, schedule0: seq<Action>, s0: State) returns (schedule: seq<Action>, s: State)
    requires Exec(cfg, schedule0) == Some(s0) && t in s0.stoppers && s0.stoppers[t] == SIdle && !s0.stopping
    ensures Exec(cfg, schedule) == Some(s)
    ensures s == s0.(stopping := true, stoppers := s0.stoppers[t := SStore])
  {
    ExecStep(cfg, schedule0, CallStop(t));
    var s1 := Next(cfg, s0, CallStop(t));
    ExecStep(cfg, schedule0 + [CallStop(t)], RunStopper(t));
    schedule, s := schedule0 + [CallStop(t)] + [RunStopper(t)], Next(cfg, s1, RunStopper(t));
    assert s.stoppers == s0.stoppers[t := SStore];
  }

  /** stop stores `running_ = false` and then waits for the reader to go. */
  lemma StopWaitsForReader(cfg: Config, t: Tid, schedule0: seq<Action>, s0: State) returns (schedule: seq<Action>, s: State)
    requires Exec(cfg, schedule0) == Some(s0) && t in s0.stoppers && s0.stoppers[t] == SIdle && !s0.stopping
    ensures Exec(cfg, schedule) == Some(s)
    ensures s == s0.(running := false, stopping := true, stoppers := s0.stoppers[t := SClearReaders])
  {
    var schedule1, s1 := StopWins(cfg, t, schedule0, s0);
    ExecStep(cfg, schedule1, RunStopper(t));
    schedule, s := schedule1 + [RunStopper(t)], Next(cfg, s1, RunStopper(t));
    assert s.stoppers == s0.stoppers[t := SClearReaders];
  }

  /** With capacity zero there is a schedule that ends in a deadlock: a reader
      thread asleep in push, the consumer asleep, and stop waiting for the reader. */
  lemma CapacityZeroDeadlocks(cfg: Config, p: Tid, t: Tid) returns (schedule: seq<Action>, s: State)
    requires cfg.capacity == 0 && p in cfg.pushers && p in cfg.readerThreads && t in cfg.stoppers
    ensures Exec(cfg, schedule) == Some(s) && CallInProgress(s) && !CanProgress(cfg, s)
    ensures s.pushers.Keys == cfg.pushers && p in s.pushers && s.pushers[p].pc == PAsleep && s.consumer == CAsleep
  {
    var schedule1, s1 := PusherFallsAsleep(cfg, p, Batch("", SourceMetadata("source", 0)));
    var schedule2, s2 := ConsumerFallsAsleep(cfg, p, schedule1, s1);
    schedule, s := StopWaitsForReader(cfg, t, schedule2, s2);
    NothingMoves(cfg, s, p, t);
  }

  /** A sleeping reader thread, a sleeping consumer and a stop that waits for the
      reader: no call can take a step. */
  lemma NothingMoves(cfg: Config, s: State, p: Tid, t: Tid)
    requires OnlyPusher(cfg, s, p, PAsleep) && p in cfg.readerThreads && s.consumer == CAsleep && s.fan.pending == {}
    requires t in s.stoppers && s.stoppers[t] == SClearReaders && forall u :: u in s.stoppers && u != t ==> s.stoppers[u] == SIdle
    ensures CallInProgress(s) && !CanProgress(cfg, s)
  {
    forall a | Productive(a) ensures !Enabled(cfg, s, a) {
      match a
      case RunStopper(u) => assert !ReadersQuiet(cfg, s);
      case _ =>
    }
  }

  /** The bus is free of deadlock exactly when its queue has room for a batch. */
  lemma DeadlockFreeIffRoom(cfg: Config, p: Tid, t: Tid)
    requires p in cfg.pushers && p in cfg.readerThreads && t in cfg.stoppers
    ensures (forall s :: Reachable(cfg, s) && CallInProgress(s) ==> CanProgress(cfg, s)) <==> cfg.capacity >= 1
  {
    if cfg.capacity >= 1 {
      forall s | Reachable(cfg, s) && CallInProgress(s) ensures CanProgress(cfg, s) {
        NeverStuck(cfg, s);
      }
    } else {
      var schedule, s := CapacityZeroDeadlocks(cfg, p, t);
      assert Reachable(cfg, s);
    }
  }
}
