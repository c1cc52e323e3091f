/** Every call causes only so many steps, running or shutting down; together with
    the absence of deadlock this means that push and stop return, whatever the
    scheduler does. */
module BusTermination {
  import opened Sequences
  import opened Bus
  import opened BusInvariant
  import opened BusTheorems

  // ----- sums over finite maps --------------------------------------------------

  ghost function Total(weights: map<Tid, nat>): nat
    decreases |weights|
  {
    if weights == map[] then 0
    else
      var k :| k in weights;
      assert |weights - {k}| < |weights| by { assert (weights - {k}).Keys == weights.Keys - {k}; }
      weights[k] + Total(weights - {k})
  }

  lemma {:induction false} TotalSplit(weights: map<Tid, nat>, k: Tid)
    requires k in weights
    ensures Total(weights) == weights[k] + Total(weights - {k})
    decreases |weights|
  {
    var j :| j in weights && Total(weights) == weights[j] + Total(weights - {j});
    if j != k {
      assert (weights - {j}).Keys == weights.Keys - {j};
      TotalSplit(weights - {j}, k);
      assert (weights - {k}).Keys == weights.Keys - {k};
      TotalSplit(weights - {k}, j);
      assert weights - {j} - {k} == weights - {k} - {j};
    }
  }

  lemma TotalUpdate(weights: map<Tid, nat>, k: Tid, w: nat)
    requires k in weights
    ensures Total(weights[k := w]) + weights[k] == Total(weights) + w
  {
    TotalSplit(weights, k);
    TotalSplit(weights[k := w], k);
    assert weights[k := w] - {k} == weights - {k};
  }

  lemma {:induction false} TotalMonotone(small: map<Tid, nat>, large: map<Tid, nat>)
    requires small.Keys == large.Keys && forall k :: k in small ==> small[k] <= large[k]
    ensures Total(small) <= Total(large)
    decreases |small|
  {
    if small != map[] {
      var k :| k in small;
      TotalSplit(small, k);
      TotalSplit(large, k);
      assert (small - {k}).Keys == small.Keys - {k};
      TotalMonotone(small - {k}, large - {k});
    }
  }

  lemma {:induction false} TotalRises(small: map<Tid, nat>, large: map<Tid, nat>, rise: nat)
    requires small.Keys == large.Keys && forall k :: k in small ==> large[k] <= small[k] + rise
    ensures Total(large) <= Total(small) + Times(|small|, rise)
    decreases |small|
  {
    if small == map[] {
      assert large == map[];
    } else {
      var k :| k in small;
      TotalSplit(small, k);
      TotalSplit(large, k);
      assert (small - {k}).Keys == small.Keys - {k};
      TotalRises(small - {k}, large - {k}, rise);
    }
  }

  function Times(n: nat, cost: nat): nat { if n == 0 then 0 else cost + Times(n - 1, cost) }

  lemma {:induction false} TimesLess(n: nat, small: nat, large: nat)
    requires small <= large
    ensures Times(n, small) + Times(n, large - small) == Times(n, large)
    ensures n > 0 ==> Times(n, large - small) >= large - small
  {
    if n > 0 { TimesLess(n - 1, small, large); }
  }

  // ----- the measure -------------------------------------------------------------

  /** The most that a notification of all pushers costs. */
  function WakeAll(pushers: nat): nat { Times(pushers, 3) }

  /** Cost of a batch in `local`, and in the queue. */
  function LocalCost(writers: nat): nat { 3 * writers + 3 }
  function QueueCost(writers: nat, pushers: nat): nat { 3 * writers + 10 + WakeAll(pushers) }

  /** `batch` is the cost of a batch in the queue. */
  function PusherCost(batch: nat, pc: PusherPc): nat {
    match pc
    case PIdle => 0
    case PNotify => 4
    case PPushing | PAsleep => batch + 5
    case PCheck | PGoingToSleep => batch + 6
    case PTest => batch + 7
    case PLock | PWoken => batch + 8
    case PEntry => batch + 9
  }

  /** `wake` is the cost of a notification of all pushers. */
  function StopperCost(wake: nat, pc: StopperPc): nat {
    match pc
    case SIdle => 0
    case SSpin | SFinish => 1
    case SJoin => 2
    case FNotifyEmpty => 4
    case FNotifyFull => wake + 5
    case SNotifyEmpty => 6
    case FClear => wake + 6
    case FLock | SNotifyFull => wake + 7
    case FStore | SHeld => wake + 8
    case FForce | SLock => wake + 9
    case SClearReaders => wake + 10
    case SStore => wake + 11
    case SExchange => wake + 12
  }

  function ConsumerCost(wake: nat, writers: nat, c: ConsumerPc, indices: nat): int {
    match c
    case CExited | CAsleep => 0
    case CDecide | CGoingToSleep => 1
    case CTest => 2
    case CLock | CWoken => 3
    case CLogHeld => 4
    case CLogLock => 5
    case CLoop => 6
    case CNotify => 7 + wake
    case CAwait(f) => 7 + indices - f
    case CSubmit(i) => 8 + indices + 3 * (writers - i)
  }

  function PusherCosts(batch: nat, pushers: map<Tid, Pusher>): map<Tid, nat> {
    map p | p in pushers :: PusherCost(batch, pushers[p].pc)
  }

  function StopperCosts(wake: nat, stoppers: map<Tid, StopperPc>): map<Tid, nat> {
    map t | t in stoppers :: StopperCost(wake, stoppers[t])
  }

  function ConsumerPart(wake: nat, writers: nat, c: ConsumerPc, fan: FanOut, local: seq<Entry>): int {
    ConsumerCost(wake, writers, c, |fan.indices|) + |fan.pending| + Times(|local|, LocalCost(writers))
  }

  ghost function Cost(batch: nat, wake: nat, writers: nat, s: State): int {
    Total(PusherCosts(batch, s.pushers)) + Total(StopperCosts(wake, s.stoppers)) +
    ConsumerPart(wake, writers, s.consumer, s.fan, s.local) + Times(|s.queue|, batch)
  }

  /** A bound on the steps that the calls in progress can still take. */
  ghost function Measure(cfg: Config, s: State): int {
    Cost(QueueCost(|cfg.writers|, |s.pushers|), WakeAll(|s.pushers|), |cfg.writers|, s)
  }

  lemma MeasureIsNatural(cfg: Config, s: State)
    requires BarrierInv(|cfg.writers|, s.fan, s.consumer)
    ensures Measure(cfg, s) >= 0
  {
  }

  // ----- the consumer swaps only a filled queue --------------------------------------

  ghost predicate DecideInv(running: bool, queue: seq<Entry>, c: ConsumerPc) {
    c == CDecide ==> queue != [] || !running
  }

  lemma DecidePreserved(cfg: Config, s: State, a: Action)
    requires ConsumerExcludes(s.mutex, s.consumer) && StoppersExclude(s.mutex, s.stoppers)
    requires Enabled(cfg, s, a) && DecideInv(s.running, s.queue, s.consumer)
    ensures var s' := Next(cfg, s, a); DecideInv(s'.running, s'.queue, s'.consumer)
  {
    match a
    case RunPusher(p) => assert PusherStep(cfg, s, p).running == s.running;
    case RunConsumer(logs) => assert ConsumerStep(cfg, s, logs).running == s.running;
    case RunStopper(t) => assert s.consumer == CDecide ==> s.stoppers[t] != FClear;
    case _ =>
  }

  lemma PushersStay(cfg: Config, s: State, a: Action)
    requires Enabled(cfg, s, a)
    ensures Next(cfg, s, a).pushers.Keys == s.pushers.Keys && |Next(cfg, s, a).pushers| == |s.pushers|
  {
    match a
    case CallPush(p, _) => assert Next(cfg, s, a).pushers.Keys == s.pushers.Keys;
    case RunPusher(p) => assert PusherStep(cfg, s, p).pushers.Keys == s.pushers.Keys;
    case RunConsumer(logs) => assert ConsumerStep(cfg, s, logs).pushers.Keys == s.pushers.Keys;
    case RunStopper(t) => assert StopperStep(cfg, s, t).pushers.Keys == s.pushers.Keys;
    case SpuriousPusher(p) => assert Next(cfg, s, a).pushers.Keys == s.pushers.Keys;
    case _ =>
    SameSize(Next(cfg, s, a).pushers, s.pushers);
  }

  lemma SameSize(a: map<Tid, Pusher>, b: map<Tid, Pusher>)
    requires a.Keys == b.Keys
    ensures |a| == |b|
  {
    assert |a| == |a.Keys| && |b| == |b.Keys|;
  }

  // ----- every step of a started call makes it smaller --------------------------------

  lemma PusherCostsUpdate(batch: nat, pushers: map<Tid, Pusher>, p: Tid, me: Pusher)
    requires p in pushers
    ensures Total(PusherCosts(batch, pushers[p := me])) + PusherCost(batch, pushers[p].pc) ==
            Total(PusherCosts(batch, pushers)) + PusherCost(batch, me.pc)
  {
    TotalUpdate(PusherCosts(batch, pushers), p, PusherCost(batch, me.pc));
    assert PusherCosts(batch, pushers[p := me]) == PusherCosts(batch, pushers)[p := PusherCost(batch, me.pc)];
  }

  lemma WakingCosts(batch: nat, pushers: map<Tid, Pusher>)
    ensures Total(PusherCosts(batch, WakePushers(pushers))) <= Total(PusherCosts(batch, pushers)) + WakeAll(|pushers|)
  {
    assert PusherCosts(batch, pushers).Keys == pushers.Keys;
    TotalRises(PusherCosts(batch, pushers), PusherCosts(batch, WakePushers(pushers)), 3);
  }

  lemma PusherDecreases(cfg: Config, batch: nat, wake: nat, writers: nat, s: State, p: Tid)
    requires PusherReady(s, p)
    ensures Cost(batch, wake, writers, PusherStep(cfg, s, p)) < Cost(batch, wake, writers, s)
  {
    PusherCostsUpdate(batch, s.pushers, p, PusherStep(cfg, s, p).pushers[p]);
  }

  lemma SwapDecreases(cfg: Config, s: State, logs: bool, wake: nat)
    requires s.consumer == CDecide && ExitInv(s.running, s.queue, s.consumer, s.local) && DecideInv(s.running, s.queue, s.consumer)
    ensures var batch := 3 * |cfg.writers| + 10 + wake;
            Cost(batch, wake, |cfg.writers|, ConsumerStep(cfg, s, logs)) < Cost(batch, wake, |cfg.writers|, s)
  {
    TimesLess(|s.queue|, LocalCost(|cfg.writers|), 3 * |cfg.writers| + 10 + wake);
  }

  lemma ConsumerPartDecreases(cfg: Config, s: State, logs: bool, wake: nat)
    requires ConsumerReady(s) && BarrierInv(|cfg.writers|, s.fan, s.consumer) && s.consumer != CDecide
    ensures var s' := ConsumerStep(cfg, s, logs);
            ConsumerPart(wake, |cfg.writers|, s'.consumer, s'.fan, s'.local) + (if s.consumer == CNotify then wake else 0)
            < ConsumerPart(wake, |cfg.writers|, s.consumer, s.fan, s.local)
  {
  }

  lemma ConsumerDecreases(cfg: Config, s: State, logs: bool, batch: nat)
    requires ConsumerReady(s) && BarrierInv(|cfg.writers|, s.fan, s.consumer) && s.consumer != CDecide
    ensures var wake := WakeAll(|s.pushers|);
            Cost(batch, wake, |cfg.writers|, ConsumerStep(cfg, s, logs)) < Cost(batch, wake, |cfg.writers|, s)
  {
    ConsumerPartDecreases(cfg, s, logs, WakeAll(|s.pushers|));
    WakingCosts(batch, s.pushers);
  }

  lemma StopperCostsDecrease(wake: nat, stoppers: map<Tid, StopperPc>, t: Tid, stopping: bool)
    requires t in stoppers && stoppers[t] != SIdle
    ensures var pc := stoppers[t];
            Total(StopperCosts(wake, stoppers[t := StopperGoes(pc, stopping)])) + (if pc.SNotifyFull? || pc.FNotifyFull? then wake else 0) +
            (if pc.SNotifyEmpty? || pc.FNotifyEmpty? then 3 else 0) < Total(StopperCosts(wake, stoppers))
  {
    var pc' := StopperGoes(stoppers[t], stopping);
    TotalUpdate(StopperCosts(wake, stoppers), t, StopperCost(wake, pc'));
    assert StopperCosts(wake, stoppers[t := pc']) == StopperCosts(wake, stoppers)[t := StopperCost(wake, pc')];
  }

  lemma StopperDecreases(cfg: Config, s: State, t: Tid, batch: nat, writers: nat)
    requires StopperReady(cfg, s, t)
    ensures var wake := WakeAll(|s.pushers|);
            Cost(batch, wake, writers, StopperStep(cfg, s, t)) < Cost(batch, wake, writers, s)
  {
    StopperCostsDecrease(WakeAll(|s.pushers|), s.stoppers, t, s.stopping);
    WakingCosts(batch, s.pushers);
  }

  lemma StepDecreases(cfg: Config, s: State, a: Action)
    requires BarrierInv(|cfg.writers|, s.fan, s.consumer) && ExitInv(s.running, s.queue, s.consumer, s.local)
    requires DecideInv(s.running, s.queue, s.consumer) && Productive(a) && Enabled(cfg, s, a)
    ensures Measure(cfg, Next(cfg, s, a)) < Measure(cfg, s)
  {
    PushersStay(cfg, s, a);
    CostDecreases(cfg, s, a, QueueCost(|cfg.writers|, |s.pushers|), WakeAll(|s.pushers|));
  }

  lemma CostDecreases(cfg: Config, s: State, a: Action, batch: nat, wake: nat)
    requires wake == WakeAll(|s.pushers|) && batch == QueueCost(|cfg.writers|, |s.pushers|)
    requires BarrierInv(|cfg.writers|, s.fan, s.consumer) && ExitInv(s.running, s.queue, s.consumer, s.local)
    requires DecideInv(s.running, s.queue, s.consumer) && Productive(a) && Enabled(cfg, s, a)
    ensures Cost(batch, wake, |cfg.writers|, Next(cfg, s, a)) < Cost(batch, wake, |cfg.writers|, s)
  {
    match a
    case RunPusher(p) => PusherDecreases(cfg, batch, wake, |cfg.writers|, s, p);
    case RunConsumer(logs) => if s.consumer == CDecide { SwapDecreases(cfg, s, logs, wake); } else { ConsumerDecreases(cfg, s, logs, batch); }
    case RunStopper(t) => StopperDecreases(cfg, s, t, batch, |cfg.writers|);
    case RunTask(i) => assert |s.fan.pending - {i}| == |s.fan.pending| - 1;
    case _ =>
  }

  /** What a new call, or a spurious wakeup, can cause. */
  function CallCost(cfg: Config): nat { QueueCost(|cfg.writers|, |cfg.pushers|) + 9 }

  lemma CallCosts(cfg: Config, s: State, a: Action)
    requires !Productive(a) && Enabled(cfg, s, a) && s.pushers.Keys == cfg.pushers
    ensures Measure(cfg, Next(cfg, s, a)) <= Measure(cfg, s) + CallCost(cfg)
  {
    PushersStay(cfg, s, a);
    assert |s.pushers| == |cfg.pushers| by { assert |s.pushers| == |s.pushers.Keys|; }
    CostRises(cfg, s, a, QueueCost(|cfg.writers|, |s.pushers|), WakeAll(|s.pushers|));
  }

  lemma CostRises(cfg: Config, s: State, a: Action, batch: nat, wake: nat)
    requires !Productive(a) && Enabled(cfg, s, a) && batch >= wake + 3
    ensures Cost(batch, wake, |cfg.writers|, Next(cfg, s, a)) <= Cost(batch, wake, |cfg.writers|, s) + batch + 9
  {
    match a
    case CallPush(p, b) => PushersRise(batch, wake, |cfg.writers|, s, p, s.pushers[p].(pc := PEntry, batch := b));
    case SpuriousPusher(p) => PushersRise(batch, wake, |cfg.writers|, s, p, s.pushers[p].(pc := PWoken));
    case CallStop(t) => StoppersRise(batch, wake, |cfg.writers|, s, t, SExchange);
    case CallForceStop(t) => StoppersRise(batch, wake, |cfg.writers|, s, t, FForce);
    case _ =>
  }

  lemma PushersRise(batch: nat, wake: nat, writers: nat, s: State, p: Tid, me: Pusher)
    requires p in s.pushers
    ensures Cost(batch, wake, writers, s.(pushers := s.pushers[p := me])) <= Cost(batch, wake, writers, s) + PusherCost(batch, me.pc)
  {
    PusherCostsUpdate(batch, s.pushers, p, me);
  }

  lemma StoppersRise(batch: nat, wake: nat, writers: nat, s: State, t: Tid, pc: StopperPc)
    requires t in s.stoppers
    ensures Cost(batch, wake, writers, s.(stoppers := s.stoppers[t := pc])) <= Cost(batch, wake, writers, s) + StopperCost(wake, pc)
  {
    StopperCalled(wake, s.stoppers, t, pc);
  }

  lemma StopperCalled(wake: nat, stoppers: map<Tid, StopperPc>, t: Tid, pc: StopperPc)
    requires t in stoppers
    ensures Total(StopperCosts(wake, stoppers[t := pc])) <= Total(StopperCosts(wake, stoppers)) + StopperCost(wake, pc)
  {
    TotalUpdate(StopperCosts(wake, stoppers), t, StopperCost(wake, pc));
    assert StopperCosts(wake, stoppers[t := pc]) == StopperCosts(wake, stoppers)[t := StopperCost(wake, pc)];
  }

  // ----- every call returns ----------------------------------------------------------

  /** The steps that calls in progress take in a schedule, and the new calls and
      spurious wakeups in it. */
  function Steps(schedule: seq<Action>): nat { CountWhere(schedule, Productive) }
  function Calls(schedule: seq<Action>): nat { CountWhere(schedule, a => !Productive(a)) }

  lemma {:induction false} DecideAlong(cfg: Config, schedule: seq<Action>)
    requires Exec(cfg, schedule).Some?
    ensures var s := Exec(cfg, schedule).value;
            DecideInv(s.running, s.queue, s.consumer) && s.pushers.Keys == cfg.pushers &&
            BarrierInv(|cfg.writers|, s.fan, s.consumer) && ExitInv(s.running, s.queue, s.consumer, s.local)
  {
    InvAlong(cfg, schedule);
    if schedule != [] {
      var init, a := schedule[..|schedule|-1], schedule[|schedule|-1];
      DecideAlong(cfg, init);
      InvAlong(cfg, init);
      DecidePreserved(cfg, Exec(cfg, init).value, a);
      PushersStay(cfg, Exec(cfg, init).value, a);
    }
  }

  /** From every reachable state, in any interleaving, the calls in progress take
      only so many steps, and each new call or spurious wakeup adds only so many. */
  lemma {:induction false} CallsAreFinite(cfg: Config, before: seq<Action>, more: seq<Action>)
    requires Exec(cfg, before).Some? && Exec(cfg, before + more).Some?
    ensures Steps(more) <= Measure(cfg, Exec(cfg, before).value) + Times(Calls(more), CallCost(cfg))
    ensures (forall k :: 0 <= k < |more| ==> Productive(more[k])) ==> |more| <= Measure(cfg, Exec(cfg, before).value)
  {
    StepsAreBounded(cfg, before, more);
    DecideAlong(cfg, before + more);
    MeasureIsNatural(cfg, Exec(cfg, before + more).value);
    if forall k :: 0 <= k < |more| ==> Productive(more[k]) { OnlySteps(more); }
  }

  lemma {:induction false} OnlySteps(more: seq<Action>)
    requires forall k :: 0 <= k < |more| ==> Productive(more[k])
    ensures Steps(more) == |more| && Calls(more) == 0
  {
    if more != [] { OnlySteps(more[..|more|-1]); }
  }

  /** A quantity that every step lowers and every call raises by at most `cost`. */
  lemma {:induction false} Telescopes(m: seq<Action> -> int, cost: nat, before: seq<Action>, more: seq<Action>)
    requires forall init, a :: before <= init && init + [a] <= before + more ==>
               m(init + [a]) <= if Productive(a) then m(init) - 1 else m(init) + cost
    ensures Steps(more) + m(before + more) <= m(before) + Times(Calls(more), cost)
  {
    if more == [] {
      assert before + more == before;
    } else {
      var init, a := before + more[..|more|-1], more[|more|-1];
      assert init + [a] == before + more;
      Telescopes(m, cost, before, more[..|more|-1]);
    }
  }

  ghost function MeasureAfter(cfg: Config, schedule: seq<Action>): int {
    var s := Exec(cfg, schedule);
    if s.Some? then Measure(cfg, s.value) else 0
  }

  lemma StepsAreBounded(cfg: Config, before: seq<Action>, more: seq<Action>)
    requires Exec(cfg, before).Some? && Exec(cfg, before + more).Some?
    ensures Steps(more) + Measure(cfg, Exec(cfg, before + more).value) <=
            Measure(cfg, Exec(cfg, before).value) + Times(Calls(more), CallCost(cfg))
  {
    var m := schedule => MeasureAfter(cfg, schedule);
    forall init, a | before <= init && init + [a] <= before + more
      ensures m(init + [a]) <= if Productive(a) then m(init) - 1 else m(init) + CallCost(cfg)
    {
      ExecPrefix(cfg, before + more, |init| + 1);
      assert (before + more)[..|init| + 1] == init + [a];
      OneMoreAction(cfg, init, a);
    }
    Telescopes(m, CallCost(cfg), before, more);
  }

  lemma {:induction false} ExecPrefix(cfg: Config, schedule: seq<Action>, n: nat)
    requires n <= |schedule| && Exec(cfg, schedule).Some?
    ensures Exec(cfg, schedule[..n]).Some?
  {
    if n < |schedule| {
      ExecPrefix(cfg, schedule[..|schedule|-1], n);
      assert schedule[..|schedule|-1][..n] == schedule[..n];
    } else {
      assert schedule[..n] == schedule;
    }
  }

  lemma OneMoreAction(cfg: Config, init: seq<Action>, a: Action)
    requires Exec(cfg, init + [a]).Some?
    ensures MeasureAfter(cfg, init + [a]) <= if Productive(a) then MeasureAfter(cfg, init) - 1 else MeasureAfter(cfg, init) + CallCost(cfg)
  {
    assert (init + [a])[..|init|] == init;
    DecideAlong(cfg, init);
    OneMore(cfg, Exec(cfg, init).value, a);
  }

  lemma OneMore(cfg: Config, s: State, a: Action)
    requires Enabled(cfg, s, a) && s.pushers.Keys == cfg.pushers && DecideInv(s.running, s.queue, s.consumer)
    requires BarrierInv(|cfg.writers|, s.fan, s.consumer) && ExitInv(s.running, s.queue, s.consumer, s.local)
    ensures Measure(cfg, Next(cfg, s, a)) <= if Productive(a) then Measure(cfg, s) - 1 else Measure(cfg, s) + CallCost(cfg)
  {
    if Productive(a) { StepDecreases(cfg, s, a); } else { CallCosts(cfg, s, a); }
  }

  /** Where a schedule ends when nothing is left to do: every call has returned, and
      if stop was among them the consumer is gone, and (without forceStop) every
      accepted batch is with its writers. */
  lemma StopReturns(cfg: Config, s: State)
    requires Reachable(cfg, s) && cfg.capacity >= 1 && !CanProgress(cfg, s)
    ensures forall p :: p in s.pushers ==> s.pushers[p].pc == PIdle
    ensures forall t :: t in s.stoppers ==> s.stoppers[t] == SIdle
    ensures s.stopping ==> s.stopped && s.consumer == CExited
    ensures s.stopping && !s.forceQuit ==>
              |s.fan.writerLog| == |cfg.writers| &&
              forall i :: 0 <= i < |cfg.writers| ==> s.fan.writerLog[i] == Delivered(cfg, i, s.accepted)
  {
    if CallInProgress(s) { NeverStuck(cfg, s); }
    InvReachable(cfg, s);
    if s.stopping && !s.forceQuit { DrainedAtExit(cfg, s); }
  }
}
