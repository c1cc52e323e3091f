/** What a call on the bus has done by the time it returns, in every run: push, stop
    and forceStop, whatever the other threads do meanwhile. */
module BusCalls {
  import opened Routing
  import opened Wrappers
  import opened Bus
  import opened BusInvariant
  import opened BusTheorems

  // ----- properties along a run -----------------------------------------------------

  /** No step of an allowed kind leads out of P. */
  ghost predicate Stable(cfg: Config, P: State -> bool, allowed: Action -> bool) {
    forall s, a :: Inv(cfg, s) && P(s) && allowed(a) && Enabled(cfg, s, a) ==> P(Next(cfg, s, a))
  }

  lemma {:induction false} StaysAlong(cfg: Config, P: State -> bool, allowed: Action -> bool, before: seq<Action>, more: seq<Action>)
    requires Exec(cfg, before).Some? && P(Exec(cfg, before).value) && Stable(cfg, P, allowed)
    requires forall a :: a in more ==> allowed(a)
    ensures Exec(cfg, before + more).Some? ==> P(Exec(cfg, before + more).value)
  {
    if more == [] {
      assert before + more == before;
    } else {
      var init, a := before + more[..|more|-1], more[|more|-1];
      assert (before + more)[..|before + more|-1] == init && (before + more)[|before + more|-1] == a;
      StaysAlong(cfg, P, allowed, before, more[..|more|-1]);
      if Exec(cfg, before + more).Some? { InvAlong(cfg, init); }
    }
  }

  // ----- push ------------------------------------------------------------------------

  /** Where a call of push with batch b stands; `prior` are the batches accepted from
      this thread before the call. */
  predicate Pushing(s: State, p: Tid, b: Batch, prior: seq<Batch>) {
    p in s.pushers &&
    var me := s.pushers[p];
    if me.pc == PIdle then (me.succeeded == prior + [b] && !Malformed(b)) || (me.succeeded == prior && (Malformed(b) || !s.running))
    else me.batch == b && me.succeeded == prior && (me.pc == PEntry || !Malformed(b))
  }

  predicate PushesAgain(a: Action, p: Tid) { a.CallPush? && a.p == p }

  lemma PushingStep(cfg: Config, s: State, a: Action, p: Tid, b: Batch, prior: seq<Batch>)
    requires Pushing(s, p, b, prior) && Enabled(cfg, s, a) && !PushesAgain(a, p)
    ensures Pushing(Next(cfg, s, a), p, b, prior)
  {
    assert prior + [] == prior;
  }

  /** A call of push that has returned with the bus still running has enqueued its
      batch, unless the batch is malformed; a malformed batch is never enqueued, and no
      call enqueues more than its batch. */
  lemma PushDelivers(cfg: Config, before: seq<Action>, p: Tid, b: Batch, more: seq<Action>)
    requires Exec(cfg, before).Some? && Enabled(cfg, Exec(cfg, before).value, CallPush(p, b))
    requires forall a :: a in more ==> !PushesAgain(a, p)
    requires Exec(cfg, before + [CallPush(p, b)] + more).Some?
    ensures var s, s' := Exec(cfg, before).value, Exec(cfg, before + [CallPush(p, b)] + more).value;
            p in s'.pushers &&
            (s'.pushers[p].pc == PIdle ==>
               var prior, now := ByThread(s.accepted, p), ByThread(s'.accepted, p);
               && now == s'.pushers[p].succeeded
               && (s'.running ==> now == if Malformed(b) then prior else prior + [b])
               && (!s'.running ==> now == prior || (!Malformed(b) && now == prior + [b])))
  {
    var s, run := Exec(cfg, before).value, before + [CallPush(p, b)];
    var prior := s.pushers[p].succeeded;
    ExecStep(cfg, before, CallPush(p, b));
    assert Reachable(cfg, s);
    PushIsTruthful(cfg, s, p);
    forall u, a | Pushing(u, p, b, prior) && !PushesAgain(a, p) && Enabled(cfg, u, a) ensures Pushing(Next(cfg, u, a), p, b, prior) {
      PushingStep(cfg, u, a, p, b, prior);
    }
    StaysAlong(cfg, u => Pushing(u, p, b, prior), a => !PushesAgain(a, p), run, more);
    var s' := Exec(cfg, run + more).value;
    assert Reachable(cfg, s');
    PushIsTruthful(cfg, s', p);
  }

  // ----- stop ------------------------------------------------------------------------

  predicate ReadersCleared(pc: StopperPc) {
    pc.SLock? || pc.SHeld? || pc.SNotifyFull? || pc.SNotifyEmpty? || pc.SJoin? || pc.SFinish?
  }

  /** Behind the destruction of the readers none of their threads is inside push. */
  ghost predicate ClearedInv(cfg: Config, s: State) {
    && (s.readersGone ==> ReadersQuiet(cfg, s) && !s.running)
    && (s.stopped ==> s.readersGone)
    && (forall t :: t in s.stoppers && ReadersCleared(s.stoppers[t]) ==> s.readersGone)
  }

  lemma ClearedByStopper(cfg: Config, s: State, t: Tid)
    requires FlagInv(s.running, s.forceQuit, s.stoppers) && ClearedInv(cfg, s) && StopperReady(cfg, s, t)
    ensures ClearedInv(cfg, StopperStep(cfg, s, t))
  {
  }

  lemma ClearedByPusher(cfg: Config, s: State, p: Tid)
    requires ClearedInv(cfg, s) && PusherReady(s, p)
    ensures ClearedInv(cfg, PusherStep(cfg, s, p))
  {
  }

  lemma ClearedStep(cfg: Config, s: State, a: Action)
    requires FlagInv(s.running, s.forceQuit, s.stoppers) && ClearedInv(cfg, s) && Enabled(cfg, s, a)
    ensures ClearedInv(cfg, Next(cfg, s, a))
  {
    match a
    case RunStopper(t) => ClearedByStopper(cfg, s, t);
    case RunPusher(p) => ClearedByPusher(cfg, s, p);
    case _ =>
  }

  lemma ClearedReachable(cfg: Config, s: State)
    requires Reachable(cfg, s)
    ensures ClearedInv(cfg, s)
  {
    var schedule :| Exec(cfg, schedule) == Some(s);
    forall u, a | Inv(cfg, u) && ClearedInv(cfg, u) && Enabled(cfg, u, a) ensures ClearedInv(cfg, Next(cfg, u, a)) { ClearedStep(cfg, u, a); }
    StaysAlong(cfg, u => ClearedInv(cfg, u), _ => true, [], schedule);
    assert [] + schedule == schedule;
  }

  /** Where a call of stop stands. */
  predicate Stopping(s: State, t: Tid) {
    t in s.stoppers &&
    if s.stoppers[t] == SIdle then s.stopped
    else s.stoppers[t] == SExchange || s.stoppers[t] == SSpin || WinnerBusy(s.stoppers[t])
  }

  predicate CallsAgain(a: Action, t: Tid) { (a.CallStop? || a.CallForceStop?) && a.t == t }

  lemma StoppingStep(cfg: Config, s: State, a: Action, t: Tid)
    requires Stopping(s, t) && Enabled(cfg, s, a) && !CallsAgain(a, t)
    ensures Stopping(Next(cfg, s, a), t)
  {
  }

  lemma AfterStopped(cfg: Config, s: State)
    requires Reachable(cfg, s) && s.stopped
    ensures !s.running && s.readersGone && ReadersQuiet(cfg, s) && s.consumer == CExited
    ensures !s.forceQuit ==> s.dispatched == s.accepted
  {
    InvReachable(cfg, s);
    ClearedReachable(cfg, s);
    if !s.forceQuit { DrainedAtExit(cfg, s); }
  }

  lemma StoppingAlong(cfg: Config, before: seq<Action>, t: Tid, more: seq<Action>)
    requires Exec(cfg, before).Some? && Stopping(Exec(cfg, before).value, t)
    requires forall a :: a in more ==> !CallsAgain(a, t)
    ensures Exec(cfg, before + more).Some? ==> Stopping(Exec(cfg, before + more).value, t)
  {
    forall u, a | Stopping(u, t) && !CallsAgain(a, t) && Enabled(cfg, u, a) ensures Stopping(Next(cfg, u, a), t) { StoppingStep(cfg, u, a, t); }
    StaysAlong(cfg, u => Stopping(u, t), a => !CallsAgain(a, t), before, more);
  }

  /** Whoever called stop, first or not: when the call has returned, the readers are
      gone, the consumer has left and every accepted batch was dispatched, unless
      forceStop was called too. */
  lemma StopHasStopped(cfg: Config, before: seq<Action>, t: Tid, more: seq<Action>)
    requires Exec(cfg, before).Some? && Enabled(cfg, Exec(cfg, before).value, CallStop(t))
    requires forall a :: a in more ==> !CallsAgain(a, t)
    requires Exec(cfg, before + [CallStop(t)] + more).Some?
    ensures var s' := Exec(cfg, before + [CallStop(t)] + more).value;
            t in s'.stoppers &&
            (s'.stoppers[t] == SIdle ==>
               && s'.stopped && !s'.running && s'.readersGone && ReadersQuiet(cfg, s') && s'.consumer == CExited
               && (!s'.forceQuit ==> s'.dispatched == s'.accepted))
  {
    ExecStep(cfg, before, CallStop(t));
    StoppingAlong(cfg, before + [CallStop(t)], t, more);
    var s' := Exec(cfg, before + [CallStop(t)] + more).value;
    assert Reachable(cfg, s');
    if s'.stopped { AfterStopped(cfg, s'); }
  }

  // ----- forceStop -------------------------------------------------------------------

  /** Nothing is queued, and nobody is going to queue anything. */
  ghost predicate Quiet(s: State) {
    !s.running && s.queue == [] && forall p :: p in s.pushers ==> s.pushers[p].pc != PPushing
  }

  lemma QuietStep(cfg: Config, s: State, a: Action)
    requires Quiet(s) && Enabled(cfg, s, a)
    ensures Quiet(Next(cfg, s, a))
  {
  }

  /** Where a call of forceStop stands. */
  ghost predicate Forcing(s: State, t: Tid) {
    t in s.stoppers &&
    match s.stoppers[t]
    case FForce => true
    case FStore => s.forceQuit
    case FLock | FClear => s.forceQuit && !s.running
    case FNotifyFull | FNotifyEmpty | SIdle => s.forceQuit && Quiet(s)
    case _ => false
  }

  lemma ForcingStep(cfg: Config, s: State, a: Action, t: Tid)
    requires PushersExclude(s.mutex, s.pushers) && StoppersExclude(s.mutex, s.stoppers)
    requires Forcing(s, t) && Enabled(cfg, s, a) && !CallsAgain(a, t)
    ensures Forcing(Next(cfg, s, a), t)
  {
    if Quiet(s) { QuietStep(cfg, s, a); }
    if a == RunStopper(t) && s.stoppers[t] == FClear { assert Quiet(Next(cfg, s, a)); }
  }

  /** When forceStop has returned, the queue is empty and stays empty. */
  lemma ForceStopEmpties(cfg: Config, before: seq<Action>, t: Tid, more: seq<Action>)
    requires Exec(cfg, before).Some? && Enabled(cfg, Exec(cfg, before).value, CallForceStop(t))
    requires forall a :: a in more ==> !CallsAgain(a, t)
    requires Exec(cfg, before + [CallForceStop(t)] + more).Some?
    ensures var s' := Exec(cfg, before + [CallForceStop(t)] + more).value;
            t in s'.stoppers && (s'.stoppers[t] == SIdle ==> s'.forceQuit && !s'.running && s'.queue == [])
  {
    var run := before + [CallForceStop(t)];
    ExecStep(cfg, before, CallForceStop(t));
    forall u, a | Inv(cfg, u) && Forcing(u, t) && !CallsAgain(a, t) && Enabled(cfg, u, a) ensures Forcing(Next(cfg, u, a), t) {
      ForcingStep(cfg, u, a, t);
    }
    StaysAlong(cfg, u => Forcing(u, t), a => !CallsAgain(a, t), run, more);
  }

  ghost predicate Aborted(s: State, dispatched: seq<Entry>) { s.forceQuit && s.dispatched == dispatched }

  lemma AbortedStep(cfg: Config, s: State, a: Action, dispatched: seq<Entry>)
    requires Aborted(s, dispatched) && Enabled(cfg, s, a)
    ensures Aborted(Next(cfg, s, a), dispatched)
  {
    assert s.dispatched + [] == s.dispatched;
  }

  /** Once forceStop has set its flag, no further batch is dispatched, queued or not. */
  lemma NothingAfterForce(cfg: Config, before: seq<Action>, more: seq<Action>)
    requires Exec(cfg, before).Some? && Exec(cfg, before).value.forceQuit
    ensures Exec(cfg, before + more).Some? ==> Exec(cfg, before + more).value.dispatched == Exec(cfg, before).value.dispatched
  {
    var dispatched := Exec(cfg, before).value.dispatched;
    forall u, a | Aborted(u, dispatched) && Enabled(cfg, u, a) ensures Aborted(Next(cfg, u, a), dispatched) { AbortedStep(cfg, u, a, dispatched); }
    StaysAlong(cfg, u => Aborted(u, dispatched), _ => true, before, more);
  }

  // ----- nothing stops by itself --------------------------------------------------------

  ghost predicate StopCalled(schedule: seq<Action>) { exists a :: a in schedule && a.CallStop? }

  ghost predicate ForceCalled(schedule: seq<Action>) { exists a :: a in schedule && a.CallForceStop? }

  predicate InForceStop(pc: StopperPc) { pc.FForce? || AfterForce(pc) }

  /** Flags and calls in progress have their cause. */
  ghost predicate Caused(s: State, stop: bool, force: bool) {
    && (s.forceQuit ==> force) && (s.stopping ==> stop) && (!s.running ==> stop || force)
    && forall t :: t in s.stoppers && s.stoppers[t] != SIdle ==> if InForceStop(s.stoppers[t]) then force else stop
  }

  lemma CausedByStopper(cfg: Config, s: State, t: Tid, stop: bool, force: bool)
    requires StopperReady(cfg, s, t) && Caused(s, stop, force)
    ensures Caused(StopperStep(cfg, s, t), stop, force)
  {
  }

  lemma CausedStep(cfg: Config, s: State, a: Action, stop: bool, force: bool)
    requires Enabled(cfg, s, a) && Caused(s, stop, force)
    ensures Caused(Next(cfg, s, a), stop || a.CallStop?, force || a.CallForceStop?)
  {
    match a
    case RunStopper(t) => CausedByStopper(cfg, s, t, stop, force);
    case _ =>
  }

  /** The bus aborts only after a call of forceStop, stops only after one of stop, and
      runs as long as there was neither. */
  lemma {:induction false} StopsOnlyWhenCalled(cfg: Config, schedule: seq<Action>)
    requires Exec(cfg, schedule).Some?
    ensures Caused(Exec(cfg, schedule).value, StopCalled(schedule), ForceCalled(schedule))
  {
    if schedule != [] {
      var init, a := schedule[..|schedule|-1], schedule[|schedule|-1];
      StopsOnlyWhenCalled(cfg, init);
      assert schedule == init + [a];
      assert a in schedule;
      CausedStep(cfg, Exec(cfg, init).value, a, StopCalled(init), ForceCalled(init));
    }
  }
}
