/** Stopping a processor: the running flag, the count of pending tasks, and the wait
    for that count to reach zero (src/processor/ChannelProcessor.cpp). One step is
    one access to shared state; any number of threads push, start and stop. */
module Drain {
  import opened Sequences
  import opened Wrappers

  /** A pushed task. `Inside` is the time spent in `processTask`. */
  datatype TaskPc =
    | Counted(timeSeries: bool) // counted by the push; has not looked at running_ yet
    | Admitted                  // read running_ == true, about to enter processTask
    | Inside
    | Leaving                   // about to decrement the count
    | Notifying                 // took the count to zero, about to notify
    | Finished

  datatype StopPc =
    | Refused    // found the processor not running and returned at once
    | Testing    // holds drain_mutex_, about to evaluate the predicate
    | Dozing     // predicate was false, about to go to sleep
    | Asleep
    | Clearing   // the wait is over, about to clear the buffer
    | Cleared

  /** `restarted` is ghost information: the processor was started again since this
      call of `stop` switched it off. */
  datatype Stop = Stop(pc: StopPc, restarted: bool)

  datatype State = State(running: bool, pending: int, tasks: seq<TaskPc>, stops: seq<Stop>)

  datatype Step = Start | Push(timeSeries: bool) | CallStop | RunTask(t: nat) | RunStop(k: nat) | Spurious(k: nat)

  const INIT: State := State(false, 0, [], [])

  function TaskGoes(pc: TaskPc, running: bool, pending: int): TaskPc {
    match pc
    case Counted(timeSeries) => if running && timeSeries then Admitted else Leaving
    case Admitted => Inside
    case Inside => Leaving
    case Leaving => if pending == 1 then Notifying else Finished
    case Notifying | Finished => Finished
  }

  function StopGoes(pc: StopPc, pending: int): StopPc {
    match pc
    case Testing => if pending == 0 then Clearing else Dozing
    case Dozing => Asleep
    case Clearing => Cleared
    case _ => pc
  }

  predicate Enabled(s: State, a: Step) {
    match a
    case RunTask(t) => t < |s.tasks| && s.tasks[t] != Finished
    case RunStop(k) => k < |s.stops| && s.stops[k].pc in {Testing, Dozing, Clearing}
    case Spurious(k) => k < |s.stops| && s.stops[k].pc == Asleep
    case _ => true
  }

  function Restart(stops: seq<Stop>): seq<Stop> { seq(|stops|, k requires 0 <= k < |stops| => stops[k].(restarted := true)) }

  function Wake(stops: seq<Stop>): seq<Stop> {
    seq(|stops|, k requires 0 <= k < |stops| => if stops[k].pc == Asleep then stops[k].(pc := Testing) else stops[k])
  }

  /** One step. The notification is not made under the mutex, so it may come
      between the predicate and the sleep of a stopping thread. */
  function Next(s: State, a: Step): State
    requires Enabled(s, a)
  {
    match a
    case Start => s.(running := true, stops := Restart(s.stops))
    case Push(timeSeries) => s.(pending := s.pending + 1, tasks := s.tasks + [Counted(timeSeries)])
    case CallStop => s.(running := false, stops := s.stops + [Stop(if s.running then Testing else Refused, false)])
    case RunTask(t) =>
      s.(pending := if s.tasks[t] == Leaving then s.pending - 1 else s.pending,
         tasks := s.tasks[t := TaskGoes(s.tasks[t], s.running, s.pending)],
         stops := if s.tasks[t] == Notifying then Wake(s.stops) else s.stops)
    case RunStop(k) => s.(stops := s.stops[k := s.stops[k].(pc := StopGoes(s.stops[k].pc, s.pending))])
    case Spurious(k) => s.(stops := s.stops[k := s.stops[k].(pc := Testing)])
  }

  /** The state after some more steps; None when one of them was not possible. */
  function ExecFrom(s: State, steps: seq<Step>): Option<State>
    decreases |steps|
  {
    if steps == [] then Some(s)
    else if Enabled(s, steps[0]) then ExecFrom(Next(s, steps[0]), steps[1..])
    else None
  }

  function Exec(steps: seq<Step>): Option<State> { ExecFrom(INIT, steps) }

  ghost predicate Reachable(s: State) { exists steps :: Exec(steps) == Some(s) }

  lemma Follow(s: State, a: Step, rest: seq<Step>)
    requires Enabled(s, a)
    ensures ExecFrom(s, [a] + rest) == ExecFrom(Next(s, a), rest)
  {
    assert ([a] + rest)[1..] == rest;
  }

  // ----- the invariant -----------------------------------------------------------------

  /** A task between the increment and the decrement. */
  predicate Unfinished(pc: TaskPc) { pc.Counted? || pc.Admitted? || pc.Inside? || pc.Leaving? }

  function CountUnfinished(tasks: seq<TaskPc>): nat { CountWhere(tasks, Unfinished) }

  /** No task is in `processTask` or past its test of the running flag. */
  predicate NoneInside(tasks: seq<TaskPc>) { forall t :: 0 <= t < |tasks| ==> !tasks[t].Admitted? && !tasks[t].Inside? }

  /** A call of `stop` that has not been overtaken by a start keeps the processor off,
      and past its wait no task is inside. */
  ghost predicate Quiet(running: bool, tasks: seq<TaskPc>, k: Stop) {
    !k.restarted && k.pc != Refused ==> !running && (k.pc in {Clearing, Cleared} ==> NoneInside(tasks))
  }

  ghost predicate AllQuiet(running: bool, tasks: seq<TaskPc>, stops: seq<Stop>) {
    forall k :: 0 <= k < |stops| ==> Quiet(running, tasks, stops[k])
  }

  ghost predicate Inv(s: State) { s.pending == CountUnfinished(s.tasks) && AllQuiet(s.running, s.tasks, s.stops) }

  lemma QuietKept(s: State, a: Step)
    requires Inv(s) && Enabled(s, a)
    ensures AllQuiet(Next(s, a).running, Next(s, a).tasks, Next(s, a).stops)
  {
    var n := Next(s, a);
    forall k | 0 <= k < |n.stops| ensures Quiet(n.running, n.tasks, n.stops[k]) {
      if k < |s.stops| { assert Quiet(s.running, s.tasks, s.stops[k]); }
      if a == RunStop(k) && s.stops[k].pc == Testing && s.pending == 0 { CountBounds(s.tasks, Unfinished); }
    }
  }

  lemma InvKept(s: State, a: Step)
    requires Inv(s) && Enabled(s, a)
    ensures Inv(Next(s, a))
  {
    QuietKept(s, a);
    match a
    case Push(timeSeries) => CountMore(s.tasks, Unfinished, Counted(timeSeries));
    case RunTask(t) => CountAfterUpdate(s.tasks, Unfinished, t, TaskGoes(s.tasks[t], s.running, s.pending));
    case _ =>
  }

  lemma {:induction false} InvAlways(s: State, steps: seq<Step>)
    requires Inv(s) && ExecFrom(s, steps).Some?
    ensures Inv(ExecFrom(s, steps).value)
    decreases |steps|
  {
    if steps != [] {
      InvKept(s, steps[0]);
      InvAlways(Next(s, steps[0]), steps[1..]);
    }
  }

  /** In every run, the count is the number of pushed tasks that have not finished. */
  lemma PendingIsExact(steps: seq<Step>)
    requires Exec(steps).Some?
    ensures Exec(steps).value.pending == CountUnfinished(Exec(steps).value.tasks) >= 0
  {
    InvAlways(INIT, steps);
  }

  /** When a call of `stop` clears the buffer no task is inside `processTask`, and
      none enters it later unless the processor is started again. */
  lemma DrainIsSafe(steps: seq<Step>, k: nat)
    requires Exec(steps).Some? && k < |Exec(steps).value.stops|
    requires var c := Exec(steps).value.stops[k]; c.pc in {Clearing, Cleared} && !c.restarted
    ensures !Exec(steps).value.running && NoneInside(Exec(steps).value.tasks)
  {
    InvAlways(INIT, steps);
    assert Quiet(Exec(steps).value.running, Exec(steps).value.tasks, Exec(steps).value.stops[k]);
  }

  // ----- what happens to a task ----------------------------------------------------------

  /** Some stretch of the steps ends with task t inside `processTask`. */
  ghost predicate Enters(s: State, steps: seq<Step>, t: nat) { exists n :: 0 <= n <= |steps| && InsideAfter(s, steps[..n], t) }

  predicate InsideAfter(s: State, steps: seq<Step>, t: nat) {
    var r := ExecFrom(s, steps);
    r.Some? && t < |r.value.tasks| && r.value.tasks[t] == Inside
  }

  lemma EntersLater(s: State, a: Step, rest: seq<Step>, t: nat)
    requires Enabled(s, a)
    ensures Enters(s, [a] + rest, t) <==> InsideAfter(s, [], t) || Enters(Next(s, a), rest, t)
  {
    var steps := [a] + rest;
    if n :| 0 <= n <= |steps| && InsideAfter(s, steps[..n], t) {
      if n == 0 {
        assert steps[..n] == [];
      } else {
        assert steps[..n] == [a] + rest[..n - 1];
        Follow(s, a, rest[..n - 1]);
      }
    }
    if InsideAfter(s, [], t) { assert steps[..0] == []; }
    if n :| 0 <= n <= |rest| && InsideAfter(Next(s, a), rest[..n], t) {
      assert steps[..n + 1] == [a] + rest[..n];
      Follow(s, a, rest[..n]);
    }
  }

  predicate Done(pc: TaskPc) { pc.Notifying? || pc.Finished? }

  /** A task that was admitted does enter on its way to the end, and no other does. */
  lemma {:induction false} EntersIffAdmitted(s: State, t: nat, steps: seq<Step>)
    requires t < |s.tasks| && (s.tasks[t].Admitted? || s.tasks[t].Leaving? || Done(s.tasks[t]))
    requires ExecFrom(s, steps).Some? && t < |ExecFrom(s, steps).value.tasks| && Done(ExecFrom(s, steps).value.tasks[t])
    ensures Enters(s, steps, t) <==> s.tasks[t].Admitted?
    decreases |steps|
  {
    if steps == [] {
      assert steps[..0] == [];
    } else {
      var n, rest := Next(s, steps[0]), steps[1..];
      assert steps == [steps[0]] + rest;
      EntersLater(s, steps[0], rest, t);
      if n.tasks[t].Inside? {
        assert rest[..0] == [] && InsideAfter(n, rest[..0], t);
      } else {
        EntersIffAdmitted(n, t, rest);
      }
    }
  }

  /** In every run in which it comes to its end, a task enters `processTask` exactly
      when it carries a time series and finds the processor running. */
  lemma ProcessedIff(s: State, t: nat, timeSeries: bool, steps: seq<Step>)
    requires t < |s.tasks| && s.tasks[t] == Counted(timeSeries)
    requires var n := Next(s, RunTask(t));
             ExecFrom(n, steps).Some? && t < |ExecFrom(n, steps).value.tasks| && Done(ExecFrom(n, steps).value.tasks[t])
    ensures Enters(Next(s, RunTask(t)), steps, t) <==> timeSeries && s.running
  {
    EntersIffAdmitted(Next(s, RunTask(t)), t, steps);
  }

  // ----- who is woken ---------------------------------------------------------------------

  /** Some stretch of the steps ends with call k awake. */
  ghost predicate Wakes(s: State, steps: seq<Step>, k: nat) { exists n :: 0 <= n <= |steps| && AwakeAfter(s, steps[..n], k) }

  predicate AwakeAfter(s: State, steps: seq<Step>, k: nat) {
    var r := ExecFrom(s, steps);
    r.Some? && k < |r.value.stops| && r.value.stops[k].pc != Asleep
  }

  lemma WakesLater(s: State, a: Step, rest: seq<Step>, k: nat)
    requires Enabled(s, a) && Wakes(Next(s, a), rest, k)
    ensures Wakes(s, [a] + rest, k)
  {
    var n :| 0 <= n <= |rest| && AwakeAfter(Next(s, a), rest[..n], k);
    assert ([a] + rest)[..n + 1] == [a] + rest[..n];
    Follow(s, a, rest[..n]);
  }

  /** A task will still take the count to zero, or has done so and is about to notify. */
  predicate Owes(s: State) { s.pending > 0 || Notifying in s.tasks }

  lemma OwesOn(s: State, a: Step)
    requires Enabled(s, a) && Owes(s) && s.pending >= 0 && !(a.RunTask? && s.tasks[a.t] == Notifying)
    ensures Owes(Next(s, a))
  {
    var n := Next(s, a);
    if a.RunTask? {
      if s.tasks[a.t] == Leaving && s.pending == 1 { assert n.tasks[a.t] == Notifying; }
      if Notifying in s.tasks {
        var t :| 0 <= t < |s.tasks| && s.tasks[t] == Notifying;
        assert n.tasks[t] == Notifying;
      }
    } else if a.Push? && Notifying in s.tasks {
      assert n.pending > 0;
    }
  }

  lemma {:induction false} OwedIsPaid(s: State, k: nat, steps: seq<Step>)
    requires Inv(s) && k < |s.stops| && s.stops[k].pc == Asleep && Owes(s)
    requires ExecFrom(s, steps).Some? && AllFinished(ExecFrom(s, steps).value.tasks)
    ensures Wakes(s, steps, k)
    decreases |steps|
  {
    if steps == [] {
      CountBounds(s.tasks, Unfinished);
    } else {
      var a, n, rest := steps[0], Next(s, steps[0]), steps[1..];
      assert steps == [a] + rest;
      InvKept(s, a);
      if n.stops[k].pc == Asleep {
        OwesOn(s, a);
        OwedIsPaid(n, k, rest);
      } else {
        assert rest[..0] == [] && AwakeAfter(n, rest[..0], k);
      }
      WakesLater(s, a, rest, k);
    }
  }

  /** A call of stop that sleeps while a task is pending is woken before the last task
      has finished, in every run. */
  lemma SleeperIsWoken(s: State, k: nat, steps: seq<Step>)
    requires Reachable(s) && k < |s.stops| && s.stops[k].pc == Asleep && s.pending > 0
    requires ExecFrom(s, steps).Some? && AllFinished(ExecFrom(s, steps).value.tasks)
    ensures Wakes(s, steps, k)
  {
    var before :| Exec(before) == Some(s);
    InvAlways(INIT, before);
    OwedIsPaid(s, k, steps);
  }

  // ----- what is not guaranteed ---------------------------------------------------------

  /** The steps of the started tasks and calls: nobody pushes, starts or calls, and
      nobody wakes without a notification. */
  predicate Inner(steps: seq<Step>) { forall i :: 0 <= i < |steps| ==> steps[i].RunTask? || steps[i].RunStop? }

  predicate AllFinished(tasks: seq<TaskPc>) { forall t :: 0 <= t < |tasks| ==> tasks[t] == Finished }

  function Rank(pc: TaskPc): nat {
    match pc
    case Counted(_) => 5
    case Admitted => 4
    case Inside => 3
    case Leaving => 2
    case Notifying => 1
    case Finished => 0
  }

  /** The steps lead to a state in which every task has finished and call k sleeps. */
  ghost predicate LosesWakeup(s: State, steps: seq<Step>, k: nat) {
    && Inner(steps) && ExecFrom(s, steps).Some?
    && Sleeps(ExecFrom(s, steps).value, k)
  }

  ghost predicate Sleeps(s: State, k: nat) { AllFinished(s.tasks) && k < |s.stops| && s.stops[k].pc == Asleep }

  lemma LosesEarlier(s: State, a: Step, rest: seq<Step>, k: nat)
    requires (a.RunTask? || a.RunStop?) && Enabled(s, a) && LosesWakeup(Next(s, a), rest, k)
    ensures LosesWakeup(s, [a] + rest, k)
  {
    Follow(s, a, rest);
  }

  /** While a call of stop is about to sleep, the tasks can all run to their end:
      their notification finds nobody. */
  lemma {:induction false} TasksFinish(s: State, k: nat, t: nat) returns (steps: seq<Step>)
    requires t <= |s.tasks| && k < |s.stops| && s.stops[k].pc == Dozing && AllFinished(s.tasks[..t])
    ensures LosesWakeup(s, steps, k)
    decreases |s.tasks| - t, if t < |s.tasks| then Rank(s.tasks[t]) else 0
  {
    if t == |s.tasks| {
      assert s.tasks[..t] == s.tasks;
      assert ExecFrom(Next(s, RunStop(k)), []) == Some(Next(s, RunStop(k)));
      LosesEarlier(s, RunStop(k), [], k);
      steps := [RunStop(k)] + [];
    } else if s.tasks[t] == Finished {
      assert s.tasks[..t + 1] == s.tasks[..t] + [Finished];
      steps := TasksFinish(s, k, t + 1);
    } else {
      var n := Next(s, RunTask(t));
      assert n.tasks[..t] == s.tasks[..t];
      var rest := TasksFinish(n, k, t);
      LosesEarlier(s, RunTask(t), rest, k);
      steps := [RunTask(t)] + rest;
    }
  }

  /** With no task pending, a call that tests its predicate goes on to clear. */
  ghost predicate Passing(s: State, k: nat) {
    && s.pending == 0 && (forall t :: 0 <= t < |s.tasks| ==> !Unfinished(s.tasks[t]))
    && k < |s.stops| && s.stops[k].pc in {Testing, Clearing, Cleared}
  }

  lemma {:induction false} PassingKept(s: State, steps: seq<Step>, k: nat)
    requires Passing(s, k) && Inner(steps) && ExecFrom(s, steps).Some?
    ensures Passing(ExecFrom(s, steps).value, k)
    decreases |steps|
  {
    if steps != [] {
      PassingStep(s, steps[0], k);
      assert forall i :: 0 <= i < |steps| - 1 ==> steps[1..][i] == steps[i + 1];
      PassingKept(Next(s, steps[0]), steps[1..], k);
    }
  }

  lemma PassingStep(s: State, a: Step, k: nat)
    requires Passing(s, k) && Enabled(s, a) && (a.RunTask? || a.RunStop?)
    ensures Passing(Next(s, a), k)
  {
  }

  lemma PendingLosesWakeup(s: State, k: nat) returns (steps: seq<Step>)
    requires k < |s.stops| && s.stops[k].pc == Testing && s.pending > 0
    ensures LosesWakeup(s, steps, k)
  {
    var rest := TasksFinish(Next(s, RunStop(k)), k, 0);
    LosesEarlier(s, RunStop(k), rest, k);
    steps := [RunStop(k)] + rest;
  }

  lemma IdleLosesNoWakeup(s: State, k: nat, steps: seq<Step>)
    requires Passing(s, k)
    ensures !LosesWakeup(s, steps, k)
  {
    if Inner(steps) && ExecFrom(s, steps).Some? { PassingKept(s, steps, k); }
  }

  /** A call of stop that is about to test its predicate can sleep past the end of
      all tasks exactly when a task is pending at that moment. */
  lemma WakeupLostIff(s: State, k: nat)
    requires Reachable(s) && k < |s.stops| && s.stops[k].pc == Testing
    ensures (exists steps :: LosesWakeup(s, steps, k)) <==> s.pending > 0
  {
    var before :| Exec(before) == Some(s);
    InvAlways(INIT, before);
    if s.pending > 0 {
      var steps := PendingLosesWakeup(s, k);
    } else {
      CountBounds(s.tasks, Unfinished);
      forall steps ensures !LosesWakeup(s, steps, k) { IdleLosesNoWakeup(s, k, steps); }
    }
  }

  /** A sleeping call that nobody will notify. */
  predicate Forgotten(s: State, k: nat) {
    k < |s.stops| && s.stops[k].pc == Asleep && s.pending == 0 && AllFinished(s.tasks)
  }

  /** From every reachable state in which call k sleeps, no task is pending and none
      is about to notify, it sleeps on through every run without a push, whoever
      starts or stops the processor, unless it wakes for no reason. */
  lemma SleepsOn(s: State, k: nat, more: seq<Step>)
    requires Reachable(s) && k < |s.stops| && s.stops[k].pc == Asleep && s.pending == 0 && Notifying !in s.tasks
    requires forall i :: 0 <= i < |more| ==> !more[i].Push? && more[i] != Spurious(k)
    requires ExecFrom(s, more).Some?
    ensures Forgotten(ExecFrom(s, more).value, k)
  {
    var before :| Exec(before) == Some(s);
    InvAlways(INIT, before);
    CountBounds(s.tasks, Unfinished);
    assert forall t :: 0 <= t < |s.tasks| ==> s.tasks[t] in s.tasks && !Unfinished(s.tasks[t]);
    StaysForgotten(s, k, more);
  }

  lemma {:induction false} StaysForgotten(s: State, k: nat, more: seq<Step>)
    requires Forgotten(s, k) && forall i :: 0 <= i < |more| ==> !more[i].Push? && more[i] != Spurious(k)
    requires ExecFrom(s, more).Some?
    ensures Forgotten(ExecFrom(s, more).value, k)
    decreases |more|
  {
    if more != [] {
      ForgottenKept(s, k, more[0]);
      assert forall i :: 0 <= i < |more| - 1 ==> more[1..][i] == more[i + 1];
      StaysForgotten(Next(s, more[0]), k, more[1..]);
    }
  }

  lemma ForgottenKept(s: State, k: nat, a: Step)
    requires Forgotten(s, k) && Enabled(s, a) && !a.Push? && a != Spurious(k)
    ensures Forgotten(Next(s, a), k)
  {
  }

  /** A state with one task and one call of `stop`. */
  function Pair(running: bool, pending: int, t: TaskPc, k: StopPc): State {
    State(running, pending, [t], [Stop(k, false)])
  }

  lemma {:induction false} ExecMore(s: State, steps: seq<Step>, a: Step)
    requires ExecFrom(s, steps).Some? && Enabled(ExecFrom(s, steps).value, a)
    ensures ExecFrom(s, steps + [a]) == Some(Next(ExecFrom(s, steps).value, a))
    decreases |steps|
  {
    if steps == [] {
      assert [] + [a] == [a] && ExecFrom(Next(s, a), [a][1..]) == Some(Next(s, a));
    } else {
      assert (steps + [a])[1..] == steps[1..] + [a];
      ExecMore(Next(s, steps[0]), steps[1..], a);
    }
  }

  lemma Reaches(s: State, a: Step, n: State)
    requires Reachable(s) && Enabled(s, a) && Next(s, a) == n
    ensures Reachable(n)
  {
    var steps :| Exec(steps) == Some(s);
    ExecMore(INIT, steps, a);
    assert Exec(steps + [a]) == Some(n);
  }

  /** A processor is started, a task pushed, and stop called: that is enough. */
  lemma WakeupCanBeLost() returns (steps: seq<Step>)
    ensures Reachable(Pair(false, 1, Counted(true), Testing)) && LosesWakeup(Pair(false, 1, Counted(true), Testing), steps, 0)
  {
    var started, pushed := State(true, 0, [], []), State(true, 1, [Counted(true)], []);
    assert Exec([]) == Some(INIT) && Restart([]) == [];
    Reaches(INIT, Start, started);
    assert [] + [Counted(true)] == [Counted(true)] && [] + [Stop(Testing, false)] == [Stop(Testing, false)];
    Reaches(started, Push(true), pushed);
    Reaches(pushed, CallStop, Pair(false, 1, Counted(true), Testing));
    steps := PendingLosesWakeup(Pair(false, 1, Counted(true), Testing), 0);
  }
}
