/** The completion handshake between readers and the controller
    (include/reader/IReader.h, src/controller/MLDPPVXSController.cpp). Every reader
    is in the controller's list; one thread registers the observer with it while the
    reader's own thread may signal completion. One step is one access to shared
    state, and `stop` is only called by the handshake itself. */
module Completion {
  import opened Wrappers
  import opened Sequences

  /** setLifecycleObserver: store the observer, then look at the completed flag. */
  datatype RegisterPc = Storing | Rechecking | Registered

  /** signalCompleted: set the completed flag, then look for an observer. */
  datatype SignalPc = Working | Looking | Signalled

  /** `threads` are the notifications whose thread has not called
      removeCompletedReader yet; `notified` and `removed` are counted for the theorems. */
  datatype Reader = Reader(register: RegisterPc, signal: SignalPc, listed: bool, threads: nat, notified: nat, removed: nat)

  /** `triggered` counts the calls of removeCompletedReader that returned true, and
      `toStop` those of them that have not tested the running flag yet. */
  datatype State = State(running: bool, readers: seq<Reader>, triggered: nat, toStop: nat, stops: nat)

  datatype Step = Register(i: nat) | Signal(i: nat) | Remove(i: nat) | StopIfRunning

  function Init(readers: nat): State {
    State(true, seq(readers, _ => Reader(Storing, Working, true, 0, 0, 0)), 0, 0, 0)
  }

  predicate Enabled(s: State, a: Step) {
    match a
    case Register(i) => i < |s.readers| && s.readers[i].register != Registered
    case Signal(i) => i < |s.readers| && s.readers[i].signal != Signalled
    case Remove(i) => i < |s.readers| && s.readers[i].threads > 0
    case StopIfRunning => s.toStop > 0
  }

  /** onReaderCompleted: ignored once the controller is not running. */
  function Notify(r: Reader, running: bool): Reader {
    r.(notified := r.notified + 1, threads := if running then r.threads + 1 else r.threads)
  }

  function RegisterStep(r: Reader, running: bool): Reader {
    match r.register
    case Storing => r.(register := Rechecking)
    case Rechecking => (if r.signal != Working then Notify(r, running) else r).(register := Registered)
    case Registered => r
  }

  function SignalStep(r: Reader, running: bool): Reader {
    match r.signal
    case Working => r.(signal := Looking)
    case Looking => (if r.register != Storing then Notify(r, running) else r).(signal := Signalled)
    case Signalled => r
  }

  /** Found: erased from the list; not found: ignored. */
  function RemoveStep(r: Reader): Reader {
    r.(threads := if r.threads > 0 then r.threads - 1 else 0, listed := false, removed := if r.listed then r.removed + 1 else r.removed)
  }

  predicate Listed(reader: Reader) { reader.listed }

  function CountListed(readers: seq<Reader>): nat { CountWhere(readers, Listed) }

  function Next(s: State, a: Step): State
    requires Enabled(s, a)
  {
    match a
    case Register(i) => s.(readers := s.readers[i := RegisterStep(s.readers[i], s.running)])
    case Signal(i) => s.(readers := s.readers[i := SignalStep(s.readers[i], s.running)])
    case Remove(i) =>
      var after := s.readers[i := RemoveStep(s.readers[i])];
      var last := s.readers[i].listed && CountListed(after) == 0;
      s.(readers := after, triggered := if last then s.triggered + 1 else s.triggered, toStop := if last then s.toStop + 1 else s.toStop)
    case StopIfRunning => s.(running := false, toStop := s.toStop - 1, stops := if s.running then s.stops + 1 else s.stops)
  }

  function Exec(readers: nat, steps: seq<Step>): Option<State> {
    if steps == [] then Some(Init(readers))
    else
      var before := Exec(readers, steps[..|steps|-1]);
      if before.Some? && Enabled(before.value, steps[|steps|-1]) then Some(Next(before.value, steps[|steps|-1])) else None
  }

  // ----- the invariant ------------------------------------------------------------------

  /** Both sides of the handshake have done their first step: whoever looks second
      sees the other. */
  ghost predicate Handshake(r: Reader) {
    && (r.notified > 0 ==> r.register != Storing && r.signal != Working)
    && r.notified <= (if r.register == Registered then 1 else 0) + (if r.signal == Signalled then 1 else 0)
    && (r.register == Registered && r.signal == Signalled ==> r.notified > 0)
  }

  /** A reader leaves the list exactly when it is removed, which takes a notification. */
  ghost predicate Removal(r: Reader) {
    && r.removed == (if r.listed then 0 else 1)
    && (!r.listed ==> r.notified > 0)
    && r.threads <= r.notified
  }

  /** As long as a reader is listed the controller runs, and no notification of it was
      dropped. */
  ghost predicate NotDropped(r: Reader) { r.listed ==> r.threads == r.notified }

  ghost predicate ReaderInv(r: Reader) { Handshake(r) && Removal(r) && NotDropped(r) }

  ghost predicate AllReaders(readers: seq<Reader>) { forall i :: 0 <= i < |readers| ==> ReaderInv(readers[i]) }

  /** The list becomes empty once. */
  ghost predicate TriggerInv(s: State) {
    && s.triggered == (if s.readers != [] && CountListed(s.readers) == 0 then 1 else 0)
    && s.stops + s.toStop == s.triggered
    && s.running == (s.stops == 0)
  }

  ghost predicate Inv(s: State) { AllReaders(s.readers) && TriggerInv(s) }

  lemma InvKept(s: State, a: Step)
    requires Inv(s) && Enabled(s, a)
    ensures Inv(Next(s, a))
  {
    CountBounds(s.readers, Listed);
    match a
    case Register(i) =>
      CountAfterUpdate(s.readers, Listed, i, RegisterStep(s.readers[i], s.running));
      ReaderKept(s.readers[i], s.running);
    case Signal(i) =>
      CountAfterUpdate(s.readers, Listed, i, SignalStep(s.readers[i], s.running));
      ReaderKept(s.readers[i], s.running);
    case Remove(i) =>
      CountAfterUpdate(s.readers, Listed, i, RemoveStep(s.readers[i]));
      ReaderKept(s.readers[i], s.running);
    case StopIfRunning =>
  }

  lemma ReaderKept(r: Reader, running: bool)
    requires ReaderInv(r) && (r.listed ==> running)
    ensures ReaderInv(RegisterStep(r, running)) && RegisterStep(r, running).listed == r.listed
    ensures ReaderInv(SignalStep(r, running)) && SignalStep(r, running).listed == r.listed
    ensures r.threads > 0 ==> ReaderInv(RemoveStep(r))
  {
  }

  lemma {:induction false} InvAlways(readers: nat, steps: seq<Step>)
    requires Exec(readers, steps).Some?
    ensures Inv(Exec(readers, steps).value) && |Exec(readers, steps).value.readers| == readers
  {
    if steps == [] {
      CountBounds(Init(readers).readers, Listed);
    } else {
      InvAlways(readers, steps[..|steps|-1]);
      InvKept(Exec(readers, steps[..|steps|-1]).value, steps[|steps|-1]);
    }
  }

  // ----- the guarantees ---------------------------------------------------------------------

  /** In every interleaving: a reader whose two sides have finished was notified at
      least once, and never more than twice; nobody is removed more than once, nor
      without having completed. */
  lemma NotifiedOnceOrTwice(readers: nat, steps: seq<Step>, i: nat)
    requires Exec(readers, steps).Some? && i < readers
    ensures i < |Exec(readers, steps).value.readers|
    ensures var r := Exec(readers, steps).value.readers[i];
            && r.notified <= 2 && r.removed <= 1
            && (r.register == Registered && r.signal == Signalled ==> r.notified >= 1)
            && (r.removed == 1 ==> r.signal != Working)
  {
    InvAlways(readers, steps);
    assert ReaderInv(Exec(readers, steps).value.readers[i]);
  }

  /** Both sides of reader i are about to look for the other. */
  ghost predicate Meeting(s: State, i: nat) {
    i < |s.readers| && s.readers[i].register == Rechecking && s.readers[i].signal == Looking
  }

  ghost predicate MetWithin(readers: nat, steps: seq<Step>, i: nat) {
    exists n :: 0 <= n <= |steps| && Exec(readers, steps[..n]).Some? && Meeting(Exec(readers, steps[..n]).value, i)
  }

  /** How often a reader was notified: by each side that looked, if they met; otherwise
      once, by the side that came second, as soon as it looked. */
  function Notifications(r: Reader, met: bool): nat {
    if met then (if r.register == Registered then 1 else 0) + (if r.signal == Signalled then 1 else 0)
    else if r.register == Registered && r.signal == Signalled then 1 else 0
  }

  lemma MetLater(readers: nat, steps: seq<Step>, i: nat)
    requires steps != [] && Exec(readers, steps).Some?
    ensures MetWithin(readers, steps, i) <==> MetWithin(readers, steps[..|steps|-1], i) || Meeting(Exec(readers, steps).value, i)
  {
    var init := steps[..|steps|-1];
    assert steps[..|steps|] == steps;
    if n :| 0 <= n <= |steps| && Exec(readers, steps[..n]).Some? && Meeting(Exec(readers, steps[..n]).value, i) {
      if n < |steps| { assert init[..n] == steps[..n]; }
    }
    if n :| 0 <= n <= |init| && Exec(readers, init[..n]).Some? && Meeting(Exec(readers, init[..n]).value, i) {
      assert init[..n] == steps[..n];
    }
  }

  /** Two sides that have not met are not both past their first step, unless both are done. */
  ghost predicate NotifiedInv(r: Reader, met: bool) {
    && r.notified == Notifications(r, met)
    && (met ==> r.register != Storing && r.signal != Working)
    && (r.register == Rechecking && r.signal == Looking ==> met)
  }

  lemma {:induction false} NotifiedAlways(readers: nat, steps: seq<Step>, i: nat)
    requires Exec(readers, steps).Some? && i < readers
    ensures i < |Exec(readers, steps).value.readers|
    ensures NotifiedInv(Exec(readers, steps).value.readers[i], MetWithin(readers, steps, i))
  {
    if steps == [] {
      assert forall n :: 0 <= n <= |steps| ==> steps[..n] == [];
    } else {
      NotifiedAlways(readers, steps[..|steps|-1], i);
      MetLater(readers, steps, i);
    }
  }

  /** A reader whose two sides have finished was notified twice if both sides had done
      their first step before either did its second, and once otherwise. */
  lemma NotifiedTwiceIff(readers: nat, steps: seq<Step>, i: nat)
    requires Exec(readers, steps).Some? && i < |Exec(readers, steps).value.readers|
    requires Exec(readers, steps).value.readers[i].register == Registered && Exec(readers, steps).value.readers[i].signal == Signalled
    ensures Exec(readers, steps).value.readers[i].notified == if MetWithin(readers, steps, i) then 2 else 1
  {
    InvAlways(readers, steps);
    NotifiedAlways(readers, steps, i);
  }

  /** At most one call reports that all readers are gone, and only after every reader
      has completed; `stop` is called at most once. */
  lemma TriggersAtMostOnce(readers: nat, steps: seq<Step>)
    requires Exec(readers, steps).Some?
    ensures var s := Exec(readers, steps).value;
            && s.triggered <= 1 && s.stops <= s.triggered
            && (s.triggered == 1 ==> forall i :: 0 <= i < |s.readers| ==> s.readers[i].signal != Working && s.readers[i].removed == 1)
  {
    InvAlways(readers, steps);
    var s := Exec(readers, steps).value;
    CountBounds(s.readers, Listed);
    forall i | 0 <= i < |s.readers| && s.triggered == 1 ensures s.readers[i].signal != Working && s.readers[i].removed == 1 {
      assert ReaderInv(s.readers[i]);
    }
  }

  // ----- every run ends --------------------------------------------------------------------

  /** Steps that a reader can still cause. */
  function Work(r: Reader): nat {
    (match r.register case Storing => 4 case Rechecking => 2 case Registered => 0) +
    (match r.signal case Working => 4 case Looking => 2 case Signalled => 0) + r.threads
  }

  function TotalWork(readers: seq<Reader>): nat {
    if readers == [] then 0 else TotalWork(readers[..|readers|-1]) + Work(readers[|readers|-1])
  }

  lemma {:induction false} WorkAfterUpdate(readers: seq<Reader>, i: nat, r: Reader)
    requires i < |readers|
    ensures TotalWork(readers[i := r]) == TotalWork(readers) - Work(readers[i]) + Work(r)
  {
    var n := |readers| - 1;
    if i < n {
      WorkAfterUpdate(readers[..n], i, r);
      assert readers[i := r][..n] == readers[..n][i := r];
    } else {
      assert readers[i := r][..n] == readers[..n];
    }
  }

  lemma {:induction false} WorkAtStart(readers: seq<Reader>)
    requires forall i :: 0 <= i < |readers| ==> readers[i] == Reader(Storing, Working, true, 0, 0, 0)
    ensures TotalWork(readers) == 8 * |readers|
  {
    if readers != [] { WorkAtStart(readers[..|readers|-1]); }
  }

  function Measure(s: State): nat { TotalWork(s.readers) + s.toStop + if s.triggered == 0 then 2 else 0 }

  lemma StepLowers(s: State, a: Step)
    requires Inv(s) && Enabled(s, a)
    ensures Measure(Next(s, a)) < Measure(s)
  {
    InvKept(s, a);
    match a
    case Register(i) => WorkAfterUpdate(s.readers, i, RegisterStep(s.readers[i], s.running));
    case Signal(i) => WorkAfterUpdate(s.readers, i, SignalStep(s.readers[i], s.running));
    case Remove(i) => WorkAfterUpdate(s.readers, i, RemoveStep(s.readers[i]));
    case StopIfRunning =>
  }

  lemma {:induction false} StepsAreBounded(readers: nat, steps: seq<Step>)
    requires Exec(readers, steps).Some?
    ensures |steps| + Measure(Exec(readers, steps).value) <= 8 * readers + 2
  {
    if steps == [] {
      WorkAtStart(Init(readers).readers);
    } else {
      var init := steps[..|steps|-1];
      StepsAreBounded(readers, init);
      InvAlways(readers, init);
      StepLowers(Exec(readers, init).value, steps[|steps|-1]);
    }
  }

  /** Only readers that are still at work could go on. */
  ghost predicate AtRest(s: State) {
    forall a :: Enabled(s, a) ==> a.Signal? && s.readers[a.i].signal == Working
  }

  lemma RestingReader(s: State, i: nat)
    requires AtRest(s) && i < |s.readers|
    ensures s.readers[i].register == Registered && s.readers[i].signal != Looking && s.readers[i].threads == 0
  {
    assert !Enabled(s, Register(i)) && !Enabled(s, Remove(i));
    assert Enabled(s, Signal(i)) ==> s.readers[i].signal == Working;
  }

  lemma RestIsComplete(readers: nat, steps: seq<Step>)
    requires Exec(readers, steps).Some? && AtRest(Exec(readers, steps).value)
    ensures var s := Exec(readers, steps).value;
            && (forall i :: 0 <= i < |s.readers| ==> s.readers[i].removed == if s.readers[i].signal == Signalled then 1 else 0)
            && (readers > 0 ==>
                  (s.triggered == 1 && s.stops == 1 && !s.running <==> forall i :: 0 <= i < |s.readers| ==> s.readers[i].signal == Signalled))
  {
    InvAlways(readers, steps);
    var s := Exec(readers, steps).value;
    CountBounds(s.readers, Listed);
    assert !Enabled(s, StopIfRunning);
    forall i | 0 <= i < |s.readers|
      ensures s.readers[i].removed == (if s.readers[i].signal == Signalled then 1 else 0)
      ensures s.readers[i].listed <==> s.readers[i].signal != Signalled
    {
      RestingReader(s, i);
      assert ReaderInv(s.readers[i]);
    }
  }

  /** In every interleaving, after at most a fixed number of steps no thread has a step
      left, and then every reader that completed has been removed exactly once, and if
      all completed the controller was stopped, exactly once. */
  lemma CompletionIsNotLost(readers: nat, steps: seq<Step>)
    requires Exec(readers, steps).Some?
    ensures |steps| <= 8 * readers + 2
    ensures var s := Exec(readers, steps).value;
            AtRest(s) ==>
              && (forall i :: 0 <= i < |s.readers| ==> s.readers[i].removed == if s.readers[i].signal == Signalled then 1 else 0)
              && (readers > 0 ==>
                    (s.triggered == 1 && s.stops == 1 && !s.running <==> forall i :: 0 <= i < |s.readers| ==> s.readers[i].signal == Signalled))
  {
    StepsAreBounded(readers, steps);
    if AtRest(Exec(readers, steps).value) { RestIsComplete(readers, steps); }
  }
}
