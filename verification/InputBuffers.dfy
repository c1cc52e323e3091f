/** The alignment buffer of a processor, its all-updated trigger, and the loop that
    drives it (src/processor/InputBuffer.cpp, src/processor/ChannelProcessor.cpp). */
module InputBuffers {
  import opened Wrappers
  import opened Sequences
  import opened SampleWindow
  import opened ReferenceTime

  datatype Trigger = ANY_UPDATE | ALL_UPDATES | INTERVAL

  datatype Snapshot = Snapshot(channels: map<string, DataBatch>, time: Timestamp)

  /** One payload: the frames of a source. */
  datatype Payload = Payload(source: string, frames: seq<DataBatch>)

  function Elements(xs: seq<string>): set<string> { set x | x in xs }

  /** With required sources only those are accepted; with none every source is. */
  predicate Accepted(required: seq<string>, source: string) { required == [] || source in required }

  // ----- what the buffer is a function of ------------------------------------------------

  /** The frames accepted from a source. */
  function Received(required: seq<string>, log: seq<Payload>, source: string): seq<DataBatch> {
    if log == [] then []
    else
      var last := log[|log|-1];
      if last.source == source && Accepted(required, source) then Received(required, log[..|log|-1], source) + last.frames
      else Received(required, log[..|log|-1], source)
  }

  lemma ReceivedMore(required: seq<string>, log: seq<Payload>, p: Payload, source: string)
    ensures Received(required, log + [p], source) ==
            if p.source == source && Accepted(required, source) then Received(required, log, source) + p.frames else Received(required, log, source)
  {
    assert (log + [p])[..|log|] == log;
  }

  /** The sources seen so far; only tracked when no source is required. */
  ghost function Seen(required: seq<string>, log: seq<Payload>): set<string> {
    if log == [] || required != [] then {} else Seen(required, log[..|log|-1]) + {log[|log|-1].source}
  }

  /** The sources with a frame in the log. */
  ghost function Updated(required: seq<string>, log: seq<Payload>): set<string> {
    if log == [] then {}
    else
      var last := log[|log|-1];
      Updated(required, log[..|log|-1]) + if Accepted(required, last.source) && last.frames != [] then {last.source} else {}
  }

  lemma FlagsStep(required: seq<string>, log: seq<Payload>, recent: seq<Payload>, p: Payload)
    ensures Updated(required, recent + [p]) == Updated(required, recent) + if Accepted(required, p.source) && p.frames != [] then {p.source} else {}
    ensures Seen(required, log + [p]) == if required == [] then Seen(required, log) + {p.source} else {}
  {
    assert (log + [p])[..|log|] == log && (recent + [p])[..|recent|] == recent;
  }

  /** Every slot is a function of the frames received from its source. */
  ghost predicate SlotsMatch(slots: map<string, DataBatch>, required: seq<string>, alignment: Alignment, depth: nat, log: seq<Payload>) {
    forall s :: SlotMatches(slots, alignment, depth, s, Received(required, log, s))
  }

  ghost predicate SlotMatches(slots: map<string, DataBatch>, alignment: Alignment, depth: nat, s: string, frames: seq<DataBatch>) {
    (s in slots <==> frames != []) && (s in slots ==> slots[s] == Slot(alignment, frames, depth))
  }

  lemma SlotsStay(slots: map<string, DataBatch>, required: seq<string>, alignment: Alignment, depth: nat, log: seq<Payload>, p: Payload)
    requires SlotsMatch(slots, required, alignment, depth, log) && (!Accepted(required, p.source) || p.frames == [])
    ensures SlotsMatch(slots, required, alignment, depth, log + [p])
  {
    forall s ensures SlotMatches(slots, alignment, depth, s, Received(required, log + [p], s)) {
      ReceivedMore(required, log, p, s);
      assert Received(required, log, s) + [] == Received(required, log, s);
    }
  }

  lemma SlotChanges(slots: map<string, DataBatch>, required: seq<string>, alignment: Alignment, depth: nat, log: seq<Payload>, p: Payload, slot: DataBatch)
    requires SlotsMatch(slots, required, alignment, depth, log) && Accepted(required, p.source) && p.frames != []
    requires slot == Slot(alignment, Received(required, log, p.source) + p.frames, depth)
    ensures SlotsMatch(slots[p.source := slot], required, alignment, depth, log + [p])
  {
    forall s
      ensures SlotMatches(slots[p.source := slot], alignment, depth, s, Received(required, log + [p], s))
    {
      ReceivedMore(required, log, p, s);
      SlotUpdated(slots, alignment, depth, s, Received(required, log, s), Received(required, log + [p], s), p, slot);
    }
  }

  /** The slot of any source after one source's slot was replaced. */
  lemma SlotUpdated(slots: map<string, DataBatch>, alignment: Alignment, depth: nat, s: string, before: seq<DataBatch>, after: seq<DataBatch>,
                    p: Payload, slot: DataBatch)
    requires SlotMatches(slots, alignment, depth, s, before) && p.frames != []
    requires if s == p.source then after == before + p.frames && slot == Slot(alignment, after, depth) else after == before
    ensures SlotMatches(slots[p.source := slot], alignment, depth, s, after)
  {
  }

  // ----- what a slot holds -----------------------------------------------------------------

  /** All frames of the payloads of one source, in order. */
  function FramesOf(log: seq<Payload>, source: string): seq<DataBatch> {
    if log == [] then []
    else FramesOf(log[..|log|-1], source) + if log[|log|-1].source == source then log[|log|-1].frames else []
  }

  lemma {:induction false} ReceivedIsFiltered(required: seq<string>, log: seq<Payload>, source: string)
    ensures Received(required, log, source) == if required == [] || source in required then FramesOf(log, source) else []
  {
    if log != [] { ReceivedIsFiltered(required, log[..|log|-1], source); }
  }

  /** Only accepted sources with a frame have a slot. With well-formed frames it holds
      the newest samples of the last frame under LATEST_VALUE, and of everything the
      source sent under every other alignment. */
  lemma SlotContents(slots: map<string, DataBatch>, required: seq<string>, alignment: Alignment, depth: nat, log: seq<Payload>,
                     s: string, shape: seq<Column>)
    requires SlotsMatch(slots, required, alignment, depth, log)
    requires shape != [] && AllWellFormed(FramesOf(log, s), shape)
    ensures var frames := FramesOf(log, s);
            && (s in slots <==> (required == [] || s in required) && frames != [])
            && (s in slots ==>
                  slots[s] == NewestSamples(if alignment == LATEST_VALUE then frames[|frames|-1] else AllSamples(frames, shape), depth))
  {
    var frames := Received(required, log, s);
    ReceivedIsFiltered(required, log, s);
    assert SlotMatches(slots, alignment, depth, s, frames);
    if frames != [] { SlotIsNewest(alignment, frames, shape, depth); }
  }

  /** The flags are functions of what was delivered. */
  ghost predicate FlagsMatch(required: seq<string>, freshSources: set<string>, seenSources: set<string>, log: seq<Payload>, recent: seq<Payload>) {
    && freshSources == Updated(required, recent)
    && seenSources == Seen(required, log)
    && freshSources <= if required == [] then seenSources else Elements(required)
  }

  class InputBuffer {
    const required: seq<string>
    const alignment: Alignment
    const maxDepth: nat
    var slots: map<string, DataBatch>
    var freshSources: set<string>
    var seenSources: set<string>
    /** The payloads since the last `Clear`, and since the last reset of the flags. */
    ghost var log: seq<Payload>
    ghost var recent: seq<Payload>

    ghost predicate Valid()
      reads this
    {
      && SlotsMatch(slots, required, alignment, maxDepth, log)
      && FlagsMatch(required, freshSources, seenSources, log, recent)
    }

    constructor (required: seq<string>, alignment: Alignment, maxDepth: nat)
      ensures Valid() && log == [] && recent == []
      ensures this.required == required && this.alignment == alignment && this.maxDepth == maxDepth
    {
      this.required, this.alignment, this.maxDepth := required, alignment, maxDepth;
      slots, freshSources, seenSources, log, recent := map[], {}, {}, [], [];
    }

    /** Every slot becomes the window over the frames received so far. */
    method Ingest(p: Payload)
      requires Valid()
      modifies this
      ensures Valid() && log == old(log) + [p] && recent == old(recent) + [p]
    {
      BufferFrames(p, log);
      Note(p, log, recent);
      log, recent := log + [p], recent + [p];
    }

    /** The flags of a payload. */
    method Note(p: Payload, ghost logged: seq<Payload>, ghost since: seq<Payload>)
      requires FlagsMatch(required, freshSources, seenSources, logged, since)
      modifies this`freshSources, this`seenSources
      ensures FlagsMatch(required, freshSources, seenSources, logged + [p], since + [p])
    {
      FlagsStep(required, logged, since, p);
      if |required| != 0 && p.source !in required { return; }
      if |required| == 0 { seenSources := seenSources + {p.source}; }
      if |p.frames| != 0 { freshSources := freshSources + {p.source}; }
    }

    /** The slot of an accepted payload with frames. */
    method BufferFrames(p: Payload, ghost logged: seq<Payload>)
      requires SlotsMatch(slots, required, alignment, maxDepth, logged)
      modifies this`slots
      ensures SlotsMatch(slots, required, alignment, maxDepth, logged + [p])
    {
      if (|required| != 0 && p.source !in required) || |p.frames| == 0 {
        SlotsStay(slots, required, alignment, maxDepth, logged, p);
        return;
      }
      ghost var before := Received(required, logged, p.source);
      var slot;
      if alignment == LATEST_VALUE {
        slot := TrimOldestSamples(p.frames[|p.frames|-1], maxDepth);
      } else {
        slot := AbsorbFrames(if p.source in slots then slots[p.source] else EMPTY, before, p.frames, maxDepth);
      }
      SlotChanges(slots, required, alignment, maxDepth, logged, p, slot);
      slots := slots[p.source := slot];
    }

    /** Whether the trigger is met, by the number of fresh sources. */
    method TrySnapshot(trigger: Trigger) returns (snapshot: Option<Snapshot>)
      requires Valid()
      ensures snapshot.Some? <==> Triggers(trigger, required, freshSources, seenSources)
      ensures snapshot.Some? ==> snapshot.value.channels == slots
                                 && exists order :: IsOrder(slots, order) && snapshot.value.time == RefOf(slots, order)
    {
      if trigger == ALL_UPDATES {
        if |required| != 0 {
          if |freshSources| != |required| { return None; }
        } else {
          if |freshSources| != |seenSources| { return None; }
        }
      }
      var time := MaxReferenceTime(slots);
      return Some(Snapshot(slots, time));
    }

    method ResetFreshFlags()
      requires Valid()
      modifies this
      ensures Valid() && log == old(log) && recent == [] && slots == old(slots) && seenSources == old(seenSources)
    {
      freshSources, recent := {}, [];
    }

    method Clear()
      modifies this
      ensures Valid() && log == [] && recent == [] && slots == map[]
    {
      slots, freshSources, seenSources, log, recent := map[], {}, {}, [], [];
    }
  }

  // ----- the trigger -----------------------------------------------------------------------

  predicate Triggers(trigger: Trigger, required: seq<string>, freshSources: set<string>, seenSources: set<string>) {
    trigger == ALL_UPDATES ==> |freshSources| == if required != [] then |required| else |seenSources|
  }

  lemma {:induction false} DistinctSize(xs: seq<string>)
    ensures |Elements(xs)| <= |xs|
    ensures |Elements(xs)| == |xs| <==> Distinct(xs)
  {
    if xs != [] {
      var init, last := xs[..|xs|-1], xs[|xs|-1];
      DistinctSize(init);
      assert xs == init + [last];
      assert Elements(xs) == Elements(init) + {last};
      if last in init { assert Elements(xs) == Elements(init); }
    }
  }

  lemma SubsetOfEqualSize(a: set<string>, b: set<string>)
    requires a <= b
    ensures |a| <= |b| && (|a| == |b| <==> a == b)
  {
    assert b == a + (b - a);
  }

  /** The size test means that every required source is fresh, exactly when the
      configured names are distinct; with a repeated name it never holds. */
  lemma SizeTestIff(required: seq<string>, freshSources: set<string>, seenSources: set<string>)
    requires freshSources <= if required == [] then seenSources else Elements(required)
    ensures Triggers(ALL_UPDATES, required, freshSources, seenSources) <==>
            if required == [] then freshSources == seenSources else Distinct(required) && freshSources == Elements(required)
  {
    DistinctSize(required);
    SubsetOfEqualSize(freshSources, if required == [] then seenSources else Elements(required));
  }

  // ----- driving the buffer ------------------------------------------------------------------

  /** A firing test: of the payloads since the last firing, and of the whole run. */
  type Test = (seq<Payload>, seq<Payload>) -> bool

  /** The test of the all-updated trigger: by size, over the sources updated. */
  ghost function SizeTest(required: seq<string>): Test {
    (recent, run) => Triggers(ALL_UPDATES, required, Updated(required, recent), Seen(required, run))
  }

  /** The payloads since the run last fired. */
  ghost function Recent(test: Test, run: seq<Payload>): (r: seq<Payload>)
    ensures |r| <= |run|
  {
    if run == [] then []
    else
      var recent := Recent(test, run[..|run|-1]) + [run[|run|-1]];
      if test(recent, run) then [] else recent
  }

  /** The last payload of a run makes the processor fire. */
  ghost predicate Fires(test: Test, run: seq<Payload>) { run != [] && Recent(test, run) == [] }

  /** How many payloads came before the ones since the last firing. */
  ghost function LastFire(test: Test, run: seq<Payload>): nat { |run| - |Recent(test, run)| }

  lemma RecentStep(test: Test, run: seq<Payload>, p: Payload)
    ensures var recent := Recent(test, run) + [p];
            && (Fires(test, run + [p]) <==> test(recent, run + [p]))
            && Recent(test, run + [p]) == if Fires(test, run + [p]) then [] else recent
  {
    assert (run + [p])[..|run|] == run;
  }

  lemma {:induction false} RecentIsSuffix(test: Test, run: seq<Payload>)
    ensures Recent(test, run) == run[LastFire(test, run)..]
  {
    if run != [] {
      var init, last := run[..|run|-1], run[|run|-1];
      RecentIsSuffix(test, init);
      if Recent(test, run) != [] {
        var n := LastFire(test, init);
        assert run == init + [last] && run[n..] == init[n..] + [last];
      }
    }
  }

  /** They end with the last payload that fired. */
  lemma {:induction false} LastFireIsLast(test: Test, run: seq<Payload>)
    ensures var n := LastFire(test, run); (n == 0 || Fires(test, run[..n])) && forall m :: n < m <= |run| ==> !Fires(test, run[..m])
  {
    assert run[..|run|] == run;
    if run != [] && Recent(test, run) != [] {
      var init, n := run[..|run|-1], LastFire(test, run);
      LastFireIsLast(test, init);
      assert n == LastFire(test, init) && init[..n] == run[..n];
      forall m | n < m <= |run| ensures !Fires(test, run[..m]) {
        if m < |run| { assert run[..m] == init[..m]; }
      }
    }
  }

  /** The last payload of a run, tested over what came since the previous firing. */
  lemma TestedSinceLastFire(test: Test, run: seq<Payload>)
    requires run != []
    ensures Fires(test, run) <==> test(run[LastFire(test, run[..|run|-1])..], run)
  {
    var init, last := run[..|run|-1], run[|run|-1];
    var n := LastFire(test, init);
    assert run == init + [last] && run[n..] == init[n..] + [last];
    RecentIsSuffix(test, init);
    RecentStep(test, init, last);
  }

  lemma {:induction false} UpdatedIff(required: seq<string>, log: seq<Payload>, s: string)
    ensures s in Updated(required, log) <==>
            Accepted(required, s) && exists k :: 0 <= k < |log| && log[k].source == s && log[k].frames != []
  {
    if log != [] {
      var init := log[..|log|-1];
      UpdatedIff(required, init, s);
      assert forall k :: 0 <= k < |init| ==> init[k] == log[k];
    }
  }

  lemma {:induction false} UpdatedIsSeen(required: seq<string>, run: seq<Payload>, n: nat)
    requires n <= |run|
    ensures Updated(required, run[n..]) <= if required == [] then Seen(required, run) else Elements(required)
  {
    if n < |run| {
      UpdatedIsSeen(required, run[..|run|-1], n);
      assert run[n..][..|run[n..]|-1] == run[..|run|-1][n..];
    } else {
      assert run[n..] == [];
    }
  }

  /** A source has delivered a frame at or after the n-th payload. */
  ghost predicate DeliveredSince(run: seq<Payload>, n: nat, s: string) {
    exists k :: n <= k < |run| && run[k].source == s && run[k].frames != []
  }

  lemma UpdatedSince(required: seq<string>, run: seq<Payload>, n: nat, s: string)
    requires n <= |run|
    ensures s in Updated(required, run[n..]) <==> Accepted(required, s) && DeliveredSince(run, n, s)
  {
    var recent := run[n..];
    UpdatedIff(required, recent, s);
    if k :| n <= k < |run| && run[k].source == s && run[k].frames != [] { assert recent[k - n] == run[k]; }
    if k :| 0 <= k < |recent| && recent[k].source == s && recent[k].frames != [] { assert run[k + n] == recent[k]; }
  }

  /** With required names, a payload fires exactly when they are distinct and every
      required source has delivered a frame since the previous firing. */
  lemma FiresIff(required: seq<string>, run: seq<Payload>)
    requires required != [] && run != []
    ensures Fires(SizeTest(required), run) <==>
            Distinct(required) &&
            forall s :: s in required ==> DeliveredSince(run, LastFire(SizeTest(required), run[..|run|-1]), s)
  {
    var n := LastFire(SizeTest(required), run[..|run|-1]);
    TestedSinceLastFire(SizeTest(required), run);
    UpdatedIsSeen(required, run, n);
    SizeTestIff(required, Updated(required, run[n..]), Seen(required, run));
    forall s | s in required ensures s in Updated(required, run[n..]) <==> DeliveredSince(run, n, s) { UpdatedSince(required, run, n, s); }
    assert Updated(required, run[n..]) == Elements(required) <==> forall s :: s in required ==> s in Updated(required, run[n..]);
  }

  lemma {:induction false} SeenIff(run: seq<Payload>, s: string)
    ensures s in Seen([], run) <==> exists k :: 0 <= k < |run| && run[k].source == s
  {
    if run != [] {
      var init := run[..|run|-1];
      SeenIff(init, s);
      assert forall k :: 0 <= k < |init| ==> init[k] == run[k];
    }
  }

  /** Without required names, a payload fires exactly when every source ever seen,
      even one that only sent empty payloads, has delivered a frame since the
      previous firing. */
  lemma OpenModeFiresIff(run: seq<Payload>)
    requires run != []
    ensures Fires(SizeTest([]), run) <==>
            forall s :: s in Seen([], run) ==> DeliveredSince(run, LastFire(SizeTest([]), run[..|run|-1]), s)
  {
    var n := LastFire(SizeTest([]), run[..|run|-1]);
    TestedSinceLastFire(SizeTest([]), run);
    UpdatedIsSeen([], run, n);
    SizeTestIff([], Updated([], run[n..]), Seen([], run));
    forall s ensures s in Updated([], run[n..]) <==> DeliveredSince(run, n, s) { UpdatedSince([], run, n, s); }
    assert Updated([], run[n..]) == Seen([], run) <==> forall s :: s in Seen([], run) ==> s in Updated([], run[n..]);
  }

  /** A repeated required name silences the processor for good. */
  lemma RepeatedNameNeverFires(required: seq<string>, run: seq<Payload>)
    requires required != [] && !Distinct(required)
    ensures !Fires(SizeTest(required), run)
  {
    if run != [] {
      var n := LastFire(SizeTest(required), run[..|run|-1]);
      TestedSinceLastFire(SizeTest(required), run);
      UpdatedIsSeen(required, run, n);
      SizeTestIff(required, Updated(required, run[n..]), Seen(required, run));
    }
  }

  /** It fails for a source named twice, which alone has delivered and does not fire. */
  lemma TwiceNamedSilences(source: string, p: Payload)
    requires p.source == source && p.frames != []
    ensures var required := [source, source];
            (forall s :: s in required ==> DeliveredSince([p], 0, s)) && !Fires(SizeTest(required), [p])
  {
    var required := [source, source];
    assert [p][0].source == source && required[0] == required[1];
    DistinctAt(required);
    RepeatedNameNeverFires(required, [p]);
  }

  /** What a processor does with one batch: ingest, test the trigger, reset the flags. */
  class Processor {
    const trigger: Trigger
    const buffer: InputBuffer
    ghost var run: seq<Payload>

    ghost predicate Valid()
      reads this, buffer
    {
      && buffer.Valid()
      && buffer.log == run
      && (trigger == ALL_UPDATES ==> buffer.recent == Recent(SizeTest(buffer.required), run))
    }

    constructor (trigger: Trigger, buffer: InputBuffer)
      requires buffer.Valid() && buffer.log == [] && buffer.recent == []
      ensures Valid() && run == [] && this.trigger == trigger && this.buffer == buffer
    {
      this.trigger, this.buffer := trigger, buffer;
      run := [];
    }

    method ProcessTask(p: Payload) returns (fired: Option<Snapshot>)
      requires Valid()
      modifies this, buffer
      ensures Valid() && run == old(run) + [p]
      ensures fired.Some? <==> trigger == ANY_UPDATE || (trigger == ALL_UPDATES && Fires(SizeTest(buffer.required), run))
      ensures fired.Some? ==> fired.value.channels == buffer.slots
                              && exists order :: IsOrder(buffer.slots, order) && fired.value.time == RefOf(buffer.slots, order)
    {
      RecentStep(SizeTest(buffer.required), run, p);
      run := run + [p];
      buffer.Ingest(p);
      if trigger == INTERVAL { return None; }
      fired := buffer.TrySnapshot(trigger);
      if fired.None? { return; }
      buffer.ResetFreshFlags();
    }
  }

  /** The snapshot of a processor that fired: for every source, the newest samples of
      what it sent in the whole run. */
  lemma SnapshotContents(p: Processor, fired: Snapshot, s: string, shape: seq<Column>)
    requires p.Valid() && fired.channels == p.buffer.slots
    requires shape != [] && AllWellFormed(FramesOf(p.run, s), shape)
    ensures var frames, required, depth := FramesOf(p.run, s), p.buffer.required, p.buffer.maxDepth;
            && (s in fired.channels <==> (required == [] || s in required) && frames != [])
            && (s in fired.channels ==>
                  fired.channels[s] ==
                  NewestSamples(if p.buffer.alignment == LATEST_VALUE then frames[|frames|-1] else AllSamples(frames, shape), depth))
  {
    SlotContents(p.buffer.slots, p.buffer.required, p.buffer.alignment, p.buffer.maxDepth, p.run, s, shape);
  }
}
