/** Buffered samples of one source: appending frames and dropping the oldest samples
    (src/processor/InputBuffer.cpp). */
module SampleWindow {
  const UINT64_LIMIT: int := 0x1_0000_0000_0000_0000

  type UInt64 = x: int | 0 <= x < UINT64_LIMIT

  datatype Timestamp = Timestamp(seconds: UInt64, nanos: UInt64)

  /** A named column; `kind` is the alternative its sample vector holds. */
  datatype Column = Column(name: string, kind: nat, values: seq<int>)

  /** `enums` are the enum columns, which buffering neither extends nor trims. */
  datatype DataBatch = DataBatch(timestamps: seq<Timestamp>, columns: seq<Column>, enums: seq<seq<int>>)

  const EMPTY: DataBatch := DataBatch([], [], [])

  /** Accumulating alignments keep a window of samples, LATEST_VALUE the last frame. */
  datatype Alignment = LATEST_VALUE | ALL_UPDATED | INTERPOLATE

  function DropValues(columns: seq<Column>, n: nat): (r: seq<Column>)
    requires forall c :: c in columns ==> n <= |c.values|
    ensures |r| == |columns| && forall k :: 0 <= k < |r| ==> r[k] == columns[k].(values := columns[k].values[n..])
  {
    seq(|columns|, k requires 0 <= k < |columns| => columns[k].(values := columns[k].values[n..]))
  }

  function ClearValues(columns: seq<Column>): (r: seq<Column>)
    ensures |r| == |columns| && forall k :: 0 <= k < |r| ==> r[k] == columns[k].(values := [])
  {
    seq(|columns|, k requires 0 <= k < |columns| => columns[k].(values := []))
  }

  /** A batch cut to its newest `depth` samples (0: no limit). When a column is too
      short for that, the whole batch is emptied. */
  function Trim(b: DataBatch, depth: nat): DataBatch {
    if depth == 0 || |b.timestamps| <= depth then b
    else
      var drop := |b.timestamps| - depth;
      if exists c :: c in b.columns && |c.values| <= drop
      then b.(timestamps := [], columns := ClearValues(b.columns))
      else b.(timestamps := b.timestamps[drop..], columns := DropValues(b.columns, drop))
  }

  method TrimOldestSamples(b: DataBatch, depth: nat) returns (r: DataBatch)
    ensures r == Trim(b, depth)
  {
    if depth == 0 || |b.timestamps| <= depth { return b; }
    var drop := |b.timestamps| - depth;
    for k := 0 to |b.columns|
      invariant forall c :: c in b.columns[..k] ==> |c.values| > drop
    {
      if |b.columns[k].values| <= drop {
        var cleared: seq<Column> := [];
        for j := 0 to |b.columns|
          invariant |cleared| == j && forall i :: 0 <= i < j ==> cleared[i] == b.columns[i].(values := [])
        {
          cleared := cleared + [b.columns[j].(values := [])];
        }
        assert cleared == ClearValues(b.columns);
        return b.(timestamps := [], columns := cleared);
      }
    }
    assert b.columns[..|b.columns|] == b.columns;
    var kept: seq<Column> := [];
    for k := 0 to |b.columns|
      invariant |kept| == k && forall i :: 0 <= i < k ==> kept[i] == b.columns[i].(values := b.columns[i].values[drop..])
    {
      kept := kept + [b.columns[k].(values := b.columns[k].values[drop..])];
    }
    assert kept == DropValues(b.columns, drop);
    return b.(timestamps := b.timestamps[drop..], columns := kept);
  }

  /** The columns of a slot after one more frame: equal counts append column by
      column, a different kind replaces the samples, other counts are ignored. */
  function JoinColumns(slot: seq<Column>, frame: seq<Column>): seq<Column> {
    if slot == [] then frame
    else if |slot| != |frame| then slot
    else seq(|slot|, k requires 0 <= k < |slot| => JoinColumn(slot[k], frame[k]))
  }

  function JoinColumn(c: Column, more: Column): Column {
    if c.kind == more.kind then c.(values := c.values + more.values) else c.(kind := more.kind, values := more.values)
  }

  /** The slot with one more frame appended, before it is trimmed. */
  function Grown(slot: DataBatch, frame: DataBatch): DataBatch {
    slot.(columns := JoinColumns(slot.columns, frame.columns), timestamps := slot.timestamps + frame.timestamps)
  }

  /** One frame: appended, then trimmed. */
  function Absorb(slot: DataBatch, frame: DataBatch, depth: nat): DataBatch {
    Trim(Grown(slot, frame), depth)
  }

  /** The slot after a history of frames. */
  function Window(frames: seq<DataBatch>, depth: nat): DataBatch {
    if frames == [] then EMPTY else Absorb(Window(frames[..|frames|-1], depth), frames[|frames|-1], depth)
  }

  function Slot(alignment: Alignment, frames: seq<DataBatch>, depth: nat): DataBatch
    requires frames != []
  {
    if alignment == LATEST_VALUE then Trim(frames[|frames|-1], depth) else Window(frames, depth)
  }

  /** One turn of the frame loop. */
  method AbsorbFrame(slot: DataBatch, frame: DataBatch, depth: nat) returns (r: DataBatch)
    ensures r == Absorb(slot, frame, depth)
  {
    var columns := slot.columns;
    if |columns| == 0 {
      columns := frame.columns;
    } else if |columns| == |frame.columns| {
      for k := 0 to |frame.columns|
        invariant |columns| == |frame.columns|
        invariant forall j :: 0 <= j < |columns| ==> columns[j] == if j < k then JoinColumn(slot.columns[j], frame.columns[j]) else slot.columns[j]
      {
        var incoming := frame.columns[k];
        if columns[k].kind != incoming.kind {
          columns := columns[k := columns[k].(kind := incoming.kind, values := incoming.values)];
        } else {
          columns := columns[k := columns[k].(values := columns[k].values + incoming.values)];
        }
      }
    }
    assert columns == JoinColumns(slot.columns, frame.columns);
    r := TrimOldestSamples(slot.(columns := columns, timestamps := slot.timestamps + frame.timestamps), depth);
  }

  lemma WindowMore(history: seq<DataBatch>, frames: seq<DataBatch>, f: nat, depth: nat)
    requires f < |frames|
    ensures Window(history + frames[..f + 1], depth) == Absorb(Window(history + frames[..f], depth), frames[f], depth)
  {
    var all := history + frames[..f + 1];
    assert all[..|all|-1] == history + frames[..f] && all[|all|-1] == frames[f];
  }

  /** The frame loop, on one slot. */
  method AbsorbFrames(slot: DataBatch, ghost history: seq<DataBatch>, frames: seq<DataBatch>, depth: nat) returns (r: DataBatch)
    requires slot == Window(history, depth)
    ensures r == Window(history + frames, depth)
  {
    r := slot;
    assert history + [] == history;
    for f := 0 to |frames|
      invariant r == Window(history + frames[..f], depth)
    {
      WindowMore(history, frames, f, depth);
      r := AbsorbFrame(r, frames[f], depth);
    }
    assert frames[..|frames|] == frames;
  }

  // ----- the bound, for any frames ------------------------------------------------------------

  /** However malformed the frames are, a slot holds at most `depth` timestamps. */
  lemma SlotBounds(alignment: Alignment, frames: seq<DataBatch>, depth: nat)
    requires frames != [] && depth > 0
    ensures |Slot(alignment, frames, depth).timestamps| <= depth
  {
  }

  /** Too many timestamps: a column with no more values than are to be dropped empties the
      whole batch; otherwise every column loses as many values as there are timestamps
      too many, and none of them becomes empty. */
  lemma TrimKeepsOrEmpties(b: DataBatch, depth: nat)
    requires 0 < depth < |b.timestamps|
    ensures var r, excess := Trim(b, depth), |b.timestamps| - depth;
            && |r.columns| == |b.columns| && r.enums == b.enums
            && |r.timestamps| == (if exists c :: c in b.columns && |c.values| <= excess then 0 else depth)
            && (r.timestamps == [] ==> forall k :: 0 <= k < |r.columns| ==> r.columns[k].values == [])
            && (r.timestamps != [] ==>
                  r.timestamps == b.timestamps[excess..] &&
                  forall k :: 0 <= k < |r.columns| ==>
                    r.columns[k].values != [] && b.columns[k].values == b.columns[k].values[..excess] + r.columns[k].values)
  {
    forall k | 0 <= k < |b.columns| && Trim(b, depth).timestamps != []
      ensures Trim(b, depth).columns[k].values != [] &&
              b.columns[k].values == b.columns[k].values[..|b.timestamps| - depth] + Trim(b, depth).columns[k].values
    {
      assert b.columns[k] in b.columns;
    }
  }

  /** A frame without a depth limit, whatever its shape: a slot without columns takes the
      frame's; with another number of columns only the timestamps are kept; otherwise
      every column is continued, or begun anew when the frame's has another kind. */
  lemma AbsorbAnyFrame(slot: DataBatch, frame: DataBatch)
    ensures var r := Absorb(slot, frame, 0);
            && r.timestamps == slot.timestamps + frame.timestamps && r.enums == slot.enums
            && (slot.columns == [] ==> r.columns == frame.columns)
            && (slot.columns != [] && |slot.columns| != |frame.columns| ==> r.columns == slot.columns)
            && (slot.columns != [] && |slot.columns| == |frame.columns| ==>
                  |r.columns| == |slot.columns| && forall k :: 0 <= k < |r.columns| ==>
                    var was, now, more := slot.columns[k], r.columns[k], frame.columns[k];
                    && now.name == was.name && now.kind == more.kind
                    && |now.values| == (if was.kind == more.kind then |was.values| else 0) + |more.values|
                    && (was.kind == more.kind ==> was.values <= now.values)
                    && more.values == now.values[|now.values| - |more.values|..])
  {
  }

  // ----- the window, for well-formed frames ---------------------------------------------------

  /** Every column has one value for every timestamp. */
  predicate Rectangular(b: DataBatch) { forall c :: c in b.columns ==> |c.values| == |b.timestamps| }

  /** The names and kinds of the columns. */
  predicate Shaped(b: DataBatch, shape: seq<Column>) {
    |b.columns| == |shape| && forall k :: 0 <= k < |shape| ==> b.columns[k].name == shape[k].name && b.columns[k].kind == shape[k].kind
  }

  predicate WellFormed(b: DataBatch, shape: seq<Column>) { Rectangular(b) && Shaped(b, shape) }

  predicate AllWellFormed(frames: seq<DataBatch>, shape: seq<Column>) { forall f :: f in frames ==> WellFormed(f, shape) }

  /** The samples of all frames, in order. */
  function AllSamples(frames: seq<DataBatch>, shape: seq<Column>): DataBatch {
    DataBatch(AllTimestamps(frames), seq(|shape|, k requires 0 <= k < |shape| => Column(shape[k].name, shape[k].kind, AllValues(frames, k))), [])
  }

  function AllTimestamps(frames: seq<DataBatch>): seq<Timestamp> {
    if frames == [] then [] else AllTimestamps(frames[..|frames|-1]) + frames[|frames|-1].timestamps
  }

  function AllValues(frames: seq<DataBatch>, k: nat): seq<int> {
    if frames == [] then []
    else AllValues(frames[..|frames|-1], k) + if k < |frames[|frames|-1].columns| then frames[|frames|-1].columns[k].values else []
  }

  /** The newest `depth` elements; all of them for depth 0. */
  function Newest<T>(xs: seq<T>, depth: nat): seq<T> { if depth == 0 || |xs| <= depth then xs else xs[|xs| - depth..] }

  function NewestSamples(b: DataBatch, depth: nat): DataBatch {
    b.(timestamps := Newest(b.timestamps, depth),
       columns := seq(|b.columns|, k requires 0 <= k < |b.columns| => b.columns[k].(values := Newest(b.columns[k].values, depth))))
  }

  lemma TrimIsNewest(b: DataBatch, depth: nat)
    requires Rectangular(b)
    ensures Trim(b, depth) == NewestSamples(b, depth) && Rectangular(Trim(b, depth))
  {
    var t := NewestSamples(b, depth);
    if depth == 0 || |b.timestamps| <= depth {
      assert forall k :: 0 <= k < |b.columns| ==> b.columns[k] in b.columns && t.columns[k] == b.columns[k];
      assert t.columns == b.columns;
    } else {
      var drop := |b.timestamps| - depth;
      assert forall k :: 0 <= k < |b.columns| ==> b.columns[k] in b.columns && t.columns[k] == b.columns[k].(values := b.columns[k].values[drop..]);
      assert t.columns == DropValues(b.columns, drop);
    }
  }

  /** Cutting before appending loses nothing that survives the next cut. */
  lemma NewestAppend<T>(xs: seq<T>, ys: seq<T>, depth: nat)
    ensures Newest(Newest(xs, depth) + ys, depth) == Newest(xs + ys, depth)
  {
  }

  lemma {:induction false} SamplesLineUp(frames: seq<DataBatch>, shape: seq<Column>, k: nat)
    requires AllWellFormed(frames, shape) && k < |shape|
    ensures |AllValues(frames, k)| == |AllTimestamps(frames)|
  {
    if frames != [] {
      var last := frames[|frames|-1];
      assert last in frames && last.columns[k] in last.columns;
      SamplesLineUp(frames[..|frames|-1], shape, k);
    }
  }

  /** The slot holds the newest samples of some frames. */
  ghost predicate HoldsNewest(slot: DataBatch, frames: seq<DataBatch>, shape: seq<Column>, depth: nat) {
    slot == if frames == [] then EMPTY else NewestSamples(AllSamples(frames, shape), depth)
  }

  lemma AppendedColumns(slot: DataBatch, frames: seq<DataBatch>, shape: seq<Column>, depth: nat)
    requires shape != [] && frames != [] && AllWellFormed(frames, shape)
    requires |frames[|frames|-1].columns| == |shape|
    requires HoldsNewest(slot, frames[..|frames|-1], shape, depth)
    ensures var last := frames[|frames|-1];
            var joined := JoinColumns(slot.columns, last.columns);
            |joined| == |shape| &&
            forall k :: 0 <= k < |shape| ==>
              joined[k] == Column(shape[k].name, shape[k].kind, Newest(AllValues(frames[..|frames|-1], k), depth) + last.columns[k].values)
  {
    var init, last := frames[..|frames|-1], frames[|frames|-1];
    assert last in frames && WellFormed(last, shape);
    forall k | 0 <= k < |shape|
      ensures JoinColumns(slot.columns, last.columns)[k] == Column(shape[k].name, shape[k].kind, Newest(AllValues(init, k), depth) + last.columns[k].values)
    {
      if init == [] { assert [] + last.columns[k].values == last.columns[k].values; }
    }
  }

  /** With one more frame it stays rectangular. */
  lemma GrownIsRectangular(slot: DataBatch, frames: seq<DataBatch>, shape: seq<Column>, depth: nat)
    requires shape != [] && frames != [] && AllWellFormed(frames, shape) && HoldsNewest(slot, frames[..|frames|-1], shape, depth)
    ensures Rectangular(Grown(slot, frames[|frames|-1]))
  {
    var init, last := frames[..|frames|-1], frames[|frames|-1];
    assert last in frames && WellFormed(last, shape);
    AppendedColumns(slot, frames, shape, depth);
    var grown := Grown(slot, last);
    assert slot.timestamps == Newest(AllTimestamps(init), depth);
    forall c | c in grown.columns ensures |c.values| == |grown.timestamps| {
      var k :| 0 <= k < |grown.columns| && grown.columns[k] == c;
      SamplesLineUp(init, shape, k);
      assert last.columns[k] in last.columns;
    }
  }

  /** Its newest samples are those of all frames. */
  lemma GrownSamples(slot: DataBatch, frames: seq<DataBatch>, shape: seq<Column>, depth: nat)
    requires shape != [] && frames != [] && AllWellFormed(frames, shape) && HoldsNewest(slot, frames[..|frames|-1], shape, depth)
    ensures NewestSamples(Grown(slot, frames[|frames|-1]), depth) == NewestSamples(AllSamples(frames, shape), depth)
  {
    var init, last := frames[..|frames|-1], frames[|frames|-1];
    assert last in frames && WellFormed(last, shape);
    AppendedColumns(slot, frames, shape, depth);
    var grown, all := Grown(slot, last), AllSamples(frames, shape);
    NewestAppend(AllTimestamps(init), last.timestamps, depth);
    forall k | 0 <= k < |shape| ensures NewestSamples(grown, depth).columns[k] == NewestSamples(all, depth).columns[k] {
      NewestAppend(AllValues(init, k), last.columns[k].values, depth);
    }
    assert NewestSamples(grown, depth).columns == NewestSamples(all, depth).columns;
  }

  /** Sliding window: with rectangular frames of one column shape, the slot holds the
      newest `depth` samples of everything received, in all columns. */
  lemma {:induction false} WindowIsNewest(frames: seq<DataBatch>, shape: seq<Column>, depth: nat)
    requires frames != [] && shape != [] && AllWellFormed(frames, shape)
    ensures Window(frames, depth) == NewestSamples(AllSamples(frames, shape), depth)
  {
    var init, last := frames[..|frames|-1], frames[|frames|-1];
    var slot := Window(init, depth);
    if init != [] { WindowIsNewest(init, shape, depth); }
    GrownIsRectangular(slot, frames, shape, depth);
    GrownSamples(slot, frames, shape, depth);
    TrimIsNewest(Grown(slot, last), depth);
  }

  /** The window never runs out of step: as many values as timestamps. */
  lemma WindowSize(frames: seq<DataBatch>, shape: seq<Column>, depth: nat)
    requires frames != [] && shape != [] && AllWellFormed(frames, shape)
    ensures Rectangular(Window(frames, depth)) && Shaped(Window(frames, depth), shape)
    ensures |Window(frames, depth).timestamps| ==
            if depth == 0 || |AllTimestamps(frames)| <= depth then |AllTimestamps(frames)| else depth
  {
    WindowIsNewest(frames, shape, depth);
    forall k | 0 <= k < |shape| ensures |Newest(AllValues(frames, k), depth)| == |Newest(AllTimestamps(frames), depth)| {
      SamplesLineUp(frames, shape, k);
    }
  }

  /** The slot of well-formed frames: under LATEST_VALUE the newest samples of the last
      frame alone, under every other alignment those of all frames. */
  lemma SlotIsNewest(alignment: Alignment, frames: seq<DataBatch>, shape: seq<Column>, depth: nat)
    requires frames != [] && shape != [] && AllWellFormed(frames, shape)
    ensures Slot(alignment, frames, depth) ==
            NewestSamples(if alignment == LATEST_VALUE then frames[|frames|-1] else AllSamples(frames, shape), depth)
  {
    assert frames[|frames|-1] in frames;
    TrimIsNewest(frames[|frames|-1], depth);
    WindowIsNewest(frames, shape, depth);
  }
}
