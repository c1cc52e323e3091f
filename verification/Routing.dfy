/** Batches on the bus and the table that decides which writer receives them
    (include/util/bus/IDataBus.h, src/controller/RouteTable.cpp). */
module Routing {
  import opened Wrappers
  import opened Sequences

  /** The payload alternatives of a batch, with the fields the bus looks at;
      `body` stands for everything the bus only carries. */
  datatype Payload =
    | TimeSeries(rootSourceName: string, frames: nat, endOfBatchGroup: bool, body: nat)
    | SourceMetadata(rootSourceName: string, body: nat)
    | Configuration(rootSourceName: string, body: nat)
    | ConfigurationActivation(configurationName: string, body: nat)

  datatype Batch = Batch(readerName: string, payload: Payload)

  /** The identity used for routing: the configuration name for an activation,
      the root source name for every other payload. */
  function RootSource(b: Batch): string {
    match b.payload
    case ConfigurationActivation(name, _) => name
    case _ => b.payload.rootSourceName
  }

  /** Batches that `push` refuses before it touches the queue. */
  predicate Malformed(b: Batch) {
    || RootSource(b) == ""
    || (b.payload.TimeSeries? && b.payload.frames == 0 && !b.payload.endOfBatchGroup)
  }

  /** What push lets through, alternative by alternative: a name, and for a time
      series a frame or the mark that ends a batch group. */
  lemma WellFormedBatches(b: Batch)
    ensures !Malformed(b) <==>
            match b.payload
            case TimeSeries(source, frames, last, _) => source != "" && (frames > 0 || last)
            case SourceMetadata(source, _) => source != ""
            case Configuration(source, _) => source != ""
            case ConfigurationActivation(configuration, _) => configuration != ""
  {
  }

  /** Shell pattern matching is a parameter: `glob(pattern, name)`. */
  type Glob = (string, string) -> bool

  datatype RouteEntry = RouteEntry(
    writerName: string, fromReaders: seq<string>,
    includePatterns: seq<string>, excludePatterns: seq<string>)

  datatype WriterRoute = WriterRoute(
    readers: set<string>, acceptAll: bool,
    includePatterns: seq<string>, excludePatterns: seq<string>)

  datatype RouteTable = RouteTable(allToAll: bool, table: map<string, WriterRoute>)

  datatype BuildError = UnknownWriter(name: string) | UnknownReader(writer: string, reader: string)

  predicate Accepts(rt: RouteTable, writer: string, reader: string) {
    rt.allToAll ||
    (writer in rt.table && (rt.table[writer].acceptAll || reader in rt.table[writer].readers))
  }

  predicate MatchesAny(glob: Glob, patterns: seq<string>, source: string) {
    exists pat :: pat in patterns && glob(pat, source)
  }

  predicate AcceptsSource(rt: RouteTable, glob: Glob, writer: string, source: string) {
    rt.allToAll ||
    (writer in rt.table &&
     var wr := rt.table[writer];
     (wr.includePatterns == [] || MatchesAny(glob, wr.includePatterns, source)) &&
     !MatchesAny(glob, wr.excludePatterns, source))
  }

  /** The loop of `acceptsSource`, with its early exits. */
  method ComputeAcceptsSource(rt: RouteTable, glob: Glob, writer: string, source: string) returns (ok: bool)
    ensures ok == AcceptsSource(rt, glob, writer, source)
  {
    if rt.allToAll { return true; }
    if writer !in rt.table { return false; }
    var wr := rt.table[writer];
    if wr.includePatterns != [] {
      var hit := false;
      var i := 0;
      while i < |wr.includePatterns| && !hit
        invariant 0 <= i <= |wr.includePatterns|
        invariant hit ==> MatchesAny(glob, wr.includePatterns, source)
        invariant !hit ==> forall k :: 0 <= k < i ==> !glob(wr.includePatterns[k], source)
      {
        if glob(wr.includePatterns[i], source) { hit := true; }
        i := i + 1;
      }
      if !hit { return false; }
    }
    for i := 0 to |wr.excludePatterns|
      invariant forall k :: 0 <= k < i ==> !glob(wr.excludePatterns[k], source)
    {
      if glob(wr.excludePatterns[i], source) { return false; }
    }
    return true;
  }

  // ----- building the table ------------------------------------------------

  /** Every name an entry mentions is known ("all" is a keyword, not a reader). */
  predicate EntryKnown(e: RouteEntry, readers: set<string>, writers: set<string>) {
    e.writerName in writers && forall r :: r in e.fromReaders && r != "all" ==> r in readers
  }

  /** Position of the first entry for a writer, or |routes| when there is none. */
  function FirstFor(routes: seq<RouteEntry>, w: string): (i: nat)
    ensures i <= |routes|
    ensures i < |routes| ==> routes[i].writerName == w
    ensures forall j :: 0 <= j < i ==> routes[j].writerName != w
  {
    var wanted := (r: RouteEntry) => r.writerName == w;
    NoneBefore(routes, wanted);
    FirstIndex(routes, wanted)
  }

  /** The route one entry describes. */
  ghost predicate RouteOf(e: RouteEntry, wr: WriterRoute) {
    && wr.includePatterns == e.includePatterns
    && wr.excludePatterns == e.excludePatterns
    && (wr.acceptAll <==> "all" in e.fromReaders)
    && (forall r :: r in wr.readers <==> r in e.fromReaders && r != "all")
  }

  /** The table holds exactly the writers that have an entry, each with the
      route of its first entry: later entries for the same writer are ignored. */
  ghost predicate TableOf(routes: seq<RouteEntry>, table: map<string, WriterRoute>) {
    && (forall w :: w in table <==> FirstFor(routes, w) < |routes|)
    && (forall w :: w in table ==> RouteOf(routes[FirstFor(routes, w)], table[w]))
  }

  /** The reader at k is the first of an entry that is not known. */
  ghost predicate FirstUnknown(e: RouteEntry, readers: set<string>, k: int) {
    0 <= k < |e.fromReaders| && e.fromReaders[k] != "all" && e.fromReaders[k] !in readers &&
    forall j :: 0 <= j < k && e.fromReaders[j] != "all" ==> e.fromReaders[j] in readers
  }

  /** What is reported about an entry: its writer, or the first reader that is not known. */
  ghost predicate Reports(e: RouteEntry, readers: set<string>, writers: set<string>, error: BuildError) {
    if e.writerName !in writers then error == UnknownWriter(e.writerName)
    else exists k :: FirstUnknown(e, readers, k) && error == UnknownReader(e.writerName, e.fromReaders[k])
  }

  method CollectReaders(e: RouteEntry, knownReaders: set<string>) returns (res: Result<WriterRoute, BuildError>)
    ensures res.Ok? <==> forall r :: r in e.fromReaders && r != "all" ==> r in knownReaders
    ensures res.Ok? ==> RouteOf(e, res.value)
    ensures res.Err? ==> exists k :: FirstUnknown(e, knownReaders, k) && res.error == UnknownReader(e.writerName, e.fromReaders[k])
  {
    var acceptAll, names := false, {};
    for i := 0 to |e.fromReaders|
      invariant acceptAll <==> "all" in e.fromReaders[..i]
      invariant forall r :: r in names <==> r in e.fromReaders[..i] && r != "all"
      invariant forall r :: r in e.fromReaders[..i] && r != "all" ==> r in knownReaders
    {
      if e.fromReaders[i] == "all" {
        acceptAll := true;
      } else {
        if e.fromReaders[i] !in knownReaders {
          assert forall j :: 0 <= j < i ==> e.fromReaders[j] in e.fromReaders[..i];
          assert FirstUnknown(e, knownReaders, i);
          return Err(UnknownReader(e.writerName, e.fromReaders[i]));
        }
        names := names + {e.fromReaders[i]};
      }
    }
    assert e.fromReaders[..|e.fromReaders|] == e.fromReaders;
    return Ok(WriterRoute(names, acceptAll, e.includePatterns, e.excludePatterns));
  }

  method Build(routes: seq<RouteEntry>, knownReaders: set<string>, knownWriters: set<string>)
    returns (res: Result<RouteTable, BuildError>)
    ensures res.Ok? <==> forall i :: 0 <= i < |routes| ==> EntryKnown(routes[i], knownReaders, knownWriters)
    ensures res.Ok? ==> (res.value.allToAll <==> routes == []) && TableOf(routes, res.value.table)
    ensures res.Err? ==> exists i :: 0 <= i < |routes| && Reports(routes[i], knownReaders, knownWriters, res.error) &&
                           forall j :: 0 <= j < i ==> EntryKnown(routes[j], knownReaders, knownWriters)
  {
    var table: map<string, WriterRoute> := map[];
    if routes == [] { return Ok(RouteTable(true, table)); }
    for i := 0 to |routes|
      invariant forall k :: 0 <= k < i ==> EntryKnown(routes[k], knownReaders, knownWriters)
      invariant TableOf(routes[..i], table)
    {
      var more := AddEntry(routes, i, table, knownReaders, knownWriters);
      if more.Err? { return Err(more.error); }
      table := more.value;
    }
    assert routes[..|routes|] == routes;
    return Ok(RouteTable(false, table));
  }

  /** One iteration of the build loop. */
  method AddEntry(routes: seq<RouteEntry>, i: nat, table: map<string, WriterRoute>, knownReaders: set<string>, knownWriters: set<string>)
    returns (res: Result<map<string, WriterRoute>, BuildError>)
    requires i < |routes| && TableOf(routes[..i], table)
    ensures res.Ok? <==> EntryKnown(routes[i], knownReaders, knownWriters)
    ensures res.Err? ==> Reports(routes[i], knownReaders, knownWriters, res.error)
    ensures res.Ok? ==> TableOf(routes[..i + 1], res.value)
  {
    var e := routes[i];
    if e.writerName !in knownWriters { return Err(UnknownWriter(e.writerName)); }
    var wr := CollectReaders(e, knownReaders);
    if wr.Err? { return Err(wr.error); }
    var after := if e.writerName in table then table else table[e.writerName := wr.value];
    TableExtends(routes, i, table, after, wr.value);
    return Ok(after);
  }

  lemma TableExtends(routes: seq<RouteEntry>, i: nat, before: map<string, WriterRoute>, after: map<string, WriterRoute>, wr: WriterRoute)
    requires i < |routes| && TableOf(routes[..i], before) && RouteOf(routes[i], wr)
    requires after == if routes[i].writerName in before then before else before[routes[i].writerName := wr]
    ensures TableOf(routes[..i+1], after)
  {
    forall w
      ensures w in after <==> FirstFor(routes[..i+1], w) < i + 1
      ensures w in after ==> RouteOf(routes[..i+1][FirstFor(routes[..i+1], w)], after[w])
    {
      WriterExtends(routes, i, before, after, wr, w);
    }
  }

  lemma WriterExtends(routes: seq<RouteEntry>, i: nat, before: map<string, WriterRoute>, after: map<string, WriterRoute>, wr: WriterRoute, w: string)
    requires i < |routes| && RouteOf(routes[i], wr)
    requires w in before <==> FirstFor(routes[..i], w) < i
    requires w in before ==> RouteOf(routes[..i][FirstFor(routes[..i], w)], before[w])
    requires after == if routes[i].writerName in before then before else before[routes[i].writerName := wr]
    ensures w in after <==> FirstFor(routes[..i+1], w) < i + 1
    ensures w in after ==> RouteOf(routes[..i+1][FirstFor(routes[..i+1], w)], after[w])
  {
    FirstForExtends(routes, i, w);
  }

  lemma FirstForExtends(routes: seq<RouteEntry>, i: nat, w: string)
    requires i < |routes|
    ensures FirstFor(routes[..i+1], w) ==
            if FirstFor(routes[..i], w) < i then FirstFor(routes[..i], w) else if w == routes[i].writerName then i else i + 1
  {
    var f0, f1 := FirstFor(routes[..i], w), FirstFor(routes[..i+1], w);
    assert f1 < i ==> routes[..i][f1] == routes[..i+1][f1];
    assert f0 < i ==> routes[..i][f0] == routes[..i+1][f0];
  }

  // ----- what the built table means -----------------------------------------

  /** The entry at i is the first one for a writer. */
  ghost predicate FirstEntry(routes: seq<RouteEntry>, i: int, writer: string) {
    0 <= i < |routes| && routes[i].writerName == writer && forall j :: 0 <= j < i ==> routes[j].writerName != writer
  }

  lemma OnlyFirstEntry(routes: seq<RouteEntry>, writer: string)
    ensures forall i :: FirstEntry(routes, i, writer) <==> i == FirstFor(routes, writer) < |routes|
  {
    var f := FirstFor(routes, writer);
    forall i | FirstEntry(routes, i, writer) ensures i == f < |routes| {
      assert f < |routes| ==> routes[f].writerName == writer;
    }
  }

  /** Without routes every writer accepts everything; otherwise a writer accepts what
      its first entry lists by name or with `all`, and nothing when it has no entry. */
  lemma AcceptsByFirstEntry(routes: seq<RouteEntry>, rt: RouteTable, writer: string, reader: string)
    requires (rt.allToAll <==> routes == []) && TableOf(routes, rt.table)
    ensures Accepts(rt, writer, reader) <==>
            routes == [] || exists i :: FirstEntry(routes, i, writer) && ("all" in routes[i].fromReaders || reader in routes[i].fromReaders)
  {
    OnlyFirstEntry(routes, writer);
  }

  /** A writer accepts the sources that its first entry includes, all of them when it
      names no include pattern, and does not exclude. */
  lemma SourceByFirstEntry(routes: seq<RouteEntry>, rt: RouteTable, glob: Glob, writer: string, source: string)
    requires (rt.allToAll <==> routes == []) && TableOf(routes, rt.table)
    ensures AcceptsSource(rt, glob, writer, source) <==>
            routes == [] ||
            exists i :: FirstEntry(routes, i, writer)
                        && (routes[i].includePatterns == [] || exists p :: p in routes[i].includePatterns && glob(p, source))
                        && !exists p :: p in routes[i].excludePatterns && glob(p, source)
  {
    OnlyFirstEntry(routes, writer);
  }
}
