/** Loading a configuration from an ordered list of files and assignments
    (src/config/ConfigSource.cpp). */
module ConfigSources {
  import opened Wrappers
  import opened PathSyntax
  import opened ConfigTree
  import opened Assignment
  import opened AssignmentErrors
  import opened Merging
  import opened MergeLaws
  import opened ConfigUpdate

  /** What stands at a name in the file system. */
  datatype Found = File(tree: Tree) | Unparsable | NotRegular | Absent

  type FileSystem = string -> Found

  datatype LoadError =
    | BadFile(source: string)
    | NotReadable(source: string)
    | NotAnAssignment(source: string)
    | IndexRange(source: string) // the number conversion throws past the override error

  /** The position of the first `=`; the length when there is none. */
  function EqualsAt(s: string): (n: nat)
    ensures n <= |s| && '=' !in s[..n] && (n < |s| ==> s[n] == '=')
  {
    if s == "" || s[0] == '=' then 0 else
      var n := EqualsAt(s[1..]);
      assert s[..n + 1] == [s[0]] + s[1..][..n];
      n + 1
  }

  /** The effect of a PATH=VALUE source. */
  function AssignStep(t: Tree, source: string): Result<Tree, LoadError> {
    var n := EqualsAt(source);
    if n == |source| || n == 0 then Err(NotAnAssignment(source))
    else AssignParsed(t, source, Parse(source[..n]), source[n + 1..])
  }

  function AssignParsed(t: Tree, source: string, path: Result<seq<Segment>, PathError>, value: string): Result<Tree, LoadError> {
    match path
    case Err(IndexTooLarge) => Err(IndexRange(source))
    case Err(_) => Err(NotAnAssignment(source))
    case Ok(segments) =>
      if segments == [] then Err(NotAnAssignment(source))
      else
        var o := Assign(t, segments, value, true);
        if o.error.Some? then Err(NotAnAssignment(source)) else Ok(o.node)
  }

  /** The effect of one source on the configuration read so far. */
  function LoadStep(t: Tree, source: string, fs: FileSystem): Result<Tree, LoadError> {
    match fs(source)
    case File(tree) => Ok(Merge(t, tree))
    case Unparsable => Err(BadFile(source))
    case NotRegular => Err(NotReadable(source))
    case Absent => AssignStep(t, source)
  }

  function LoadAll(t: Tree, sources: seq<string>, fs: FileSystem): Result<Tree, LoadError> {
    if sources == [] then Ok(t)
    else
      var before := LoadAll(t, sources[..|sources|-1], fs);
      if before.Err? then before else LoadStep(before.value, sources[|sources|-1], fs)
  }

  /** One source, applied in place. */
  method LoadSource(merged: Config, source: string, fs: FileSystem) returns (failed: Option<LoadError>)
    modifies merged
    ensures var r := LoadStep(old(merged.root), source, fs);
            if r.Ok? then failed == None && merged.root == r.value else failed == Some(r.error)
  {
    match fs(source)
    case File(tree) =>
      merged.MergeNode([], tree);
      return None;
    case Unparsable => return Some(BadFile(source));
    case NotRegular => return Some(NotReadable(source));
    case Absent => failed := AssignSource(merged, source);
  }

  method AssignSource(merged: Config, source: string) returns (failed: Option<LoadError>)
    modifies merged
    ensures var r := AssignStep(old(merged.root), source);
            if r.Ok? then failed == None && merged.root == r.value else failed == Some(r.error)
  {
    var n := EqualsAt(source);
    if n == |source| || n == 0 { return Some(NotAnAssignment(source)); }
    var error := merged.ApplyOverride(source[..n], source[n + 1..], true);
    if error.None? { return None; }
    return Some(if error.value == BadPath(IndexTooLarge) then IndexRange(source) else NotAnAssignment(source));
  }

  /** The loop over the sources; `config.yaml` when none is given. */
  method LoadMerged(sources: seq<string>, fs: FileSystem) returns (r: Result<Tree, LoadError>)
    ensures r == LoadAll(Map([]), if sources == [] then ["config.yaml"] else sources, fs)
  {
    var effective := if |sources| == 0 then ["config.yaml"] else sources;
    var merged := new Config(Map([]));
    for i := 0 to |effective|
      invariant LoadAll(Map([]), effective[..i], fs) == Ok(merged.root)
    {
      assert effective[..i + 1][..i] == effective[..i];
      FailureStays(Map([]), effective, i + 1, fs);
      var failed := LoadSource(merged, effective[i], fs);
      if failed.Some? { return Err(failed.value); }
    }
    assert effective[..|effective|] == effective;
    return Ok(merged.root);
  }

  lemma {:induction false} FailureStays(t: Tree, sources: seq<string>, n: nat, fs: FileSystem)
    requires n <= |sources|
    ensures LoadAll(t, sources[..n], fs).Err? ==> LoadAll(t, sources, fs) == LoadAll(t, sources[..n], fs)
  {
    if n < |sources| {
      FailureStays(t, sources[..|sources|-1], n, fs);
      assert sources[..|sources|-1][..n] == sources[..n];
    } else {
      assert sources[..n] == sources;
    }
  }

  /** A file that comes last decides every scalar and sequence it names. */
  lemma LastFileWins(t: Tree, sources: seq<string>, fs: FileSystem, path: seq<string>)
    requires sources != [] && fs(sources[|sources|-1]).File? && LoadAll(t, sources, fs).Ok?
    requires WellKeyed(fs(sources[|sources|-1]).tree)
    requires Lookup(fs(sources[|sources|-1]).tree, path).Some? && !Lookup(fs(sources[|sources|-1]).tree, path).value.Map?
    ensures Lookup(LoadAll(t, sources, fs).value, path) == Lookup(fs(sources[|sources|-1]).tree, path)
  {
    RightBias(LoadAll(t, sources[..|sources|-1], fs).value, fs(sources[|sources|-1]).tree, path);
  }

  /** The value of a scalar by its path. */
  function ValueAt(t: Tree, segments: seq<Segment>): Option<string>
    requires segments != []
  {
    var p := Resolve(t, segments);
    if p.Some? then Scalar(t, p.value) else None
  }

  lemma AssignedIsRead(t: Tree, source: string, path: Result<seq<Segment>, PathError>, value: string)
    requires AssignParsed(t, source, path, value).Ok?
    ensures path.Ok? && path.value != [] && ValueAt(AssignParsed(t, source, path, value).value, path.value) == Some(value)
  {
    GetAfterSet(t, path.value, value, true);
  }

  /** An assignment that comes last can be read back. */
  lemma LastAssignmentWins(t: Tree, sources: seq<string>, fs: FileSystem)
    requires sources != [] && fs(sources[|sources|-1]).Absent? && LoadAll(t, sources, fs).Ok?
    ensures var source, after := sources[|sources|-1], LoadAll(t, sources, fs).value;
            var n := EqualsAt(source);
            && n < |source| && Parse(source[..n]).Ok? && Parse(source[..n]).value != []
            && ValueAt(after, Parse(source[..n]).value) == Some(source[n + 1..])
  {
    var source := sources[|sources|-1];
    var n := EqualsAt(source);
    AssignedIsRead(LoadAll(t, sources[..|sources|-1], fs).value, source, Parse(source[..n]), source[n + 1..]);
  }

  /** Two files in a row may be merged beforehand exactly when merging associates. */
  lemma FilesMayBeMergedFirst(t: Tree, first: string, second: string, fs: FileSystem)
    requires fs(first).File? && fs(second).File?
    requires WellKeyed(t) && WellKeyed(fs(first).tree) && WellKeyed(fs(second).tree)
    ensures LoadAll(t, [first, second], fs) == Ok(Merge(t, Merge(fs(first).tree, fs(second).tree)))
            <==> Associates(t, fs(first).tree, fs(second).tree)
  {
    var both := [first, second];
    assert both[..|both|-1] == [first] && [first][..0] == [];
    assert LoadAll(t, [first], fs) == Ok(Merge(t, fs(first).tree));
    assert LoadAll(t, both, fs) == Ok(Merge(Merge(t, fs(first).tree), fs(second).tree));
    AssociativityIff(t, fs(first).tree, fs(second).tree);
  }

  // ----- when a source loads ------------------------------------------------------------

  lemma {:induction false} EqualsBehind(path: string, value: string)
    requires '=' !in path
    ensures EqualsAt(path + "=" + value) == |path|
  {
    if path == "" {
      assert (path + "=" + value)[0] == '=';
    } else {
      EqualsBehind(path[1..], value);
      assert (path + "=" + value)[1..] == path[1..] + "=" + value;
    }
  }

  /** The path reaches its last node by n segments, and may be assigned from there with
      sequences growing. */
  predicate MayAssign(t: Tree, segments: seq<Segment>, n: nat) {
    StopsAfter(t, segments, n) && Verdict(Reached(t, segments, n).value, n == 0, segments[n..], true).None?
  }

  /** A source of the form PATH=VALUE applies exactly when its path parses to at least
      one segment and the path's last node admits the assignment, new keys and new
      sequence items allowed; an index out of range is reported as such. */
  lemma AssignmentAppliesIff(t: Tree, path: string, value: string, n: nat)
    requires '=' !in path && (Parse(path).Ok? ==> StopsAfter(t, Parse(path).value, n))
    ensures AssignStep(t, path + "=" + value).Ok? <==> path != "" && Parse(path).Ok? && Parse(path).value != [] && MayAssign(t, Parse(path).value, n)
    ensures AssignStep(t, path + "=" + value) == Err(IndexRange(path + "=" + value)) <==> path != "" && Parse(path) == Err(IndexTooLarge)
  {
    var source := path + "=" + value;
    EqualsBehind(path, value);
    assert source[..|path|] == path && source[|path| + 1..] == value;
    if Parse(path).Ok? && Parse(path).value != [] { AssignmentVerdict(t, Parse(path).value, value, true, n); }
  }

  /** A source that is no file applies only if it has that form. */
  lemma AssignmentForm(t: Tree, source: string)
    requires AssignStep(t, source).Ok?
    ensures exists path, value :: '=' !in path && source == path + "=" + value
  {
    var n := EqualsAt(source);
    assert source == source[..n] + "=" + source[n + 1..];
  }

  /** Below a key that the map does not have, every assignment applies. */
  lemma NewKeyApplies(t: Tree, path: string, value: string)
    requires '=' !in path && path != "" && Parse(path).Ok? && Parse(path).value != []
    requires t.Map? && forall i :: 0 <= i < |t.entries| ==> t.entries[i].key != Parse(path).value[0].key
    ensures AssignStep(t, path + "=" + value).Ok?
  {
    var source := path + "=" + value;
    EqualsBehind(path, value);
    assert source[..|path|] == path && source[|path| + 1..] == value;
    FreshKeyIff(t, Parse(path).value, value, true);
  }

  /** A source is a file that can be read, or names nothing that exists and applies as
      an assignment. */
  predicate Applies(before: Result<Tree, LoadError>, source: string, fs: FileSystem) {
    before.Ok? && (fs(source).File? || (fs(source).Absent? && AssignStep(before.value, source).Ok?))
  }

  lemma LastApplies(t: Tree, sources: seq<string>, fs: FileSystem)
    requires sources != []
    ensures var before, last := LoadAll(t, sources[..|sources|-1], fs), sources[|sources|-1];
            && (LoadAll(t, sources, fs).Ok? <==> Applies(before, last, fs))
            && (before.Ok? && fs(last).NotRegular? ==> LoadAll(t, sources, fs) == Err(NotReadable(last)))
            && (before.Ok? && fs(last).Unparsable? ==> LoadAll(t, sources, fs) == Err(BadFile(last)))
  {
  }

  /** The first n sources apply, each to what those before it gave. */
  predicate AllApply(t: Tree, sources: seq<string>, n: nat, fs: FileSystem)
    requires n <= |sources|
  {
    n == 0 || (AllApply(t, sources, n - 1, fs) && Applies(LoadAll(t, sources[..n - 1], fs), sources[n - 1], fs))
  }

  /** A list of sources loads exactly when every one of them applies. */
  lemma {:induction false} LoadsIff(t: Tree, sources: seq<string>, n: nat, fs: FileSystem)
    requires n <= |sources|
    ensures LoadAll(t, sources[..n], fs).Ok? <==> AllApply(t, sources, n, fs)
  {
    if n > 0 {
      LoadsIff(t, sources, n - 1, fs);
      assert sources[..n][..n - 1] == sources[..n - 1];
      LastApplies(t, sources[..n], fs);
    }
  }
}
