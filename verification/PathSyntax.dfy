/** Dotted configuration paths such as `reader.hdf5[0].file` (src/config/ConfigOverride.cpp). */
module PathSyntax {
  import opened Wrappers

  datatype Segment = Segment(key: string, index: Option<nat>)

  datatype PathError =
    | EmptyPath
    | EmptySegment
    | BadIndex
    | IndexTooLarge // not an override error in the source: the number conversion throws
    | BadSyntax
    | TrailingDot

  const INDEX_LIMIT: nat := 0x1_0000_0000_0000_0000

  predicate IsDigit(c: char) { '0' <= c <= '9' }

  predicate Digits(s: string) { forall c :: c in s ==> IsDigit(c) }

  predicate EndsKey(c: char) { c == '.' || c == '[' }

  /** Characters that may stand in a key: everything but a dot and a bracket that opens. */
  predicate KeyText(s: string) { forall c :: c in s ==> !EndsKey(c) }

  function DigitValue(c: char): nat
    requires IsDigit(c)
  {
    c as int - '0' as int
  }

  function Number(digits: string): nat
    requires Digits(digits)
  {
    if digits == "" then 0
    else 10 * Number(digits[..|digits|-1]) + DigitValue(digits[|digits|-1])
  }

  function Decimal(n: nat): string {
    var digit := ('0' as int + n % 10) as char;
    if n < 10 then [digit] else Decimal(n / 10) + [digit]
  }

  lemma {:induction false} DecimalIsRead(n: nat)
    ensures Digits(Decimal(n)) && Decimal(n) != "" && Number(Decimal(n)) == n
  {
    if n >= 10 {
      DecimalIsRead(n / 10);
      assert Decimal(n)[..|Decimal(n)|-1] == Decimal(n / 10);
    }
  }

  // ----- the grammar --------------------------------------------------------------

  /** A segment as it is spelled: the index may have leading zeros. */
  datatype Spelling = Spelling(key: string, digits: Option<string>)

  predicate WellSpelled(w: Spelling) {
    && w.key != "" && KeyText(w.key)
    && (w.digits.Some? ==> w.digits.value != "" && Digits(w.digits.value) && Number(w.digits.value) < INDEX_LIMIT)
  }

  predicate AllWellSpelled(ws: seq<Spelling>) { forall w :: w in ws ==> WellSpelled(w) }

  function Meaning(w: Spelling): Segment
    requires WellSpelled(w)
  {
    Segment(w.key, if w.digits.Some? then Some(Number(w.digits.value)) else None)
  }

  function Meanings(ws: seq<Spelling>): seq<Segment>
    requires AllWellSpelled(ws)
  {
    if ws == [] then [] else [Meaning(ws[0])] + Meanings(ws[1..])
  }

  function RenderOne(w: Spelling): string { w.key + if w.digits.Some? then "[" + w.digits.value + "]" else "" }

  function Render(ws: seq<Spelling>): string
    decreases |ws|, 0
  {
    if ws == [] then "" else RenderOne(ws[0]) + RenderMore(ws[1..])
  }

  function RenderMore(ws: seq<Spelling>): string
    decreases |ws|, 1
  {
    if ws == [] then "" else "." + Render(ws)
  }

  // ----- parsing --------------------------------------------------------------------

  /** The number of leading characters that belong to a key. */
  function KeyLength(s: string): (n: nat)
    ensures n <= |s| && KeyText(s[..n]) && (n < |s| ==> EndsKey(s[n]))
  {
    if s == "" || EndsKey(s[0]) then 0 else
      var n := KeyLength(s[1..]);
      assert s[..n + 1] == [s[0]] + s[1..][..n];
      n + 1
  }

  function DigitCount(s: string): (n: nat)
    ensures n <= |s| && Digits(s[..n]) && (n < |s| ==> !IsDigit(s[n]))
  {
    if s == "" || !IsDigit(s[0]) then 0 else
      var n := DigitCount(s[1..]);
      assert s[..n + 1] == [s[0]] + s[1..][..n];
      n + 1
  }

  /** A bracketed index, and what follows it. */
  function ParseIndex(s: string): (r: Result<(nat, string), PathError>)
    requires s != ""
    ensures r.Ok? ==> |r.value.1| < |s|
  {
    var d := DigitCount(s[1..]);
    if d == 0 || 1 + d == |s| || s[1 + d] != ']' then Err(BadIndex)
    else if Number(s[1..][..d]) >= INDEX_LIMIT then Err(IndexTooLarge)
    else Ok((Number(s[1..][..d]), s[d + 2..]))
  }

  /** The first segment of a path, and what follows it. */
  function ParseSegment(s: string): (r: Result<(Segment, string), PathError>)
    ensures r.Ok? ==> |r.value.1| < |s|
  {
    var n := KeyLength(s);
    if n == 0 then Err(EmptySegment) else AfterKey(s[..n], s[n..])
  }

  function AfterKey(key: string, rest: string): (r: Result<(Segment, string), PathError>)
    ensures r.Ok? ==> |r.value.1| <= |rest|
  {
    if rest == "" || rest[0] != '[' then Ok((Segment(key, None), rest))
    else match ParseIndex(rest)
      case Err(e) => Err(e)
      case Ok((index, after)) => Ok((Segment(key, Some(index)), after))
  }

  function ParseSegments(s: string): Result<seq<Segment>, PathError>
    requires s != ""
    decreases |s|
  {
    match ParseSegment(s)
    case Err(e) => Err(e)
    case Ok((segment, rest)) =>
      if rest == "" then Ok([segment])
      else if rest[0] != '.' then Err(BadSyntax)
      else if rest == "." then Err(TrailingDot)
      else match ParseSegments(rest[1..])
        case Err(e) => Err(e)
        case Ok(more) => Ok([segment] + more)
  }

  function Parse(path: string): Result<seq<Segment>, PathError> {
    if path == "" then Err(EmptyPath) else ParseSegments(path)
  }

  /** The key loop. */
  method ScanKey(path: string, start: nat) returns (pos: nat)
    requires start <= |path|
    ensures start <= pos <= |path| && pos - start == KeyLength(path[start..])
  {
    pos := start;
    while pos < |path| && path[pos] != '.' && path[pos] != '['
      invariant start <= pos <= |path| && KeyLength(path[start..]) == pos - start + KeyLength(path[pos..])
    {
      assert path[pos..][1..] == path[pos + 1..];
      pos := pos + 1;
    }
  }

  /** The index loop. */
  method ScanDigits(path: string, start: nat) returns (pos: nat)
    requires start <= |path|
    ensures start <= pos <= |path| && pos - start == DigitCount(path[start..])
  {
    pos := start;
    while pos < |path| && IsDigit(path[pos])
      invariant start <= pos <= |path| && DigitCount(path[start..]) == pos - start + DigitCount(path[pos..])
    {
      assert path[pos..][1..] == path[pos + 1..];
      pos := pos + 1;
    }
  }

  lemma Slices(path: string, start: nat, mid: nat)
    requires start <= mid <= |path|
    ensures path[start..][..mid - start] == path[start..mid] && path[start..][mid - start..] == path[mid..]
  {
  }

  /** The index of a segment whose key ends with the bracket at `bracket`. */
  method ScanIndex(path: string, bracket: nat) returns (r: Result<nat, PathError>, pos: nat)
    requires bracket < |path| && path[bracket] == '['
    ensures r.Err? ==> ParseIndex(path[bracket..]) == Err(r.error)
    ensures r.Ok? ==> bracket < pos <= |path| && ParseIndex(path[bracket..]) == Ok((r.value, path[pos..]))
  {
    var indexStart := bracket + 1;
    assert path[bracket..][1..] == path[indexStart..];
    pos := ScanDigits(path, indexStart);
    Slices(path, indexStart, pos);
    if indexStart == pos || pos >= |path| || path[pos] != ']' { return Err(BadIndex), pos; }
    var index := Number(path[indexStart..pos]);
    if index >= INDEX_LIMIT { return Err(IndexTooLarge), pos; }
    pos := pos + 1;
    Slices(path, bracket, pos);
    return Ok(index), pos;
  }

  /** One segment starting at `start`, and where it ends. */
  method ScanSegment(path: string, start: nat) returns (r: Result<Segment, PathError>, pos: nat)
    requires start < |path|
    ensures r.Err? ==> ParseSegment(path[start..]) == Err(r.error)
    ensures r.Ok? ==> start < pos <= |path| && ParseSegment(path[start..]) == Ok((r.value, path[pos..]))
  {
    pos := ScanKey(path, start);
    Slices(path, start, pos);
    if start == pos { return Err(EmptySegment), pos; }
    var key := path[start..pos];
    if pos == |path| || path[pos] != '[' { return Ok(Segment(key, None)), pos; }
    var index;
    index, pos := ScanIndex(path, pos);
    if index.Err? { return Err(index.error), pos; }
    return Ok(Segment(key, Some(index.value))), pos;
  }

  /** A parsed prefix in front of the rest of the result. */
  function Prefixed(segments: seq<Segment>, r: Result<seq<Segment>, PathError>): Result<seq<Segment>, PathError> {
    if r.Ok? then Ok(segments + r.value) else r
  }

  lemma PrefixedMore(before: seq<Segment>, s: Segment, more: Result<seq<Segment>, PathError>)
    ensures Prefixed(before, Prefixed([s], more)) == Prefixed(before + [s], more)
  {
    if more.Ok? { assert before + ([s] + more.value) == before + [s] + more.value; }
  }

  /** The scanning loop: `pos` only moves forward, so every input is accepted or
      refused after finitely many steps. */
  method ParsePath(path: string) returns (r: Result<seq<Segment>, PathError>)
    ensures r == Parse(path)
  {
    if |path| == 0 { return Err(EmptyPath); }
    var segments: seq<Segment> := [];
    var pos := 0;
    assert path[0..] == path && Prefixed([], ParseSegments(path)) == ParseSegments(path) by {
      var r := ParseSegments(path);
      assert r.Ok? ==> [] + r.value == r.value;
    }
    while true
      invariant 0 <= pos < |path| && Parse(path) == Prefixed(segments, ParseSegments(path[pos..]))
      decreases |path| - pos
    {
      ghost var before, start := segments, pos;
      var segment, end := ScanSegment(path, pos);
      if segment.Err? { return Err(segment.error); }
      pos := end;
      segments := segments + [segment.value];
      if pos == |path| { return Ok(segments); }
      if path[pos] != '.' { return Err(BadSyntax); }
      pos := pos + 1;
      if pos == |path| {
        assert path[end..] == ".";
        return Err(TrailingDot);
      }
      assert path[end..][1..] == path[pos..];
      PrefixedMore(before, segment.value, ParseSegments(path[pos..]));
    }
  }

  // ----- the parser accepts exactly the grammar ---------------------------------------

  lemma {:induction false} KeyLengthOf(key: string, rest: string)
    requires KeyText(key) && (rest != "" ==> EndsKey(rest[0]))
    ensures KeyLength(key + rest) == |key|
  {
    if key != "" {
      assert (key + rest)[1..] == key[1..] + rest;
      KeyLengthOf(key[1..], rest);
    } else {
      assert key + rest == rest;
    }
  }

  lemma {:induction false} DigitCountOf(digits: string, rest: string)
    requires Digits(digits) && (rest != "" ==> !IsDigit(rest[0]))
    ensures DigitCount(digits + rest) == |digits|
  {
    if digits != "" {
      assert (digits + rest)[1..] == digits[1..] + rest;
      DigitCountOf(digits[1..], rest);
    } else {
      assert digits + rest == rest;
    }
  }

  /** The scan of an index and its closing bracket. */
  lemma ParseIndexOf(digits: string, rest: string)
    requires Digits(digits) && digits != "" && Number(digits) < INDEX_LIMIT
    ensures ParseIndex("[" + digits + "]" + rest) == Ok((Number(digits), rest))
  {
    var tail := "[" + digits + "]" + rest;
    assert tail[1..] == digits + ("]" + rest);
    DigitCountOf(digits, "]" + rest);
    assert tail[1..][..|digits|] == digits && tail[|digits| + 2..] == rest;
  }

  lemma ParseSegmentOf(w: Spelling, rest: string)
    requires WellSpelled(w) && (rest != "" ==> rest[0] == '.')
    ensures ParseSegment(RenderOne(w) + rest) == Ok((Meaning(w), rest))
  {
    var tail := (if w.digits.Some? then "[" + w.digits.value + "]" else "") + rest;
    assert RenderOne(w) + rest == w.key + tail;
    KeyLengthOf(w.key, tail);
    assert (w.key + tail)[|w.key|..] == tail && (w.key + tail)[..|w.key|] == w.key;
    if w.digits.Some? {
      ParseIndexOf(w.digits.value, rest);
    } else {
      assert tail == rest;
    }
  }

  /** Every path of the grammar is accepted with its meaning. */
  lemma {:induction false} ParseRender(ws: seq<Spelling>)
    requires ws != [] && AllWellSpelled(ws)
    ensures Parse(Render(ws)) == Ok(Meanings(ws))
  {
    var rest := RenderMore(ws[1..]);
    ParseSegmentOf(ws[0], rest);
    if |ws| > 1 {
      ParseRender(ws[1..]);
      assert rest[1..] == Render(ws[1..]);
    } else {
      assert Meanings(ws) == [Meaning(ws[0])];
    }
  }

  lemma ParseIndexSpelled(s: string) returns (digits: string)
    requires s != "" && s[0] == '[' && ParseIndex(s).Ok?
    ensures digits != "" && Digits(digits) && Number(digits) == ParseIndex(s).value.0 < INDEX_LIMIT
    ensures s == "[" + digits + "]" + ParseIndex(s).value.1
  {
    var d := DigitCount(s[1..]);
    digits := s[1..][..d];
    assert s == "[" + digits + "]" + s[d + 2..];
  }

  lemma ParseSegmentSpelled(s: string) returns (w: Spelling)
    requires ParseSegment(s).Ok?
    ensures WellSpelled(w) && Meaning(w) == ParseSegment(s).value.0 && s == RenderOne(w) + ParseSegment(s).value.1
  {
    var n := KeyLength(s);
    var rest := s[n..];
    assert s == s[..n] + rest;
    if rest == "" || rest[0] != '[' {
      w := Spelling(s[..n], None);
    } else {
      var digits := ParseIndexSpelled(rest);
      w := Spelling(s[..n], Some(digits));
    }
  }

  lemma MeaningsCons(w: Spelling, more: seq<Spelling>)
    requires WellSpelled(w) && AllWellSpelled(more)
    ensures AllWellSpelled([w] + more) && Meanings([w] + more) == [Meaning(w)] + Meanings(more)
    ensures Render([w] + more) == RenderOne(w) + RenderMore(more)
  {
    assert ([w] + more)[1..] == more;
  }

  lemma RenderStep(w: Spelling, rest: string, more: seq<Spelling>)
    requires more != [] && rest != "" && rest[0] == '.' && Render(more) == rest[1..]
    ensures Render([w] + more) == RenderOne(w) + rest
  {
    assert ([w] + more)[1..] == more && rest == "." + rest[1..];
  }

  /** Every accepted path belongs to the grammar. */
  lemma {:induction false} ParseSpelled(s: string) returns (ws: seq<Spelling>)
    requires s != "" && ParseSegments(s).Ok?
    ensures ws != [] && AllWellSpelled(ws) && Render(ws) == s && Meanings(ws) == ParseSegments(s).value
    decreases |s|
  {
    var w := ParseSegmentSpelled(s);
    var rest := ParseSegment(s).value.1;
    var more: seq<Spelling> := [];
    if rest != "" {
      more := ParseSpelled(rest[1..]);
      RenderStep(w, rest, more);
    } else {
      assert [w][1..] == [] && RenderOne(w) + "" == RenderOne(w);
    }
    MeaningsCons(w, more);
    ws := [w] + more;
  }

  /** Acceptance and meaning, in both directions. */
  lemma ParseIff(s: string, segments: seq<Segment>)
    ensures Parse(s) == Ok(segments) <==>
            exists ws :: ws != [] && AllWellSpelled(ws) && Render(ws) == s && Meanings(ws) == segments
  {
    if Parse(s) == Ok(segments) {
      var ws := ParseSpelled(s);
    }
    forall ws | ws != [] && AllWellSpelled(ws) && Render(ws) == s && Meanings(ws) == segments ensures Parse(s) == Ok(segments) {
      ParseRender(ws);
    }
  }

  // ----- printing -----------------------------------------------------------------------

  /** Segments that a path can name. */
  predicate Nameable(segments: seq<Segment>) {
    forall s :: s in segments ==> s.key != "" && KeyText(s.key) && (s.index.Some? ==> s.index.value < INDEX_LIMIT)
  }

  function PrintOne(s: Segment): string { s.key + if s.index.Some? then "[" + Decimal(s.index.value) + "]" else "" }

  function Print(segments: seq<Segment>): string {
    if segments == [] then ""
    else Print(segments[..|segments|-1]) + (if |segments| > 1 then "." else "") + PrintOne(segments[|segments|-1])
  }

  /** Describes the first `end` segments of a path. */
  method DescribePathPrefix(segments: seq<Segment>, end: nat) returns (text: string)
    requires end <= |segments|
    ensures text == Print(segments[..end])
  {
    text := "";
    for i := 0 to end
      invariant text == Print(segments[..i])
    {
      if i > 0 { text := text + "."; }
      text := text + segments[i].key;
      if segments[i].index.Some? { text := text + "[" + Decimal(segments[i].index.value) + "]"; }
      assert segments[..i + 1][..i] == segments[..i];
    }
  }

  function Spell(s: Segment): Spelling { Spelling(s.key, if s.index.Some? then Some(Decimal(s.index.value)) else None) }

  function SpellAll(segments: seq<Segment>): seq<Spelling> {
    if segments == [] then [] else [Spell(segments[0])] + SpellAll(segments[1..])
  }

  lemma {:induction false} SpellingsMean(segments: seq<Segment>)
    requires Nameable(segments)
    ensures AllWellSpelled(SpellAll(segments)) && Meanings(SpellAll(segments)) == segments
    ensures segments != [] ==> SpellAll(segments) != []
  {
    if segments != [] {
      SpellingsMean(segments[1..]);
      if segments[0].index.Some? { DecimalIsRead(segments[0].index.value); }
      assert SpellAll(segments)[1..] == SpellAll(segments[1..]);
    }
  }

  lemma {:induction false} RenderAppend(ws: seq<Spelling>, w: Spelling)
    ensures Render(ws + [w]) == Render(ws) + (if ws == [] then "" else ".") + RenderOne(w)
  {
    if ws == [] {
      assert ws + [w] == [w];
    } else {
      RenderAppend(ws[1..], w);
      assert (ws + [w])[1..] == ws[1..] + [w];
    }
  }

  lemma {:induction false} SpellAppend(segments: seq<Segment>, s: Segment)
    ensures SpellAll(segments + [s]) == SpellAll(segments) + [Spell(s)]
  {
    if segments == [] {
      assert segments + [s] == [s];
    } else {
      SpellAppend(segments[1..], s);
      assert (segments + [s])[1..] == segments[1..] + [s];
    }
  }

  lemma {:induction false} PrintIsRender(segments: seq<Segment>)
    ensures Print(segments) == Render(SpellAll(segments))
  {
    if segments != [] {
      var init, last := segments[..|segments|-1], segments[|segments|-1];
      PrintIsRender(init);
      SpellAppend(init, last);
      RenderAppend(SpellAll(init), Spell(last));
      assert segments == init + [last];
      assert init == [] <==> SpellAll(init) == [];
    }
  }

  /** Parsing what was printed gives the segments back. */
  lemma RoundTrip(segments: seq<Segment>)
    requires segments != [] && Nameable(segments)
    ensures Parse(Print(segments)) == Ok(segments)
  {
    PrintIsRender(segments);
    SpellingsMean(segments);
    ParseRender(SpellAll(segments));
  }

  /** Printing what was parsed gives a path with the same meaning: at most zeros
      in front of an index are lost. */
  lemma ParsePrintParse(path: string)
    requires Parse(path).Ok?
    ensures Nameable(Parse(path).value) && Parse(Print(Parse(path).value)) == Parse(path)
  {
    var ws := ParseSpelled(path);
    MeaningsNameable(ws);
    RoundTrip(Parse(path).value);
  }

  lemma {:induction false} MeaningsNameable(ws: seq<Spelling>)
    requires AllWellSpelled(ws)
    ensures Nameable(Meanings(ws)) && |Meanings(ws)| == |ws|
  {
    if ws != [] {
      MeaningsNameable(ws[1..]);
      assert WellSpelled(ws[0]);
    }
  }
}
