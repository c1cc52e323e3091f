/** Which error a malformed path is refused with (src/config/ConfigOverride.cpp): the one
    of its first bad segment. */
module PathErrors {
  import opened Wrappers
  import opened PathSyntax

  /** A bracket behind a key, without digits or without its closing partner. */
  ghost predicate OpenIndex(s: string, key: string, digits: string, rest: string) {
    && key != "" && KeyText(key) && Digits(digits) && s == key + ("[" + digits + rest)
    && (rest != "" ==> !IsDigit(rest[0])) && (digits == "" || rest == "" || rest[0] != ']')
  }

  ghost predicate LargeIndex(s: string, key: string, digits: string, rest: string) {
    && key != "" && KeyText(key) && digits != "" && Digits(digits) && Number(digits) >= INDEX_LIMIT
    && s == key + ("[" + digits + ("]" + rest))
  }

  /** A segment with something behind it. */
  ghost predicate Followed(s: string, w: Spelling, rest: string) { WellSpelled(w) && s == RenderOne(w) + rest }

  /** What is wrong with the segment at the front. */
  ghost predicate Bad(s: string, e: PathError) {
    match e
    case EmptyPath => false
    case EmptySegment => s != "" && EndsKey(s[0])
    case BadIndex => exists key, digits, rest :: OpenIndex(s, key, digits, rest)
    case IndexTooLarge => exists key, digits, rest :: LargeIndex(s, key, digits, rest)
    case BadSyntax => exists w, rest :: Followed(s, w, rest) && w.digits.Some? && rest != "" && rest[0] != '.'
    case TrailingDot => exists w :: Followed(s, w, ".")
  }

  /** A text behind segments each of which is followed by a dot. */
  function Behind(ws: seq<Spelling>, s: string): string { if ws == [] then s else RenderOne(ws[0]) + Dot(Behind(ws[1..], s)) }

  function Dot(s: string): string { "." + s }

  /** A path with well-spelled segments in front of a bad one. */
  ghost predicate BreaksAt(path: string, ws: seq<Spelling>, s: string, e: PathError) {
    AllWellSpelled(ws) && path == Behind(ws, s) && Bad(s, e)
  }

  // ----- a bad segment is reported ------------------------------------------------------

  lemma KeyCut(key: string, rest: string)
    requires KeyText(key) && rest != "" && EndsKey(rest[0])
    ensures KeyLength(key + rest) == |key| && (key + rest)[..|key|] == key && (key + rest)[|key|..] == rest
  {
    KeyLengthOf(key, rest);
  }

  lemma OpenIndexReported(s: string, key: string, digits: string, rest: string)
    requires OpenIndex(s, key, digits, rest)
    ensures ParseSegment(s) == Err(BadIndex)
  {
    var tail := "[" + digits + rest;
    KeyCut(key, tail);
    assert tail[1..] == digits + rest;
    DigitCountOf(digits, rest);
  }

  lemma LargeIndexReported(s: string, key: string, digits: string, rest: string)
    requires LargeIndex(s, key, digits, rest)
    ensures ParseSegment(s) == Err(IndexTooLarge)
  {
    var tail := "[" + digits + ("]" + rest);
    KeyCut(key, tail);
    assert tail[1..] == digits + ("]" + rest);
    DigitCountOf(digits, "]" + rest);
    assert tail[1..][..|digits|] == digits;
  }

  /** Behind an index any rest ends the segment, behind a bare key only a dot does. */
  lemma SegmentCut(w: Spelling, rest: string)
    requires WellSpelled(w) && rest != "" && (w.digits.None? ==> rest[0] == '.')
    ensures ParseSegment(RenderOne(w) + rest) == Ok((Meaning(w), rest))
  {
    if w.digits.Some? {
      var tail := "[" + w.digits.value + "]" + rest;
      assert RenderOne(w) + rest == w.key + tail;
      KeyCut(w.key, tail);
      ParseIndexOf(w.digits.value, rest);
    } else {
      ParseSegmentOf(w, rest);
    }
  }

  lemma BadIsReported(s: string, e: PathError)
    requires Bad(s, e)
    ensures s != "" && ParseSegments(s) == Err(e)
  {
    match e
    case EmptySegment =>
    case BadIndex =>
      var key, digits, rest :| OpenIndex(s, key, digits, rest);
      OpenIndexReported(s, key, digits, rest);
    case IndexTooLarge =>
      var key, digits, rest :| LargeIndex(s, key, digits, rest);
      LargeIndexReported(s, key, digits, rest);
    case BadSyntax =>
      var w, rest :| Followed(s, w, rest) && w.digits.Some? && rest != "" && rest[0] != '.';
      SegmentCut(w, rest);
    case TrailingDot =>
      var w :| Followed(s, w, ".");
      SegmentCut(w, ".");
  }

  lemma SegmentAndDot(w: Spelling, more: string)
    requires WellSpelled(w) && more != ""
    ensures ParseSegments(RenderOne(w) + Dot(more)) == Prefixed([Meaning(w)], ParseSegments(more))
  {
    SegmentCut(w, Dot(more));
    assert Dot(more)[1..] == more;
  }

  lemma {:induction false} BreakIsReported(ws: seq<Spelling>, s: string, e: PathError)
    requires AllWellSpelled(ws) && Bad(s, e)
    ensures Behind(ws, s) != "" && ParseSegments(Behind(ws, s)) == Err(e)
  {
    if ws == [] {
      BadIsReported(s, e);
    } else {
      BreakIsReported(ws[1..], s, e);
      SegmentAndDot(ws[0], Behind(ws[1..], s));
    }
  }

  // ----- a reported segment is bad ------------------------------------------------------

  lemma IndexIsBad(tail: string) returns (digits: string, rest: string)
    requires tail != "" && tail[0] == '[' && ParseIndex(tail).Err?
    ensures Digits(digits) && tail == "[" + digits + rest && (rest != "" ==> !IsDigit(rest[0]))
    ensures ParseIndex(tail).error == BadIndex ==> digits == "" || rest == "" || rest[0] != ']'
    ensures ParseIndex(tail).error != BadIndex ==>
              ParseIndex(tail).error == IndexTooLarge && digits != "" && rest != "" && rest[0] == ']' && Number(digits) >= INDEX_LIMIT
  {
    var d := DigitCount(tail[1..]);
    digits, rest := tail[1..][..d], tail[1..][d..];
  }

  lemma SegmentIsBad(s: string)
    requires s != "" && ParseSegment(s).Err?
    ensures Bad(s, ParseSegment(s).error)
  {
    var n := KeyLength(s);
    if n > 0 {
      var digits, rest := IndexIsBad(s[n..]);
      assert s == s[..n] + s[n..];
      if ParseSegment(s).error == BadIndex {
        assert OpenIndex(s, s[..n], digits, rest);
      } else {
        assert "[" + digits + ("]" + rest[1..]) == "[" + digits + rest;
        assert LargeIndex(s, s[..n], digits, rest[1..]);
      }
    }
  }

  /** What follows the first segment of a refused path. */
  lemma RestIsBad(path: string) returns (w: Spelling, more: string)
    requires path != "" && ParseSegments(path).Err? && ParseSegment(path).Ok?
    ensures Bad(path, ParseSegments(path).error) || (WellSpelled(w) && more != "" && |more| < |path| && path == RenderOne(w) + Dot(more))
    ensures WellSpelled(w) && more != "" && path == RenderOne(w) + Dot(more) ==> ParseSegments(more) == ParseSegments(path)
  {
    w := ParseSegmentSpelled(path);
    var rest := ParseSegment(path).value.1;
    more := rest[1..];
    assert Followed(path, w, rest);
    if rest[0] == '.' { assert rest == Dot(more); }
    if more != "" && path == RenderOne(w) + Dot(more) { SegmentAndDot(w, more); }
  }

  /** The well-spelled segments of a refused path, and the bad one behind them. */
  lemma {:induction false} FindBad(path: string) returns (ws: seq<Spelling>, s: string)
    requires path != "" && ParseSegments(path).Err?
    ensures BreaksAt(path, ws, s, ParseSegments(path).error)
    decreases |path|
  {
    ws, s := [], path;
    if ParseSegment(path).Err? {
      SegmentIsBad(path);
    } else {
      var w, more := RestIsBad(path);
      if !Bad(path, ParseSegments(path).error) {
        ws, s := FindBad(more);
        MeaningsCons(w, ws);
        assert ([w] + ws)[1..] == ws;
        ws := [w] + ws;
      }
    }
  }

  /** Every refused path is refused for its first bad segment, with that segment's error. */
  lemma ParseErrorIff(path: string, e: PathError)
    ensures Parse(path) == Err(e) <==> (path == "" && e == EmptyPath) || exists ws, s :: BreaksAt(path, ws, s, e)
  {
    if path != "" && Parse(path) == Err(e) {
      var ws, s := FindBad(path);
    }
    forall ws, s | BreaksAt(path, ws, s, e) ensures Parse(path) == Err(e) { BreakIsReported(ws, s, e); }
  }

  lemma IndexAccepted(key: string, n: nat)
    requires key != "" && KeyText(key) && n < INDEX_LIMIT
    ensures Parse(PrintOne(Segment(key, Some(n)))) == Ok([Segment(key, Some(n))])
  {
    var one := [Segment(key, Some(n))];
    RoundTrip(one);
    assert one[..0] == [] && Print(one) == PrintOne(one[0]);
  }

  lemma IndexRefused(key: string, n: nat)
    requires key != "" && KeyText(key) && n >= INDEX_LIMIT
    ensures Parse(PrintOne(Segment(key, Some(n)))) == Err(IndexTooLarge)
  {
    var path := PrintOne(Segment(key, Some(n)));
    DecimalIsRead(n);
    assert "[" + Decimal(n) + "]" == "[" + Decimal(n) + ("]" + "");
    assert LargeIndex(path, key, Decimal(n), "");
    LargeIndexReported(path, key, Decimal(n), "");
  }

  /** An index of 64 bits is accepted, a larger one is not. */
  lemma IndexFits(key: string, n: nat)
    requires key != "" && KeyText(key)
    ensures Parse(key + ("[" + Decimal(n) + "]")) ==
            if n <= 18_446_744_073_709_551_615 then Ok([Segment(key, Some(n))]) else Err(IndexTooLarge)
  {
    if n < INDEX_LIMIT { IndexAccepted(key, n); } else { IndexRefused(key, n); }
  }
}
