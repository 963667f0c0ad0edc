/** Addresses of participants, and the text without them. */
module Participants {
  import opened Wrappers
  import opened Unicode
  import opened ReferenceGrammar
  import opened DocumentReferences

  datatype Range = Range(start: nat, end: nat)

  // ---------- Guarded code ----------

  /** A whole run of exactly `width` of the character `c` starts at `i`. */
  predicate WholeRun(source: string, i: nat, c: char, width: nat) {
    && width > 0 && i + width <= |source| && (i == 0 || source[i - 1] != c)
    && (forall k | i <= k < i + width :: source[k] == c) && (i + width < |source| ==> source[i + width] != c)
  }

  /** A run that opens a guarded range: backticks of any width, tildes from three on. */
  predicate Opener(source: string, i: nat, c: char, width: nat) {
    WholeRun(source, i, c, width) && (c == '`' || (c == '~' && width >= 3))
  }

  /** The range runs from its opener to the first later run of the same kind and width, or to the end of the text. */
  ghost predicate Guards(source: string, r: Range, c: char, width: nat) {
    && Opener(source, r.start, c, width) && r.start + width <= r.end <= |source|
    && (r.end < |source| ==> r.start + 2 * width < r.end && WholeRun(source, r.end - width, c, width))
    && (forall j: nat | r.start < j && j + width < r.end :: !WholeRun(source, j, c, width))
  }

  ghost predicate Guarded(ranges: seq<Range>, p: nat) {
    exists i :: 0 <= i < |ranges| && ranges[i].start <= p < ranges[i].end
  }

  /** The ranges before `p`: each from an opener to its close, in order, and no opener outside of them. */
  ghost predicate GuardsUpTo(source: string, ranges: seq<Range>, p: nat) {
    && (forall i | 0 <= i < |ranges| :: ranges[i].end <= p && exists c, w :: Guards(source, ranges[i], c, w))
    && (forall i, j | 0 <= i < j < |ranges| :: ranges[i].end <= ranges[j].start)
    && (forall i: nat, c, w {:trigger Opener(source, i, c, w)} | i < p && Opener(source, i, c, w) :: Guarded(ranges, i))
  }

  datatype Opening = Opening(marker: char, width: nat, begin: nat)

  /** An open range: its opener, and no run so far that closes it. */
  ghost predicate StillOpen(source: string, open: Opening, p: nat) {
    && Opener(source, open.begin, open.marker, open.width) && open.begin + open.width <= p <= |source|
    && (forall j: nat | open.begin < j < p :: !WholeRun(source, j, open.marker, open.width))
  }

  predicate AtRunStart(source: string, p: nat) {
    p == 0 || p >= |source| || source[p] != source[p - 1] || (source[p] != '`' && source[p] != '~')
  }

  lemma RunsAreWhole(source: string, i: nat, c: char, v: nat, j: nat, w: nat)
    requires WholeRun(source, i, c, v) && WholeRun(source, j, c, w) && i <= j < i + v
    ensures i == j && v == w
  {
    assert j > 0 ==> source[j - 1] != c;
  }

  method InvocationCodeRanges(source: string) returns (ranges: seq<Range>)
    ensures GuardsUpTo(source, ranges, |source|)
  {
    ranges := [];
    var open: Option<Opening> := None;
    var offset := 0;
    while offset < |source|
      invariant offset <= |source| && AtRunStart(source, offset)
      invariant open.None? ==> GuardsUpTo(source, ranges, offset)
      invariant open.Some? ==> GuardsUpTo(source, ranges, open.value.begin) && StillOpen(source, open.value, offset)
    {
      var marker, start := source[offset], offset;
      if marker != '`' && marker != '~' {
        offset := offset + 1;
      } else {
        offset := PassRun(source, start);
      }
      var width := offset - start;
      if open.None? && (marker == '`' || (marker == '~' && width >= 3)) {
        open := Some(Opening(marker, width, start));
      } else if open.None? {
        NothingOpens(source, ranges, start, offset);
      } else if marker == open.value.marker && width == open.value.width {
        RangeCloses(source, ranges, open.value, start, width);
        ranges := ranges + [Range(open.value.begin, offset)];
        open := None;
      } else {
        NothingCloses(source, open.value, start, offset);
      }
    }
    if open.Some? {
      RangeEnds(source, ranges, open.value);
      ranges := ranges + [Range(open.value.begin, |source|)];
    }
  }

  /** Either one character that is no marker, or the whole run of one. */
  ghost predicate Passed(source: string, start: nat, offset: nat) {
    && start < offset <= |source|
    && forall j: nat, c, w {:trigger WholeRun(source, j, c, w)} |
         start <= j < offset && (c == '`' || c == '~') && WholeRun(source, j, c, w) ::
         j == start && c == source[start] && w == offset - start
  }

  lemma NothingOpens(source: string, ranges: seq<Range>, start: nat, offset: nat)
    requires GuardsUpTo(source, ranges, start) && Passed(source, start, offset)
    requires source[start] != '`' && (source[start] != '~' || offset - start < 3)
    ensures GuardsUpTo(source, ranges, offset)
  {
    forall i: nat, c, w | i < offset && Opener(source, i, c, w) ensures Guarded(ranges, i) {
      assert WholeRun(source, i, c, w);
    }
  }

  lemma NothingCloses(source: string, open: Opening, start: nat, offset: nat)
    requires StillOpen(source, open, start) && Passed(source, start, offset)
    requires source[start] != open.marker || offset - start != open.width
    ensures StillOpen(source, open, offset)
  {}

  /** Passes the run of one marker that starts here. */
  method PassRun(source: string, start: nat) returns (offset: nat)
    requires start < |source| && AtRunStart(source, start) && (source[start] == '`' || source[start] == '~')
    ensures start < offset <= |source| && AtRunStart(source, offset) && WholeRun(source, start, source[start], offset - start)
    ensures Passed(source, start, offset)
  {
    offset := start;
    while offset < |source| && source[offset] == source[start]
      invariant start <= offset <= |source|
      invariant forall k | start <= k < offset :: source[k] == source[start]
    {
      offset := offset + 1;
    }
    RunsInside(source, start, source[start], offset - start);
  }

  /** No other run starts inside a whole run. */
  lemma RunsInside(source: string, start: nat, marker: char, width: nat)
    requires WholeRun(source, start, marker, width)
    ensures forall j: nat, c, w {:trigger WholeRun(source, j, c, w)} |
              start <= j < start + width && WholeRun(source, j, c, w) :: j == start && c == marker && w == width
  {
    forall j: nat, c, w | start <= j < start + width && WholeRun(source, j, c, w)
      ensures j == start && c == marker && w == width
    {
      assert source[j] == c == marker;
      RunsAreWhole(source, start, marker, width, j, w);
    }
  }

  lemma RangeAdded(source: string, ranges: seq<Range>, begin: nat, end: nat, c: char, w: nat)
    requires begin < end <= |source| && GuardsUpTo(source, ranges, begin) && Guards(source, Range(begin, end), c, w)
    ensures GuardsUpTo(source, ranges + [Range(begin, end)], end)
  {
    var all := ranges + [Range(begin, end)];
    forall i: nat, d, v | i < end && Opener(source, i, d, v) ensures Guarded(all, i) {
      if i < begin {
        assert Guarded(ranges, i);
        var k :| 0 <= k < |ranges| && ranges[k].start <= i < ranges[k].end;
        assert all[k] == ranges[k];
      } else {
        assert all[|ranges|] == Range(begin, end);
      }
    }
  }

  lemma RangeCloses(source: string, ranges: seq<Range>, open: Opening, start: nat, width: nat)
    requires GuardsUpTo(source, ranges, open.begin) && StillOpen(source, open, start) && width == open.width
    requires WholeRun(source, start, open.marker, width)
    ensures GuardsUpTo(source, ranges + [Range(open.begin, start + width)], start + width)
  {
    assert open.begin + width < |source| ==> source[open.begin + width] != open.marker;
    assert Guards(source, Range(open.begin, start + width), open.marker, width);
    RangeAdded(source, ranges, open.begin, start + width, open.marker, width);
  }

  lemma RangeEnds(source: string, ranges: seq<Range>, open: Opening)
    requires GuardsUpTo(source, ranges, open.begin) && StillOpen(source, open, |source|)
    ensures GuardsUpTo(source, ranges + [Range(open.begin, |source|)], |source|)
  {
    assert Guards(source, Range(open.begin, |source|), open.marker, open.width);
    RangeAdded(source, ranges, open.begin, |source|, open.marker, open.width);
  }

  // ---------- Addresses ----------

  predicate IsGuarded(ranges: seq<Range>, p: nat) {
    exists i | 0 <= i < |ranges| :: ranges[i].start <= p < ranges[i].end
  }

  /** An address starts with `@`, at the start of the text or after white space, and outside of guarded code. */
  predicate IsAddress(source: string, ranges: seq<Range>, r: DocumentReference) {
    && !IsGuarded(ranges, r.start) && r.start < |source| && source[r.start] == '@'
    && (r.start == 0 || IsWhitespace(source[r.start - 1]))
  }

  function Addresses(source: string, ranges: seq<Range>, references: seq<DocumentReference>): (r: seq<DocumentReference>)
    ensures forall x | x in r :: x in references && IsAddress(source, ranges, x)
    ensures forall x | x in references && IsAddress(source, ranges, x) :: x in r
    ensures |r| <= |references|
  {
    if references == [] then []
    else
      var front := Addresses(source, ranges, references[..|references| - 1]);
      var last := references[|references| - 1];
      if IsAddress(source, ranges, last) then front + [last] else front
  }

  lemma {:induction false} AddressesInOrder(source: string, ranges: seq<Range>, references: seq<DocumentReference>, p: nat)
    requires InOrder(source, references, p)
    ensures InOrder(source, Addresses(source, ranges, references), p)
    decreases |references|
  {
    if references != [] {
      var front, last := references[..|references| - 1], references[|references| - 1];
      assert forall i | 0 <= i < |front| :: front[i] == references[i] && front[i].end <= last.start;
      AddressesInOrder(source, ranges, front, last.start);
      OneMoreInOrder(source, Addresses(source, ranges, front), last, p);
    }
  }

  lemma OneMoreInOrder(source: string, kept: seq<DocumentReference>, last: DocumentReference, p: nat)
    requires InOrder(source, kept, last.start) && GoodRange(source, last) && last.end <= p
    ensures InOrder(source, kept, p) && InOrder(source, kept + [last], p)
  {
    assert forall i | 0 <= i < |kept| :: (kept + [last])[i] == kept[i];
  }

  method ParticipantReferences(source: string, alphanumeric: set<char>)
    returns (r: Result<seq<DocumentReference>, SyntaxError>, ghost guarded: seq<Range>)
    requires Sane(alphanumeric)
    ensures GuardsUpTo(source, guarded, |source|) || r.Err?
    ensures Utf8Len(source) > MAX_COMMAND_BYTES ==> r == Err(SyntaxError(MAX_COMMAND_BYTES, TooLong))
    ensures Utf8Len(source) <= MAX_COMMAND_BYTES ==>
              match References(source, alphanumeric)
              case Err(e) => r == Err(e)
              case Ok(all) => r == Ok(Addresses(source, guarded, all)) && InOrder(source, r.value, |source|)
  {
    guarded := [];
    if Utf8Len(source) > MAX_COMMAND_BYTES { return Err(SyntaxError(MAX_COMMAND_BYTES, TooLong)), []; }
    var ranges := InvocationCodeRanges(source);
    guarded := ranges;
    var all := DocumentReferencesOf(source, alphanumeric);
    if all.Err? { return Err(all.error), guarded; }
    RangesInOrder(source, alphanumeric);
    AddressesInOrder(source, ranges, all.value, |source|);
    var kept: seq<DocumentReference> := [];
    for k := 0 to |all.value|
      invariant kept == Addresses(source, ranges, all.value[..k])
    {
      assert all.value[..k + 1][..k] == all.value[..k];
      if IsAddress(source, ranges, all.value[k]) { kept := kept + [all.value[k]]; }
    }
    assert all.value[..|all.value|] == all.value;
    return Ok(kept), guarded;
  }

  // ---------- The text without them ----------

  predicate InSpan(spans: seq<DocumentReference>, p: nat) {
    exists i | 0 <= i < |spans| :: spans[i].start <= p < spans[i].end
  }

  /** The characters before `p` that lie in no span, in order. */
  function Outside(source: string, spans: seq<DocumentReference>, p: nat): string
    requires p <= |source|
  {
    if p == 0 then ""
    else Outside(source, spans, p - 1) + if InSpan(spans, p - 1) then "" else [source[p - 1]]
  }

  /** The characters before `p` that lie in some span, in order. */
  function Inside(source: string, spans: seq<DocumentReference>, p: nat): string
    requires p <= |source|
  {
    if p == 0 then ""
    else Inside(source, spans, p - 1) + if InSpan(spans, p - 1) then [source[p - 1]] else ""
  }

  lemma {:induction false} OutsideGap(source: string, spans: seq<DocumentReference>, p: nat, q: nat)
    requires p <= q <= |source| && forall k | p <= k < q :: !InSpan(spans, k)
    ensures Outside(source, spans, q) == Outside(source, spans, p) + source[p..q]
    decreases q
  {
    if p < q {
      OutsideGap(source, spans, p, q - 1);
      assert source[p..q] == source[p..q - 1] + [source[q - 1]];
    } else {
      assert source[p..q] == "";
    }
  }

  lemma {:induction false} OutsideSpan(source: string, spans: seq<DocumentReference>, p: nat, q: nat)
    requires p <= q <= |source| && forall k | p <= k < q :: InSpan(spans, k)
    ensures Outside(source, spans, q) == Outside(source, spans, p)
    decreases q
  {
    if p < q { OutsideSpan(source, spans, p, q - 1); }
  }

  /** Removing addresses keeps exactly the characters outside of every address span. */
  method RemoveParticipantAddresses(source: string, alphanumeric: set<char>)
    returns (r: Result<string, SyntaxError>, ghost removed: seq<DocumentReference>, ghost guarded: seq<Range>)
    requires Sane(alphanumeric)
    ensures r.Err? <==> Utf8Len(source) > MAX_COMMAND_BYTES || References(source, alphanumeric).Err?
    ensures r.Ok? ==> GuardsUpTo(source, guarded, |source|) && removed == Addresses(source, guarded, References(source, alphanumeric).value)
    ensures r.Ok? ==> InOrder(source, removed, |source|) && r.value == Outside(source, removed, |source|)
  {
    removed := [];
    var references;
    references, guarded := ParticipantReferences(source, alphanumeric);
    if references.Err? { return Err(references.error), [], guarded; }
    var spans := references.value;
    removed := spans;
    var text := WithoutSpans(source, spans);
    return Ok(text), removed, guarded;
  }

  /** Pushes the text between the spans, from a cursor that skips each of them. */
  method WithoutSpans(source: string, spans: seq<DocumentReference>) returns (text: string)
    requires InOrder(source, spans, |source|)
    ensures text == Outside(source, spans, |source|)
  {
    var cursor: nat := 0;
    text := "";
    for k := 0 to |spans|
      invariant cursor <= |source| && text == Outside(source, spans, cursor)
      invariant cursor == if k == 0 then 0 else spans[k - 1].end
    {
      SpanRemoved(source, spans, k, cursor);
      text := text + source[cursor..spans[k].start];
      cursor := spans[k].end;
    }
    BetweenSpans(source, spans, |spans|, cursor);
    OutsideGap(source, spans, cursor, |source|);
    assert source[cursor..] == source[cursor..|source|];
    text := text + source[cursor..];
  }

  lemma BetweenSpans(source: string, spans: seq<DocumentReference>, k: nat, cursor: nat)
    requires InOrder(source, spans, |source|) && k <= |spans| && cursor == if k == 0 then 0 else spans[k - 1].end
    ensures cursor <= if k == |spans| then |source| else spans[k].start
    ensures forall p | cursor <= p < (if k == |spans| then |source| else spans[k].start) :: !InSpan(spans, p)
    ensures k < |spans| ==> forall p | spans[k].start <= p < spans[k].end :: InSpan(spans, p)
  {
    forall p | cursor <= p < (if k == |spans| then |source| else spans[k].start) ensures !InSpan(spans, p) {
      forall i | 0 <= i < |spans| ensures !(spans[i].start <= p < spans[i].end) {
        if i < k - 1 { assert spans[i].end <= spans[k - 1].start; }
      }
    }
  }

  lemma SpanRemoved(source: string, spans: seq<DocumentReference>, k: nat, cursor: nat)
    requires InOrder(source, spans, |source|) && k < |spans| && cursor == if k == 0 then 0 else spans[k - 1].end
    ensures cursor <= spans[k].start <= spans[k].end <= |source|
    ensures Outside(source, spans, spans[k].end) == Outside(source, spans, cursor) + source[cursor..spans[k].start]
  {
    BetweenSpans(source, spans, k, cursor);
    OutsideGap(source, spans, cursor, spans[k].start);
    OutsideSpan(source, spans, spans[k].start, spans[k].end);
  }

  /** What is kept and what is removed interleave back to the source: nothing is lost and nothing is added. */
  lemma {:induction false} KeptAndRemoved(source: string, spans: seq<DocumentReference>, p: nat)
    requires p <= |source|
    ensures |Outside(source, spans, p)| + |Inside(source, spans, p)| == p
    ensures Interleaving(Outside(source, spans, p), Inside(source, spans, p), source[..p])
    decreases p
  {
    if p > 0 {
      KeptAndRemoved(source, spans, p - 1);
      var kept, removed := Outside(source, spans, p - 1), Inside(source, spans, p - 1);
      assert source[..p] == source[..p - 1] + [source[p - 1]];
      assert kept + "" == kept && removed + "" == removed;
      InterleavesOn(kept, removed, source[..p - 1], source[p - 1], InSpan(spans, p - 1));
    }
  }

  lemma InterleavesOn(a: string, b: string, whole: string, c: char, second: bool)
    requires Interleaving(a, b, whole)
    ensures Interleaving(if second then a else a + [c], if second then b + [c] else b, whole + [c])
  {
    assert (whole + [c])[..|whole|] == whole && (a + [c])[..|a|] == a && (b + [c])[..|b|] == b;
  }

  /** `whole` is made of `a` and `b`, each in its own order. */
  predicate Interleaving(a: string, b: string, whole: string)
    decreases |whole|
  {
    if whole == "" then a == "" && b == ""
    else
      var last, front := whole[|whole| - 1], whole[..|whole| - 1];
      || (a != "" && a[|a| - 1] == last && Interleaving(a[..|a| - 1], b, front))
      || (b != "" && b[|b| - 1] == last && Interleaving(a, b[..|b| - 1], front))
  }

  // ---------- Handles ----------

  function ToLower(c: char): char {
    if 'A' <= c <= 'Z' then c - 'A' + 'a' else c
  }

  function Lowered(name: string): string {
    seq(|name|, i requires 0 <= i < |name| => ToLower(name[i]))
  }

  /** Each handle once, at its first occurrence. */
  function Distinct(handles: seq<string>): (r: seq<string>)
    ensures forall h :: h in r <==> h in handles
    ensures forall i, j | 0 <= i < j < |r| :: r[i] != r[j]
  {
    if handles == [] then []
    else
      var front := Distinct(handles[..|handles| - 1]);
      var last := handles[|handles| - 1];
      assert forall h :: h in handles <==> h in handles[..|handles| - 1] || h == last;
      if last in front then front else front + [last]
  }

  function Handles(references: seq<DocumentReference>): seq<string> {
    seq(|references|, i requires 0 <= i < |references| => Lowered(references[i].name))
  }

  lemma HandlesNext(references: seq<DocumentReference>, k: nat)
    requires k < |references|
    ensures var before, handle := Distinct(Handles(references[..k])), Lowered(references[k].name);
            Distinct(Handles(references[..k + 1])) == if handle in before then before else before + [handle]
  {
    var handles := Handles(references[..k + 1]);
    assert handles[..k] == Handles(references[..k]) && handles[k] == Lowered(references[k].name);
  }

  /** A failed scan stays an error: it never turns into an empty list of addresses. */
  method ParticipantHandles(source: string, alphanumeric: set<char>)
    returns (r: Result<seq<string>, SyntaxError>, ghost addressed: seq<DocumentReference>, ghost guarded: seq<Range>)
    requires Sane(alphanumeric)
    ensures r.Err? <==> Utf8Len(source) > MAX_COMMAND_BYTES || References(source, alphanumeric).Err?
    ensures r.Ok? ==>
              && GuardsUpTo(source, guarded, |source|)
              && addressed == Addresses(source, guarded, References(source, alphanumeric).value) && InOrder(source, addressed, |source|)
              && r.value == Distinct(Handles(addressed))
  {
    addressed := [];
    var references;
    references, guarded := ParticipantReferences(source, alphanumeric);
    if references.Err? { return Err(references.error), [], guarded; }
    addressed := references.value;
    var handles: seq<string> := [];
    for k := 0 to |references.value|
      invariant handles == Distinct(Handles(references.value[..k]))
    {
      var handle := Lowered(references.value[k].name);
      HandlesNext(references.value, k);
      if handle !in handles { handles := handles + [handle]; }
    }
    assert references.value[..|references.value|] == references.value;
    return Ok(handles), addressed, guarded;
  }
}
