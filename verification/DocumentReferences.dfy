/** The Markdown-aware scan for references. */
module DocumentReferences {
  // What the scan means is written with plain forward searches over the source. The method at the
  // end works from the two precomputed tables instead, and is shown to compute the same.

  import opened Wrappers
  import opened Unicode
  import opened ReferenceGrammar
  import opened TickRuns
  import opened LinkDelimiters
  import opened DocumentNames

  const MAX_DOCUMENT_BYTES := 1048576

  datatype DocumentReference = DocumentReference(name: string, start: nat, end: nat)

  // ---------- Lines ----------

  /** The position after the line that starts at `i`, its line feed included. */
  function LineEnd(source: string, i: nat): (j: nat)
    requires i <= |source|
    ensures i <= j <= |source| && (i < |source| ==> i < j)
    ensures forall k | i <= k < j - 1 :: source[k] != '\n'
    ensures j < |source| ==> source[j - 1] == '\n' && i < j
    decreases |source| - i
  {
    if i == |source| then i else if source[i] == '\n' then i + 1 else LineEnd(source, i + 1)
  }

  function SpacesEnd(source: string, i: nat, end: nat): (j: nat)
    requires i <= end <= |source|
    ensures i <= j <= end
    decreases end - i
  {
    if i < end && source[i] == ' ' then SpacesEnd(source, i + 1, end) else i
  }

  function SameEnd(source: string, i: nat, end: nat, c: char): (j: nat)
    requires i <= end <= |source|
    ensures i <= j <= end
    decreases end - i
  {
    if i < end && source[i] == c then SameEnd(source, i + 1, end, c) else i
  }

  datatype Fence = Fence(marker: char, width: nat)

  datatype LineKind = Scanned | Fenced(fence: Option<Fence>) | Quoted

  predicate IsBlank(source: string, i: nat, end: nat)
    requires i <= end <= |source|
  {
    forall k | i <= k < end :: IsWhitespace(source[k])
  }

  predicate HasTick(source: string, i: nat, end: nat)
    requires i <= end <= |source|
  {
    exists k :: i <= k < end && source[k] == '`'
  }

  /** What a line is, given the open fence and the width of the open code span. */
  function Classify(source: string, begin: nat, end: nat, fence: Option<Fence>, ticks: nat): LineKind
    requires begin < end <= |source|
  {
    var text := SpacesEnd(source, begin, end);
    var indent := text - begin;
    var marker := if text < end then Some(source[text]) else None;
    var run := if marker.Some? then SameEnd(source, text, end, marker.value) else text;
    if fence.Some? then
      var closes := indent <= 3 && marker == Some(fence.value.marker) && run - text >= fence.value.width
                    && IsBlank(source, run, end);
      Fenced(if closes then None else fence)
    else if ticks == 0 && indent <= 3 && (marker == Some('`') || marker == Some('~')) && run - text >= 3
         && (marker == Some('~') || !HasTick(source, run, end)) then
      Fenced(Some(Fence(marker.value, run - text)))
    else if ticks == 0 && (indent >= 4 || source[begin] == '\t' || marker == Some('>')) then Quoted
    else Scanned
  }

  // ---------- References ----------

  predicate HasPrefix(text: string, prefix: string) {
    |prefix| <= |text| && text[..|prefix|] == prefix
  }

  predicate IsHash(text: string) {
    |text| == 64 && forall k | 0 <= k < |text| :: '0' <= text[k] <= '9' || 'a' <= text[k] <= 'f'
  }

  /** The identity that a retained link names, if its target is one and is well formed. */
  function LinkName(target: string, wellFormed: bool): Option<string> {
    if HasPrefix(target, "loom-document:") then
      if wellFormed then NameOf(target[|"loom-document:"|..]) else None
    else if HasPrefix(target, "loom-material:") then
      var value := target[|"loom-material:"|..];
      var hash := if HasPrefix(value, "material-") then value[|"material-"|..] else "";
      if wellFormed && IsHash(hash) then Some("material-" + hash) else None
    else if HasPrefix(target, "loom-evidence:") then
      var hash := target[|"loom-evidence:"|..];
      if wellFormed && IsHash(hash) then Some("evidence/" + hash) else None
    else None
  }

  /** A well-formed link to the target of a document retains that document, whatever its label says. */
  lemma RetainedDocument(name: string)
    requires Mounted(name) && 2 * Utf8Len(name) <= MAX_HEX
    ensures LinkName("loom-document:" + TargetOf(name), true) == Some(name)
    ensures LinkName("loom-document:" + TargetOf(name), false) == None
  {
    var target := "loom-document:" + TargetOf(name);
    assert target[..|"loom-document:"|] == "loom-document:" && target[|"loom-document:"|..] == TargetOf(name);
    TargetNamesTheDocument(name);
  }

  /** A link or image that starts at `p`: where it ends, and the identity it retains, if any. */
  datatype Link = NoLink | Link(end: nat, name: Option<string>)

  /** Reads the link once the partners of its bracket and of its parenthesis are known. */
  function LinkOf(source: string, end: nat, p: nat, bracket: Option<nat>, parenthesis: Option<nat>): (link: Link)
    requires p < end <= |source|
    requires bracket.Some? ==> p < bracket.value < end
    requires bracket.Some? && parenthesis.Some? ==> bracket.value + 1 < parenthesis.value < end
    ensures link.Link? ==> p < link.end <= end
    ensures link.Link? && link.name.Some? ==>
              source[p] != '!' && bracket.Some? && parenthesis.Some? && link.end == parenthesis.value + 1
  {
    if bracket.None? || bracket.value + 1 >= end || source[bracket.value + 1] != '(' then NoLink
    else
      var stop := if parenthesis.Some? then parenthesis.value + 1 else end;
      if source[p] == '!' then Link(stop, None)
      else
        var target := source[bracket.value + 2..if parenthesis.Some? then parenthesis.value else end];
        Link(stop, LinkName(target, parenthesis.Some? && source[p + 1] == '@'))
  }

  function LabelStart(source: string, p: nat): nat
    requires p < |source|
  {
    if source[p] == '!' then p + 1 else p
  }

  /** The link at `p`, found by searching forward for the partners of its delimiters. */
  function LinkAt(source: string, begin: nat, end: nat, p: nat): (link: Link)
    requires begin <= p < end <= |source|
    ensures link.Link? ==> p < link.end <= end
    ensures link.Link? && link.name.Some? ==> source[p] == '[' && source[link.end - 1] == ')'
  {
    var start := LabelStart(source, p);
    if start >= end || source[start] != '[' then NoLink
    else
      var bracket := Matching(source, begin, end, start);
      if bracket.Some? && bracket.value + 1 < end && source[bracket.value + 1] == '(' then
        LinkOf(source, end, p, bracket, Matching(source, begin, end, bracket.value + 1))
      else NoLink
  }

  predicate StartsReference(source: string, begin: nat, p: nat, alphanumeric: set<char>)
    requires begin <= p < |source|
  {
    source[p] == '@'
    && (p == begin
        || !(source[p - 1] in alphanumeric || source[p - 1] == '_' || source[p - 1] == '.' || source[p - 1] == '/'
             || source[p - 1] == '@' || source[p - 1] == '-'))
  }

  /** The length of the name without its final full stops. */
  function BareLength(name: string): (n: nat)
    ensures n <= |name| && (n > 0 ==> name[n - 1] != '.')
  {
    if name != [] && name[|name| - 1] == '.' then BareLength(name[..|name| - 1]) else |name|
  }

  function ReferenceAt(source: string, p: nat, alphanumeric: set<char>): (r: Option<DocumentReference>)
    requires p < |source|
    ensures r.Some? ==> r.value.start == p && p + 1 < r.value.end <= |source|
  {
    match Name(source, p + 1, 0, alphanumeric)
    case Err(_) => None
    case Ok(name) =>
      if Starts(source, p + 1, "\"") || Starts(source, p + 1, "\U{201C}") then
        if name.value == "" then None else Some(DocumentReference(name.value, p, name.next))
      else
        var n := BareLength(name.value);
        BareNameSpan(source, p + 1, alphanumeric);
        if n == 0 then None else Some(DocumentReference(name.value[..n], p, p + 1 + n))
  }

  lemma BareNameSpan(source: string, i: nat, alphanumeric: set<char>)
    requires i <= |source| && !Starts(source, i, "\"") && !Starts(source, i, "\U{201C}")
    ensures Name(source, i, 0, alphanumeric).Ok? ==>
              Name(source, i, 0, alphanumeric).value.next == i + |Name(source, i, 0, alphanumeric).value.value|
  {}

  // ---------- A name stays in its line ----------

  lemma {:induction false} QuotedStaysInLine(source: string, i: nat, closing: char, text: string, nodes: nat)
    requires i <= |source| && QuotedRest(source, i, closing, text, nodes).Ok? && closing != '\n'
    ensures forall k | i <= k < QuotedRest(source, i, closing, text, nodes).value.next :: source[k] != '\n'
    decreases |source| - i
  {
    if source[i] != closing {
      if source[i] == '\\' {
        assert source[i + 1] != '\n';
        QuotedStaysInLine(source, i + 2, closing, text + [Unescape(source[i + 1]).value], nodes);
      } else {
        QuotedStaysInLine(source, i + 1, closing, text + [source[i]], nodes);
      }
    }
  }

  lemma {:induction false} BareStaysInLine(source: string, i: nat, alphanumeric: set<char>)
    requires i <= |source| && Sane(alphanumeric)
    ensures forall k | i <= k < NameEnd(source, i, alphanumeric) :: source[k] != '\n'
    decreases |source| - i
  {
    if i < |source| {
      if Starts(source, i, "::") {
        assert source[i + 1] == "::"[1];
        BareStaysInLine(source, i + 2, alphanumeric);
      } else if IsNameChar(source[i], alphanumeric) {
        BareStaysInLine(source, i + 1, alphanumeric);
      }
    }
  }

  lemma NameStaysInLine(source: string, i: nat, alphanumeric: set<char>)
    requires i <= |source| && Sane(alphanumeric)
    ensures Name(source, i, 0, alphanumeric).Ok? ==>
              forall k | i <= k < Name(source, i, 0, alphanumeric).value.next :: source[k] != '\n'
  {
    if Name(source, i, 0, alphanumeric).Ok? {
      if Starts(source, i, "\"") || Starts(source, i, "\U{201C}") {
        QuotedStaysInLine(source, i + 1, if Starts(source, i, "\U{201C}") then '\U{201D}' else '\"', "", 0);
      } else {
        BareStaysInLine(source, i, alphanumeric);
      }
    }
  }

  predicate IsLine(source: string, begin: nat, end: nat) {
    && begin < end <= |source| && (end < |source| ==> source[end - 1] == '\n')
    && forall k | begin <= k < end - 1 :: source[k] != '\n'
  }

  lemma ReferenceFitsLine(source: string, begin: nat, end: nat, p: nat, alphanumeric: set<char>)
    requires IsLine(source, begin, end) && begin <= p < end && source[p] == '@' && Sane(alphanumeric)
    ensures ReferenceAt(source, p, alphanumeric).Some? ==>
              && ReferenceAt(source, p, alphanumeric).value.end <= end
              && forall k | p <= k < ReferenceAt(source, p, alphanumeric).value.end :: source[k] != '\n'
  {
    NameStaysInLine(source, p + 1, alphanumeric);
    BareNameSpanAt(source, p, alphanumeric);
  }

  lemma BareNameSpanAt(source: string, p: nat, alphanumeric: set<char>)
    requires p < |source|
    ensures ReferenceAt(source, p, alphanumeric).Some? ==>
              && Name(source, p + 1, 0, alphanumeric).Ok?
              && ReferenceAt(source, p, alphanumeric).value.end <= Name(source, p + 1, 0, alphanumeric).value.next
  {
    if !Starts(source, p + 1, "\"") && !Starts(source, p + 1, "\U{201C}") {
      BareNameSpan(source, p + 1, alphanumeric);
    }
  }

  // ---------- The scan ----------

  /** Where the scan goes next, the code span it is in then, and the reference it passed. */
  datatype Stepped = Stepped(next: nat, ticks: nat, found: Option<DocumentReference>)

  ghost function Step(source: string, begin: nat, end: nat, p: nat, ticks: nat, alphanumeric: set<char>): (s: Stepped)
    requires IsLine(source, begin, end) && begin <= p < end && Sane(alphanumeric)
    ensures p < s.next <= end
    ensures s.found.Some? ==> s.found.value.start == p && s.found.value.end == s.next
  {
    if source[p] == '`' then
      var stop := RunEnd(source, p, end);
      if ticks == stop - p then Stepped(stop, 0, None)
      else if ticks == 0 && LaterRun(source, p, stop - p) then Stepped(stop, stop - p, None)
      else Stepped(stop, ticks, None)
    else if ticks != 0 then Stepped(p + 1, ticks, None)
    else Prose(source, begin, end, p, LinkAt(source, begin, end, p), alphanumeric)
  }

  /** One step outside of code, once it is known whether a link starts here. */
  function Prose(source: string, begin: nat, end: nat, p: nat, link: Link, alphanumeric: set<char>): (s: Stepped)
    requires IsLine(source, begin, end) && begin <= p < end && Sane(alphanumeric)
    requires link.Link? ==> p < link.end <= end
    ensures p < s.next <= end && s.ticks == 0
    ensures s.found.Some? ==> s.found.value.start == p && s.found.value.end == s.next
  {
    if source[p] == '\\' then Stepped(if p + 2 <= end then p + 2 else end, 0, None)
    else if (source[p] == '[' || source[p] == '!') && link.Link? then
      Stepped(link.end, 0, if link.name.Some? then Some(DocumentReference(link.name.value, p, link.end)) else None)
    else if !StartsReference(source, begin, p, alphanumeric) then Stepped(p + 1, 0, None)
    else
      ReferenceFitsLine(source, begin, end, p, alphanumeric);
      var reference := ReferenceAt(source, p, alphanumeric);
      if reference.Some? then Stepped(reference.value.end, 0, reference) else Stepped(p + 1, 0, None)
  }

  datatype State = State(fence: Option<Fence>, ticks: nat, references: seq<DocumentReference>)

  function Push(references: seq<DocumentReference>, found: Option<DocumentReference>): Result<seq<DocumentReference>, SyntaxError> {
    if found.None? then Ok(references)
    else if |references| == MAX_NODES then Err(SyntaxError(found.value.start, TooManyNodes))
    else Ok(references + [found.value])
  }

  ghost function ScanLine(source: string, begin: nat, end: nat, p: nat, ticks: nat, references: seq<DocumentReference>, alphanumeric: set<char>)
    : Result<State, SyntaxError>
    requires IsLine(source, begin, end) && begin <= p <= end && Sane(alphanumeric)
    decreases end - p
  {
    if p == end then Ok(State(None, ticks, references))
    else
      var step := Step(source, begin, end, p, ticks, alphanumeric);
      var pushed :- Push(references, step.found);
      ScanLine(source, begin, end, step.next, step.ticks, pushed, alphanumeric)
  }

  /** The scan from the line at `begin` on. */
  ghost function Scan(source: string, begin: nat, state: State, alphanumeric: set<char>): Result<State, SyntaxError>
    requires begin <= |source| && Sane(alphanumeric)
    decreases |source| - begin
  {
    if begin == |source| then Ok(state)
    else
      var end := LineEnd(source, begin);
      match Classify(source, begin, end, state.fence, state.ticks)
      case Fenced(fence) => Scan(source, end, state.(fence := fence), alphanumeric)
      case Quoted => Scan(source, end, state, alphanumeric)
      case Scanned =>
        var line :- ScanLine(source, begin, end, begin, state.ticks, state.references, alphanumeric);
        Scan(source, end, line, alphanumeric)
  }

  ghost function References(source: string, alphanumeric: set<char>): Result<seq<DocumentReference>, SyntaxError>
    requires Sane(alphanumeric)
  {
    if Utf8Len(source) > MAX_DOCUMENT_BYTES then Err(SyntaxError(MAX_DOCUMENT_BYTES, TooLong))
    else
      var end :- Scan(source, 0, State(None, 0, []), alphanumeric);
      Ok(end.references)
  }

  // ---------- Every span that opens also closes ----------

  /** While a code span of this width is open, a whole run that closes it lies ahead. */
  ghost predicate WillClose(source: string, p: nat, ticks: nat) {
    ticks != 0 ==> Boundary(source, p) && exists j: nat :: p <= j && Run(source, j, ticks)
  }

  lemma RunInLine(source: string, begin: nat, end: nat, p: nat)
    requires IsLine(source, begin, end) && begin <= p < end && source[p] == '`'
    ensures RunEnd(source, p, end) == RunEnd(source, p, |source|) > p
    ensures Boundary(source, RunEnd(source, p, end))
    ensures forall j: nat, w: nat | p < j && Run(source, j, w) :: RunEnd(source, p, end) < j
  {
    var stop := RunEnd(source, p, end);
    RunStops(source, p, end);
    forall j: nat, w: nat | p < j && Run(source, j, w) ensures stop < j {
      assert source[j] == '`' && source[j - 1] != '`';
    }
  }

  lemma {:induction false} RunStops(source: string, p: nat, end: nat)
    requires p < end <= |source| && (end < |source| ==> source[end - 1] != '`')
    ensures RunEnd(source, p, end) == RunEnd(source, p, |source|)
    decreases end - p
  {
    if source[p] == '`' {
      if p + 1 < end { RunStops(source, p + 1, end); }
    }
  }

  lemma StepWillClose(source: string, begin: nat, end: nat, p: nat, ticks: nat, alphanumeric: set<char>)
    requires IsLine(source, begin, end) && begin <= p < end && Sane(alphanumeric) && WillClose(source, p, ticks)
    ensures var s := Step(source, begin, end, p, ticks, alphanumeric); WillClose(source, s.next, s.ticks)
  {
    var s := Step(source, begin, end, p, ticks, alphanumeric);
    if source[p] == '`' {
      RunInLine(source, begin, end, p);
      if s.ticks != 0 && ticks != 0 {
        var j: nat :| p <= j && Run(source, j, ticks);
        assert j != p;
      }
    } else if ticks != 0 {
      var j: nat :| p <= j && Run(source, j, ticks);
      assert source[j] == '`';
    }
  }

  lemma {:induction false} LineWillClose(source: string, begin: nat, end: nat, p: nat, ticks: nat,
                                         references: seq<DocumentReference>, alphanumeric: set<char>)
    requires IsLine(source, begin, end) && begin <= p <= end && Sane(alphanumeric) && WillClose(source, p, ticks)
    ensures var line := ScanLine(source, begin, end, p, ticks, references, alphanumeric);
            line.Ok? ==> WillClose(source, end, line.value.ticks) && line.value.fence.None?
    decreases end - p
  {
    if p < end {
      var step := Step(source, begin, end, p, ticks, alphanumeric);
      var pushed := Push(references, step.found);
      StepWillClose(source, begin, end, p, ticks, alphanumeric);
      if pushed.Ok? { LineWillClose(source, begin, end, step.next, step.ticks, pushed.value, alphanumeric); }
    }
  }

  lemma {:induction false} ScanWillClose(source: string, begin: nat, state: State, alphanumeric: set<char>)
    requires begin <= |source| && Sane(alphanumeric) && WillClose(source, begin, state.ticks)
    requires state.fence.Some? ==> state.ticks == 0
    ensures Scan(source, begin, state, alphanumeric).Ok? ==> Scan(source, begin, state, alphanumeric).value.ticks == 0
    decreases |source| - begin
  {
    if begin < |source| {
      var end := LineEnd(source, begin);
      match Classify(source, begin, end, state.fence, state.ticks)
      case Fenced(fence) => ScanWillClose(source, end, state.(fence := fence), alphanumeric);
      case Quoted => ScanWillClose(source, end, state, alphanumeric);
      case Scanned =>
        LineWillClose(source, begin, end, begin, state.ticks, state.references, alphanumeric);
        var line := ScanLine(source, begin, end, begin, state.ticks, state.references, alphanumeric);
        if line.Ok? { ScanWillClose(source, end, line.value, alphanumeric); }
    }
  }

  /** No code span is open when the input ends, whatever escapes, fences, quotes and links it holds. */
  lemma NoSpanLeftOpen(source: string, alphanumeric: set<char>)
    requires Sane(alphanumeric)
    ensures var end := Scan(source, 0, State(None, 0, []), alphanumeric); end.Ok? ==> end.value.ticks == 0
  {
    ScanWillClose(source, 0, State(None, 0, []), alphanumeric);
  }

  // ---------- Ranges ----------

  /** One reported range: not empty, inside one line, and starting as a mention or as a link. */
  ghost predicate GoodRange(source: string, r: DocumentReference) {
    && r.start < r.end <= |source| && (source[r.start] == '@' || (source[r.start] == '[' && source[r.end - 1] == ')'))
    && forall k | r.start <= k < r.end :: source[k] != '\n'
  }

  /** Increasing and disjoint, none beyond `p`. */
  ghost predicate InOrder(source: string, references: seq<DocumentReference>, p: nat) {
    && (forall i | 0 <= i < |references| :: GoodRange(source, references[i]) && references[i].end <= p)
    && (forall i, j | 0 <= i < j < |references| :: references[i].end <= references[j].start)
  }

  lemma StepRange(source: string, begin: nat, end: nat, p: nat, ticks: nat, alphanumeric: set<char>)
    requires IsLine(source, begin, end) && begin <= p < end && Sane(alphanumeric)
    ensures var s := Step(source, begin, end, p, ticks, alphanumeric); s.found.Some? ==> GoodRange(source, s.found.value)
  {
    if source[p] != '`' && ticks == 0 { ProseRange(source, begin, end, p, alphanumeric); }
  }

  lemma ProseRange(source: string, begin: nat, end: nat, p: nat, alphanumeric: set<char>)
    requires IsLine(source, begin, end) && begin <= p < end && Sane(alphanumeric)
    ensures var s := Prose(source, begin, end, p, LinkAt(source, begin, end, p), alphanumeric);
            s.found.Some? ==> GoodRange(source, s.found.value)
  {
    if source[p] == '@' {
      ReferenceFitsLine(source, begin, end, p, alphanumeric);
    } else {
      LinkStaysInLine(source, begin, end, p);
    }
  }

  lemma LinkStaysInLine(source: string, begin: nat, end: nat, p: nat)
    requires IsLine(source, begin, end) && begin <= p < end
    ensures var link := LinkAt(source, begin, end, p);
            link.Link? && link.name.Some? ==>
              source[p] == '[' && source[link.end - 1] == ')' && forall k | p <= k < link.end :: source[k] != '\n'
  {}

  lemma {:induction false} LineInOrder(source: string, begin: nat, end: nat, p: nat, ticks: nat,
                                       references: seq<DocumentReference>, alphanumeric: set<char>)
    requires IsLine(source, begin, end) && begin <= p <= end && Sane(alphanumeric)
    requires InOrder(source, references, p) && |references| <= MAX_NODES
    ensures var line := ScanLine(source, begin, end, p, ticks, references, alphanumeric);
            line.Ok? ==> InOrder(source, line.value.references, end) && |line.value.references| <= MAX_NODES
    decreases end - p
  {
    if p < end {
      var step := Step(source, begin, end, p, ticks, alphanumeric);
      var pushed := Push(references, step.found);
      StepRange(source, begin, end, p, ticks, alphanumeric);
      if pushed.Ok? { LineInOrder(source, begin, end, step.next, step.ticks, pushed.value, alphanumeric); }
    }
  }

  lemma {:induction false} ScanInOrder(source: string, begin: nat, state: State, alphanumeric: set<char>)
    requires begin <= |source| && Sane(alphanumeric)
    requires InOrder(source, state.references, begin) && |state.references| <= MAX_NODES
    ensures var end := Scan(source, begin, state, alphanumeric);
            end.Ok? ==> InOrder(source, end.value.references, |source|) && |end.value.references| <= MAX_NODES
    decreases |source| - begin
  {
    if begin < |source| {
      var end := LineEnd(source, begin);
      match Classify(source, begin, end, state.fence, state.ticks)
      case Fenced(fence) => ScanInOrder(source, end, state.(fence := fence), alphanumeric);
      case Quoted => ScanInOrder(source, end, state, alphanumeric);
      case Scanned =>
        LineInOrder(source, begin, end, begin, state.ticks, state.references, alphanumeric);
        var line := ScanLine(source, begin, end, begin, state.ticks, state.references, alphanumeric);
        if line.Ok? { ScanInOrder(source, end, line.value, alphanumeric); }
    }
  }

  /** Reported ranges increase, do not overlap, and each lies inside a single line. */
  lemma RangesInOrder(source: string, alphanumeric: set<char>)
    requires Sane(alphanumeric)
    ensures References(source, alphanumeric).Ok? ==>
              InOrder(source, References(source, alphanumeric).value, |source|) && |References(source, alphanumeric).value| <= MAX_NODES
  {
    ScanInOrder(source, 0, State(None, 0, []), alphanumeric);
  }

  // ---------- The scan as it runs ----------

  /** The same step from the tables: the last run of each width, and the partners in this line. */
  method TakeStep(source: string, begin: nat, end: nat, p: nat, ticks: nat, runs: map<nat, nat>,
                  delimiters: map<nat, nat>, alphanumeric: set<char>) returns (s: Stepped)
    requires IsLine(source, begin, end) && begin <= p < end && Sane(alphanumeric)
    requires IsLastRuns(source, runs) && IsMatching(source, begin, end, delimiters)
    ensures s == Step(source, begin, end, p, ticks, alphanumeric)
  {
    if source[p] == '`' {
      var stop := RunEnd(source, p, end);
      IndexAgrees(source, runs, p, stop - p);
      if ticks == stop - p { return Stepped(stop, 0, None); }
      if ticks == 0 && stop - p in runs && runs[stop - p] > p { return Stepped(stop, stop - p, None); }
      return Stepped(stop, ticks, None);
    }
    if ticks != 0 { return Stepped(p + 1, ticks, None); }
    var link := ReadLink(source, begin, end, p, delimiters);
    return Prose(source, begin, end, p, link, alphanumeric);
  }

  method ReadLink(source: string, begin: nat, end: nat, p: nat, delimiters: map<nat, nat>)
    returns (link: Link)
    requires begin <= p < end <= |source| && IsMatching(source, begin, end, delimiters)
    ensures link == LinkAt(source, begin, end, p)
  {
    var start := LabelStart(source, p);
    if start >= end || source[start] != '[' { return NoLink; }
    assert Matching(source, begin, end, start) == if start in delimiters then Some(delimiters[start]) else None;
    if start !in delimiters { return NoLink; }
    var bracket := delimiters[start];
    if bracket + 1 >= end || source[bracket + 1] != '(' { return NoLink; }
    var parenthesis := if bracket + 1 in delimiters then Some(delimiters[bracket + 1]) else None;
    assert Matching(source, begin, end, bracket + 1) == parenthesis;
    return LinkOf(source, end, p, Some(bracket), parenthesis);
  }

  method ReadLine(source: string, begin: nat, end: nat, ticks: nat, references: seq<DocumentReference>,
                  runs: map<nat, nat>, alphanumeric: set<char>) returns (r: Result<State, SyntaxError>)
    requires IsLine(source, begin, end) && Sane(alphanumeric) && IsLastRuns(source, runs)
    ensures r == ScanLine(source, begin, end, begin, ticks, references, alphanumeric)
  {
    var delimiters := MatchingLinkDelimiters(source, begin, end);
    var offset, open, found := begin, ticks, references;
    while offset < end
      invariant begin <= offset <= end
      invariant ScanLine(source, begin, end, offset, open, found, alphanumeric) == ScanLine(source, begin, end, begin, ticks, references, alphanumeric)
    {
      var step := TakeStep(source, begin, end, offset, open, runs, delimiters, alphanumeric);
      var pushed := Push(found, step.found);
      if pushed.Err? { return Err(pushed.error); }
      offset, open, found := step.next, step.ticks, pushed.value;
    }
    return Ok(State(None, open, found));
  }

  /** The scan with its precomputed tables computes what the plain forward searches mean. */
  method DocumentReferencesOf(source: string, alphanumeric: set<char>) returns (r: Result<seq<DocumentReference>, SyntaxError>)
    requires Sane(alphanumeric)
    ensures r == References(source, alphanumeric)
  {
    if Utf8Len(source) > MAX_DOCUMENT_BYTES { return Err(SyntaxError(MAX_DOCUMENT_BYTES, TooLong)); }
    var runs := LastTickRuns(source);
    var state := State(None, 0, []);
    var lineStart := 0;
    while lineStart < |source|
      invariant lineStart <= |source|
      invariant Scan(source, lineStart, state, alphanumeric) == Scan(source, 0, State(None, 0, []), alphanumeric)
      decreases |source| - lineStart
    {
      var end := LineEnd(source, lineStart);
      match Classify(source, lineStart, end, state.fence, state.ticks) {
        case Fenced(fence) => state := state.(fence := fence);
        case Quoted =>
        case Scanned =>
          var line := ReadLine(source, lineStart, end, state.ticks, state.references, runs, alphanumeric);
          if line.Err? { return Err(line.error); }
          state := line.value;
      }
      lineStart := end;
    }
    return Ok(state.references);
  }
}
