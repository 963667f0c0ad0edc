/** The durable form of a document, and what its validation promises. */
module Snapshot {
  import opened Wrappers
  import opened Unicode
  import opened Projection
  import opened History
  import opened BranchIndex
  import opened Counting

  const SCHEMA_VERSION := 1
  const MAX_METADATA_BYTES := 16 * 1024 * 1024

  datatype SourceKind = MessageSource | ArtifactSource

  datatype SourceReference = SourceReference(kind: SourceKind, occurrenceId: string, start: nat, end: nat)

  datatype Content = Inline(text: seq<byte>) | Source

  datatype SnapshotPart<+M> = SnapshotPart(
    id: string, parentId: Option<string>, kind: PartKind, source: SourceReference, content: Content, metadata: M)

  datatype Selection = Sequence | Branch(head: string) | LatestBranch

  datatype RevisionLineage = RevisionLineage(revisionId: string, parentRevisionId: Option<string>)

  datatype SourceLineage = SourceLineage(documentId: string, partId: Option<string>)

  datatype Snapshot<+M> = Snapshot(
    schemaVersion: nat, documentId: string, selection: Selection,
    revision: Option<RevisionLineage>, origin: Option<SourceLineage>, parts: seq<SnapshotPart<M>>)

  datatype SnapshotError = Metadata | Schema | Identity | Lineage | SourceRange | Content(document: DocumentError)
    | History(history: HistoryError)

  predicate ValidId(id: string) {
    id != "" && Utf8Len(id) <= 512
    && forall c | c in id :: !(c as int < 0x20 || 0x7f <= c as int < 0xa0)
  }

  function Nodes<M>(parts: seq<SnapshotPart<M>>): (nodes: seq<Node<string>>)
    ensures |nodes| == |parts|
  {
    seq(|parts|, i requires 0 <= i < |parts| => Node(parts[i].id, parts[i].parentId))
  }

  function Span<M>(part: SnapshotPart<M>): nat {
    if part.source.end >= part.source.start then part.source.end - part.source.start else 0
  }

  function Sum(lengths: seq<nat>): nat {
    if lengths == [] then 0 else Sum(lengths[..|lengths| - 1]) + lengths[|lengths| - 1]
  }

  function Spans<M>(parts: seq<SnapshotPart<M>>): (r: seq<nat>)
    ensures |r| == |parts|
  {
    seq(|parts|, i requires 0 <= i < |parts| => Span(parts[i]))
  }

  function MetadataSizes<M>(parts: seq<SnapshotPart<M>>, metadataBytes: M -> nat): (r: seq<nat>)
    ensures |r| == |parts|
  {
    seq<nat>(|parts|, i requires 0 <= i < |parts| => metadataBytes(parts[i].metadata))
  }

  ghost predicate PartSound<M>(part: SnapshotPart<M>) {
    && ValidId(part.id) && ValidId(part.source.occurrenceId)
    && part.source.start <= part.source.end
    && (part.content.Inline? ==> |part.content.text| == part.source.end - part.source.start)
  }

  ghost predicate IsHistory(nodes: seq<Node<string>>) {
    && |nodes| <= MAX_DOCUMENT_PARTS && DistinctIds(nodes) && ParentsExist(nodes)
    && (forall parents | Resolves(nodes, parents) :: InRange(parents) && Acyclic(parents))
  }

  /** The parts form a history, and a named branch is one of it. */
  ghost predicate WellLinked<M>(s: Snapshot<M>) {
    IsHistory(Nodes(s.parts)) && (s.selection.Branch? ==> HasId(Nodes(s.parts), s.selection.head))
  }

  /** What a validated snapshot is known to be. */
  ghost predicate Validated<M>(s: Snapshot<M>) {
    && s.schemaVersion == SCHEMA_VERSION && ValidId(s.documentId) && WellLinked(s)
    && (forall i | 0 <= i < |s.parts| :: PartSound(s.parts[i]))
    && Sum(Spans(s.parts)) <= MAX_DOCUMENT_BYTES
  }

  predicate LineageSound(revision: Option<RevisionLineage>, origin: Option<SourceLineage>) {
    && (revision.Some? ==>
          && ValidId(revision.value.revisionId)
          && (revision.value.parentRevisionId.Some? ==>
                && ValidId(revision.value.parentRevisionId.value)
                && revision.value.parentRevisionId.value != revision.value.revisionId))
    && (origin.Some? ==>
          ValidId(origin.value.documentId) && (origin.value.partId.Some? ==> ValidId(origin.value.partId.value)))
  }

  /** A well-named revision that claims to follow itself. */
  predicate OwnParent(revision: Option<RevisionLineage>) {
    && revision.Some? && ValidId(revision.value.revisionId)
    && revision.value.parentRevisionId == Some(revision.value.revisionId)
  }

  method ValidateLineage(revision: Option<RevisionLineage>, origin: Option<SourceLineage>) returns (r: Option<SnapshotError>)
    ensures r.None? <==> LineageSound(revision, origin)
    ensures r == Some(Lineage) <==> OwnParent(revision)
    ensures r.Some? ==> r.value == Identity || r.value == Lineage
  {
    if revision.Some? {
      if !ValidId(revision.value.revisionId) { return Some(Identity); }
      if revision.value.parentRevisionId.Some? {
        if !ValidId(revision.value.parentRevisionId.value) { return Some(Identity); }
        if revision.value.parentRevisionId.value == revision.value.revisionId { return Some(Lineage); }
      }
    }
    if origin.Some? {
      if !ValidId(origin.value.documentId) { return Some(Identity); }
      if origin.value.partId.Some? && !ValidId(origin.value.partId.value) { return Some(Identity); }
    }
    return None;
  }

  /** The first `k` parts give no reason to refuse. */
  ghost predicate SoundTo<M>(parts: seq<SnapshotPart<M>>, headerBytes: nat, metadataBytes: M -> nat, k: nat) {
    && k <= |parts| && headerBytes + Sum(MetadataSizes(parts, metadataBytes)[..k]) <= MAX_METADATA_BYTES
    && (forall i | 0 <= i < k :: PartSound(parts[i])) && Sum(Spans(parts)[..k]) <= MAX_DOCUMENT_BYTES
  }

  /** Part `k` is the first to give a reason, and this is the first reason it gives. */
  ghost predicate FaultAt<M>(parts: seq<SnapshotPart<M>>, headerBytes: nat, metadataBytes: M -> nat, k: nat, error: SnapshotError) {
    && k < |parts| && SoundTo(parts, headerBytes, metadataBytes, k)
    && var metadataFits := headerBytes + Sum(MetadataSizes(parts, metadataBytes)[..k + 1]) <= MAX_METADATA_BYTES;
       var named := ValidId(parts[k].id) && ValidId(parts[k].source.occurrenceId);
       match error
       case Metadata => !metadataFits
       case Identity => metadataFits && !named
       case SourceRange => metadataFits && named && !PartSound(parts[k])
       case Content(e) => e == ByteBudget && metadataFits && PartSound(parts[k]) && Sum(Spans(parts)[..k + 1]) > MAX_DOCUMENT_BYTES
       case _ => false
  }

  ghost predicate PartsRefused<M>(parts: seq<SnapshotPart<M>>, headerBytes: nat, metadataBytes: M -> nat, error: SnapshotError) {
    if headerBytes > MAX_METADATA_BYTES then error == Metadata
    else exists k :: FaultAt(parts, headerBytes, metadataBytes, k, error)
  }

  /** There is only one first fault, so the error of a refusal is determined. */
  lemma OneFirstFault<M>(parts: seq<SnapshotPart<M>>, headerBytes: nat, metadataBytes: M -> nat, k: nat, l: nat,
                         e: SnapshotError, f: SnapshotError)
    requires FaultAt(parts, headerBytes, metadataBytes, k, e) && FaultAt(parts, headerBytes, metadataBytes, l, f)
    ensures k == l && e == f
  {
    if k < l { LaterIsUnsound(parts, headerBytes, metadataBytes, k, l, e); }
    if l < k { LaterIsUnsound(parts, headerBytes, metadataBytes, l, k, f); }
  }

  lemma LaterIsUnsound<M>(parts: seq<SnapshotPart<M>>, headerBytes: nat, metadataBytes: M -> nat, k: nat, l: nat, e: SnapshotError)
    requires FaultAt(parts, headerBytes, metadataBytes, k, e) && k < l <= |parts|
    ensures !SoundTo(parts, headerBytes, metadataBytes, l)
  {
    var sizes, spans := MetadataSizes(parts, metadataBytes), Spans(parts);
    assert sizes[..l][..k + 1] == sizes[..k + 1] && spans[..l][..k + 1] == spans[..k + 1];
    SumPrefix(sizes[..l], k + 1);
    SumPrefix(spans[..l], k + 1);
  }

  /** Accepts the parts exactly when each is sound and together they fit; a refusal reports the first fault. */
  method ValidateParts<M>(parts: seq<SnapshotPart<M>>, headerBytes: nat, metadataBytes: M -> nat)
    returns (r: Option<SnapshotError>)
    ensures r.None? <==>
              && (forall i | 0 <= i < |parts| :: PartSound(parts[i])) && Sum(Spans(parts)) <= MAX_DOCUMENT_BYTES
              && headerBytes + Sum(MetadataSizes(parts, metadataBytes)) <= MAX_METADATA_BYTES
    ensures r.Some? ==> PartsRefused(parts, headerBytes, metadataBytes, r.value)
  {
    ghost var sizes := MetadataSizes(parts, metadataBytes);
    ghost var spans := Spans(parts);
    var written := headerBytes;
    if written > MAX_METADATA_BYTES { return Some(Metadata); }
    var length := 0;
    for k := 0 to |parts|
      invariant SoundTo(parts, headerBytes, metadataBytes, k)
      invariant length == Sum(spans[..k]) && written == headerBytes + Sum(sizes[..k])
    {
      var part := parts[k];
      SumNext(sizes, k);
      SumNext(spans, k);
      written := written + metadataBytes(part.metadata);
      if written > MAX_METADATA_BYTES {
        assert FaultAt(parts, headerBytes, metadataBytes, k, Metadata);
        return Some(Metadata);
      }
      if !ValidId(part.id) || !ValidId(part.source.occurrenceId) {
        assert FaultAt(parts, headerBytes, metadataBytes, k, Identity);
        return Some(Identity);
      }
      if !PartSound(part) { assert FaultAt(parts, headerBytes, metadataBytes, k, SourceRange); }
      if part.source.end < part.source.start { return Some(SourceRange); }
      var bytes := part.source.end - part.source.start;
      if part.content.Inline? && |part.content.text| != bytes { return Some(SourceRange); }
      length := length + bytes;
      if length > MAX_DOCUMENT_BYTES {
        assert FaultAt(parts, headerBytes, metadataBytes, k, Content(ByteBudget));
        return Some(Content(ByteBudget));
      }
    }
    assert spans[..|parts|] == spans && sizes[..|parts|] == sizes;
    return None;
  }

  lemma {:induction false} SumPrefix(lengths: seq<nat>, k: nat)
    requires k <= |lengths|
    ensures Sum(lengths[..k]) <= Sum(lengths)
    decreases |lengths|
  {
    if k < |lengths| {
      assert lengths[..|lengths| - 1][..k] == lengths[..k];
      SumPrefix(lengths[..|lengths| - 1], k);
    } else {
      assert lengths[..k] == lengths;
    }
  }

  lemma SumNext(lengths: seq<nat>, k: nat)
    requires k < |lengths|
    ensures Sum(lengths[..k + 1]) == Sum(lengths[..k]) + lengths[k] <= Sum(lengths)
  {
    assert lengths[..k + 1][..k] == lengths[..k];
    SumPrefix(lengths, k + 1);
  }

  lemma ValidResolvesAlone(ix: Index<string>)
    requires Valid(ix)
    ensures forall parents | Resolves(ix.nodes, parents) :: InRange(parents) && Acyclic(parents)
  {
    ValidIsAcyclic(ix);
    forall parents | Resolves(ix.nodes, parents) ensures InRange(parents) && Acyclic(parents) {
      ResolutionUnique(ix.nodes, parents, ix.parents);
    }
  }

  /** The cause of each error of an index, in the order in which it is built. */
  ghost predicate IndexRefused(nodes: seq<Node<string>>, error: HistoryError) {
    match error
    case NodeBudget => |nodes| > MAX_DOCUMENT_PARTS
    case DuplicateId => |nodes| <= MAX_DOCUMENT_PARTS && !DistinctIds(nodes)
    case MissingParent => |nodes| <= MAX_DOCUMENT_PARTS && DistinctIds(nodes) && !ParentsExist(nodes)
    case Cycle => && |nodes| <= MAX_DOCUMENT_PARTS && DistinctIds(nodes) && ParentsExist(nodes)
                  && exists parents :: Resolves(nodes, parents) && !Acyclic(parents)
    case MissingHead => false
  }

  method IndexNodes(nodes: seq<Node<string>>) returns (r: Result<Index<string>, HistoryError>)
    ensures r.Ok? <==> IsHistory(nodes)
    ensures r.Ok? ==> Valid(r.value) && r.value.nodes == nodes
    ensures r.Err? ==> IndexRefused(nodes, r.error)
  {
    ghost var looked;
    r, looked := New(nodes);
    if r.Ok? { ValidResolvesAlone(r.value); }
  }

  /** Indexes the parts and looks up the named branch. */
  method ValidateHistory<M>(s: Snapshot<M>) returns (r: Option<HistoryError>)
    ensures r.None? <==> WellLinked(s)
    ensures r.Some? ==>
              if IsHistory(Nodes(s.parts)) then r.value == MissingHead else IndexRefused(Nodes(s.parts), r.value)
  {
    var index := IndexNodes(Nodes(s.parts));
    if index.Err? { return Some(index.error); }
    if s.selection.Branch? {
      var path := Path(index.value, Some(s.selection.head));
      if path.Err? { return Some(path.error); }
    }
    return None;
  }

  /** The cause of each error, in the order in which the checks are made. */
  ghost predicate Refused<M>(s: Snapshot<M>, headerBytes: nat, metadataBytes: M -> nat, error: SnapshotError) {
    if s.schemaVersion != SCHEMA_VERSION then error == Schema
    else if !ValidId(s.documentId) then error == Identity
    else if !LineageSound(s.revision, s.origin) then error == if OwnParent(s.revision) then Lineage else Identity
    else if !IsHistory(Nodes(s.parts)) then error.History? && IndexRefused(Nodes(s.parts), error.history)
    else if !WellLinked(s) then error == History(MissingHead)
    else PartsRefused(s.parts, headerBytes, metadataBytes, error)
  }

  /** A snapshot is accepted exactly when its structure, its lineage and its metadata size are all in order. */
  method Validate<M>(s: Snapshot<M>, headerBytes: nat, metadataBytes: M -> nat) returns (r: Option<SnapshotError>)
    ensures r.None? <==>
              && Validated(s) && LineageSound(s.revision, s.origin)
              && headerBytes + Sum(MetadataSizes(s.parts, metadataBytes)) <= MAX_METADATA_BYTES
    ensures r.Some? ==> Refused(s, headerBytes, metadataBytes, r.value)
  {
    if s.schemaVersion != SCHEMA_VERSION { return Some(Schema); }
    if !ValidId(s.documentId) { return Some(Identity); }
    var lineage := ValidateLineage(s.revision, s.origin);
    if lineage.Some? { return lineage; }
    var history := ValidateHistory(s);
    if history.Some? { return Some(History(history.value)); }
    var parts := ValidateParts(s.parts, headerBytes, metadataBytes);
    return parts;
  }

  // ---------- Resolution ----------

  datatype ResolveError<+E> = Snapshotted(error: SnapshotError) | Callback(error': E)

  /** The positions a selection names, in order. */
  ghost predicate Selects<M>(s: Snapshot<M>, line: seq<nat>) {
    && (forall i | 0 <= i < |line| :: line[i] < |s.parts|)
    && (forall i, j | 0 <= i < j < |line| :: line[i] != line[j])
    && match s.selection
       case Sequence => line == seq(|s.parts|, i => i)
       case Branch(head) => line != [] && s.parts[line[|line| - 1]].id == head && IsBranch(s, line)
       case LatestBranch => if s.parts == [] then line == []
                            else line != [] && line[|line| - 1] == |s.parts| - 1 && IsBranch(s, line)
  }

  /** A root first, and each next part names the one before it as its parent. */
  ghost predicate IsBranch<M>(s: Snapshot<M>, line: seq<nat>)
    requires line != [] && forall i | 0 <= i < |line| :: line[i] < |s.parts|
  {
    && s.parts[line[0]].parentId.None?
    && forall i | 0 < i < |line| :: s.parts[line[i]].parentId == Some(s.parts[line[i - 1]].id)
  }

  /** What was validated can be indexed again. */
  method IndexOf<M>(s: Snapshot<M>) returns (index: Index<string>)
    requires Validated(s)
    ensures Valid(index) && index.nodes == Nodes(s.parts)
  {
    var built := IndexNodes(Nodes(s.parts));
    index := built.value;
  }

  method Select<M>(s: Snapshot<M>) returns (line: seq<nat>)
    requires Validated(s)
    ensures Selects(s, line)
  {
    var index := IndexOf(s);
    match s.selection
    case Sequence =>
      line := seq(|s.parts|, i => i);
    case Branch(head) =>
      line := BranchTo(s, index, head);
    case LatestBranch =>
      if s.parts == [] { return []; }
      line := BranchToLast(s, index);
  }

  method BranchToLast<M>(s: Snapshot<M>, index: Index<string>) returns (line: seq<nat>)
    requires s.parts != [] && Valid(index) && index.nodes == Nodes(s.parts)
    ensures line != [] && (forall i | 0 <= i < |line| :: line[i] < |s.parts|) && IsBranch(s, line)
    ensures forall i, j | 0 <= i < j < |line| :: line[i] != line[j]
    ensures line[|line| - 1] == |s.parts| - 1
  {
    var last := s.parts[|s.parts| - 1].id;
    assert Nodes(s.parts)[|s.parts| - 1].id == last;
    line := BranchTo(s, index, last);
    assert Nodes(s.parts)[line[|line| - 1]].id == last;
  }

  method BranchTo<M>(s: Snapshot<M>, index: Index<string>, head: string) returns (line: seq<nat>)
    requires Valid(index) && index.nodes == Nodes(s.parts) && HasId(index.nodes, head)
    ensures line != [] && (forall i | 0 <= i < |line| :: line[i] < |s.parts|) && IsBranch(s, line)
    ensures forall i, j | 0 <= i < j < |line| :: line[i] != line[j]
    ensures s.parts[line[|line| - 1]].id == head
  {
    var path := Path(index, Some(head));
    line := path.value;
    PathIsBranch(s, index, line, head);
  }

  lemma PathIsBranch<M>(s: Snapshot<M>, ix: Index<string>, line: seq<nat>, head: string)
    requires Valid(ix) && ix.nodes == Nodes(s.parts) && IsPathTo(ix, line, head)
    ensures (forall i | 0 <= i < |line| :: line[i] < |s.parts|) && IsBranch(s, line)
    ensures s.parts[line[|line| - 1]].id == head
  {
    assert LinkedTo(ix.nodes, line[0], ix.parents[line[0]]);
    forall i | 0 < i < |line| ensures s.parts[line[i]].parentId == Some(s.parts[line[i - 1]].id) {
      assert LinkedTo(ix.nodes, line[i], ix.parents[line[i]]);
      assert ix.nodes[line[i]].parent == s.parts[line[i]].parentId;
    }
  }

  /** The total length of the positions in `line`. */
  function Weight(lengths: seq<nat>, line: seq<nat>): nat
    requires forall i | 0 <= i < |line| :: line[i] < |lengths|
  {
    if line == [] then 0 else Weight(lengths, line[..|line| - 1]) + lengths[line[|line| - 1]]
  }

  lemma {:induction false} WeightWithout(lengths: seq<nat>, line: seq<nat>, k: nat)
    requires (forall i | 0 <= i < |line| :: line[i] < |lengths|) && k < |line|
    ensures Weight(lengths, line) == Weight(lengths, line[..k] + line[k + 1..]) + lengths[line[k]]
    decreases |line|
  {
    var rest := line[..|line| - 1];
    if k == |line| - 1 {
      assert line[..k] + line[k + 1..] == rest;
    } else {
      var without := line[..k] + line[k + 1..];
      WeightWithout(lengths, rest, k);
      assert without[..|without| - 1] == rest[..k] + rest[k + 1..];
    }
  }

  lemma WithoutTheLast(line: seq<nat>, k: nat, last: nat)
    requires k < |line| && line[k] == last && forall i | 0 <= i < |line| :: line[i] <= last
    requires forall i, j | 0 <= i < j < |line| :: line[i] != line[j]
    ensures var without := line[..k] + line[k + 1..];
            && (forall i | 0 <= i < |without| :: without[i] < last)
            && forall i, j | 0 <= i < j < |without| :: without[i] != without[j]
  {
    var without := line[..k] + line[k + 1..];
    forall i | 0 <= i < |without| ensures without[i] == line[if i < k then i else i + 1] {}
  }

  /** Distinct parts never add up to more than all of them. */
  lemma {:induction false} DistinctSumFits(lengths: seq<nat>, line: seq<nat>)
    requires (forall i | 0 <= i < |line| :: line[i] < |lengths|) && forall i, j | 0 <= i < j < |line| :: line[i] != line[j]
    ensures Weight(lengths, line) <= Sum(lengths)
    decreases |lengths|
  {
    if line == [] { return; }
    assert line[0] < |lengths|;
    var last := |lengths| - 1;
    var shorter := lengths[..last];
    if last in line {
      var k :| 0 <= k < |line| && line[k] == last;
      var without := line[..k] + line[k + 1..];
      WeightWithout(lengths, line, k);
      WithoutTheLast(line, k, last);
      WeightPrefix(lengths, without, last);
      DistinctSumFits(shorter, without);
    } else {
      forall i | 0 <= i < |line| ensures line[i] < last { assert line[i] in line; }
      WeightPrefix(lengths, line, last);
      DistinctSumFits(shorter, line);
    }
  }

  lemma {:induction false} WeightPrefix(lengths: seq<nat>, line: seq<nat>, n: nat)
    requires n <= |lengths| && forall i | 0 <= i < |line| :: line[i] < n
    ensures Weight(lengths, line) == Weight(lengths[..n], line)
    decreases |line|
  {
    if line != [] { WeightPrefix(lengths, line[..|line| - 1], n); }
  }

  lemma NextPartFits(lengths: seq<nat>, line: seq<nat>, k: nat)
    requires (forall i | 0 <= i < |line| :: line[i] < |lengths|) && forall i, j | 0 <= i < j < |line| :: line[i] != line[j]
    requires k < |line|
    ensures Weight(lengths, line[..k + 1]) == Weight(lengths, line[..k]) + lengths[line[k]] <= Sum(lengths)
  {
    var next := line[..k + 1];
    assert next[..k] == line[..k];
    DistinctSumFits(lengths, next);
  }

  /** The bytes that a snapshot part stands for: its own text, or the range of what its source answered. */
  ghost predicate HasText<M, E>(part: SnapshotPart<M>, position: nat, fetch: (nat, SourceReference) -> Result<seq<byte>, E>,
                                isUtf8: seq<byte> -> bool, text: seq<byte>)
  {
    match part.content
    case Inline(inline) => text == inline
    case Source =>
      match fetch(position, part.source)
      case Ok(bytes) => part.source.start <= part.source.end <= |bytes|
                        && text == bytes[part.source.start..part.source.end] && isUtf8(text)
      case Err(_) => false
  }

  /** The document part that a snapshot part stands for. */
  ghost predicate Represents<M, E>(part: SnapshotPart<M>, position: nat, fetch: (nat, SourceReference) -> Result<seq<byte>, E>,
                                   isUtf8: seq<byte> -> bool, shown: Part<SourceReference, M>)
  {
    && shown.source == part.source && shown.start == part.source.start && shown.end == part.source.end
    && shown.kind == part.kind && shown.metadata == part.metadata
    && |shown.text| == Span(part) && HasText(part, position, fetch, isUtf8, shown.text)
  }

  method ResolvePart<M, E>(part: SnapshotPart<M>, position: nat, document: Document<SourceReference, M>,
                           fetch: (nat, SourceReference) -> Result<seq<byte>, E>, isUtf8: seq<byte> -> bool)
    returns (r: Option<ResolveError<E>>)
    requires document.Valid() && PartSound(part)
    requires |document.parts| < MAX_DOCUMENT_PARTS && |Joined(document.parts)| + Span(part) <= MAX_DOCUMENT_BYTES
    modifies document
    ensures document.Valid()
    ensures r.None? ==>
              && |document.parts| == |old(document.parts)| + 1
              && document.parts == old(document.parts) + [document.parts[|old(document.parts)|]]
              && Represents(part, position, fetch, isUtf8, document.parts[|old(document.parts)|])
    ensures r.Some? ==> part.content.Source? && FailsAtSource(part, position, fetch, isUtf8, r.value)
  {
    match part.content
    case Inline(text) =>
      var failed := document.Push(Part(part.source, part.source.start, part.source.end, text, part.kind, part.metadata));
      return None;
    case Source =>
      var bytes := fetch(position, part.source);
      if bytes.Err? { return Some(Callback(bytes.error)); }
      var failed := document.PushSlice(part.source, bytes.value, part.source.start, part.source.end, part.kind,
                                       part.metadata, isUtf8);
      if failed.Some? { return Some(Snapshotted(Content(failed.value))); }
      return None;
  }

  /** The first `k` selected parts, each represented, and no byte more than they span. */
  ghost predicate Shows<M, E>(s: Snapshot<M>, line: seq<nat>, k: nat, fetch: (nat, SourceReference) -> Result<seq<byte>, E>,
                              isUtf8: seq<byte> -> bool, shown: seq<Part<SourceReference, M>>)
    requires forall i | 0 <= i < |line| :: line[i] < |s.parts|
  {
    && |shown| == k <= |line|
    && (forall i | 0 <= i < k :: Represents(s.parts[line[i]], i, fetch, isUtf8, shown[i]))
    && |Joined(shown)| == Weight(Spans(s.parts), line[..k])
  }

  lemma RoomForNext<M>(s: Snapshot<M>, line: seq<nat>, k: nat, shown: seq<Part<SourceReference, M>>)
    requires Validated(s) && Selects(s, line) && k < |line|
    requires |shown| == k && |Joined(shown)| == Weight(Spans(s.parts), line[..k])
    ensures PartSound(s.parts[line[k]]) && |shown| < MAX_DOCUMENT_PARTS
    ensures |Joined(shown)| + Span(s.parts[line[k]]) <= MAX_DOCUMENT_BYTES
  {
    NextPartFits(Spans(s.parts), line, k);
    DistinctFit(line, |s.parts|);
  }

  lemma ShowsNext<M, E>(s: Snapshot<M>, line: seq<nat>, k: nat, fetch: (nat, SourceReference) -> Result<seq<byte>, E>,
                        isUtf8: seq<byte> -> bool, shown: seq<Part<SourceReference, M>>, part: Part<SourceReference, M>)
    requires Selects(s, line) && k < |line|
    requires Shows(s, line, k, fetch, isUtf8, shown) && Represents(s.parts[line[k]], k, fetch, isUtf8, part)
    ensures Shows(s, line, k + 1, fetch, isUtf8, shown + [part])
  {
    assert (shown + [part])[..k] == shown;
    NextPartFits(Spans(s.parts), line, k);
  }

  /** The only three ways that resolving a validated part can fail, each traced to its cause. */
  ghost predicate FailsAtSource<M, E>(part: SnapshotPart<M>, position: nat,
                                      fetch: (nat, SourceReference) -> Result<seq<byte>, E>, isUtf8: seq<byte> -> bool,
                                      error: ResolveError<E>)
  {
    match fetch(position, part.source)
    case Err(e) => error == Callback(e)
    case Ok(bytes) =>
      if part.source.end > |bytes| then error == Snapshotted(Content(InvalidRange))
      else part.source.start <= part.source.end && !isUtf8(bytes[part.source.start..part.source.end])
           && error == Snapshotted(Content(InvalidUtf8))
  }

  /**
   A validated snapshot resolves to exactly its selected parts, each with its own text or with the
   range of bytes that its source answered, unless a source callback fails, answers with too few
   bytes, or answers with bytes that are not UTF-8. History and budget
   errors cannot happen any more.
   */
  method Resolve<M, E>(s: Snapshot<M>, fetch: (nat, SourceReference) -> Result<seq<byte>, E>, isUtf8: seq<byte> -> bool)
    returns (r: Result<Document<SourceReference, M>, ResolveError<E>>, ghost line: seq<nat>)
    requires Validated(s)
    ensures Selects(s, line)
    ensures r.Ok? ==>
              && fresh(r.value) && r.value.Valid() && |r.value.parts| == |line|
              && forall i | 0 <= i < |line| :: Represents(s.parts[line[i]], i, fetch, isUtf8, r.value.parts[i])
    ensures r.Err? ==>
              exists i :: 0 <= i < |line| && s.parts[line[i]].content.Source?
                          && FailsAtSource(s.parts[line[i]], i, fetch, isUtf8, r.error)
  {
    var selected := Select(s);
    line := selected;
    var document := new Document<SourceReference, M>();
    for k := 0 to |selected|
      invariant fresh(document) && document.Valid() && Shows(s, line, k, fetch, isUtf8, document.parts)
    {
      RoomForNext(s, line, k, document.parts);
      ghost var shown := document.parts;
      var failed := ResolvePart(s.parts[selected[k]], k, document, fetch, isUtf8);
      if failed.Some? { return Err(failed.value), line; }
      ShowsNext(s, line, k, fetch, isUtf8, shown, document.parts[k]);
    }
    return Ok(document), line;
  }
}
