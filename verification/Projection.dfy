/** One exact text projection. */
module Projection {
  // Ordered parts whose bytes are bounded and never rewritten.

  import opened Wrappers

  type byte = n: int | 0 <= n < 256

  const MAX_DOCUMENT_BYTES := 128 * 1024 * 1024
  const MAX_DOCUMENT_PARTS := 65536

  datatype MessageRole = System | User | Assistant | Tool

  datatype PartKind = Text | Prose | Verse | Message(role: MessageRole)

  datatype Part<+S, +M> = Part(source: S, start: nat, end: nat, text: seq<byte>, kind: PartKind, metadata: M)

  datatype DocumentError = ByteBudget | PartBudget | InvalidRange | InvalidUtf8

  predicate IsAscii(s: string) {
    forall i | 0 <= i < |s| :: s[i] as int < 128
  }

  /** ASCII text as bytes. */
  function Ascii(s: string): (r: seq<byte>)
    requires IsAscii(s)
    ensures |r| == |s|
  {
    if s == [] then [] else [s[0] as byte] + Ascii(s[1..])
  }

  function Label(role: MessageRole): (s: string)
    ensures IsAscii(s)
  {
    match role
    case System => "System"
    case User => "User"
    case Assistant => "Assistant"
    case Tool => "Tool"
  }

  /** The exact authored bytes, one part after another. */
  function Joined<S, M>(parts: seq<Part<S, M>>): seq<byte> {
    if parts == [] then [] else Joined(parts[..|parts| - 1]) + parts[|parts| - 1].text
  }

  /** The labelled rendering of the part at position `index`. */
  function Rendered<S, M>(part: Part<S, M>, index: nat): seq<byte> {
    (if index > 0 then Ascii("\n\n") else [])
    + (if part.kind.Message? then Ascii("## ") + Ascii(Label(part.kind.role)) + Ascii("\n") else [])
    + part.text
  }

  function Exported<S, M>(parts: seq<Part<S, M>>): seq<byte> {
    if parts == [] then []
    else Exported(parts[..|parts| - 1]) + Rendered(parts[|parts| - 1], |parts| - 1)
  }

  lemma {:induction false} ExportedGrows<S, M>(parts: seq<Part<S, M>>, k: nat)
    requires k <= |parts|
    ensures |Exported(parts[..k])| <= |Exported(parts)|
    decreases |parts|
  {
    if k < |parts| {
      var rest := parts[..|parts| - 1];
      assert rest[..k] == parts[..k];
      ExportedGrows(rest, k);
    } else {
      assert parts[..k] == parts;
    }
  }

  lemma ExportedNext<S, M>(parts: seq<Part<S, M>>, k: nat)
    requires k < |parts|
    ensures Exported(parts[..k + 1]) == Exported(parts[..k]) + Rendered(parts[k], k)
    ensures |Rendered(parts[k], k)| == (if k == 0 then 0 else 2) + |parts[k].text|
              + if parts[k].kind.Message? then |Label(parts[k].kind.role)| + 4 else 0
  {
    assert parts[..k + 1][..k] == parts[..k];
  }

  class Document<S, M> {
    var parts: seq<Part<S, M>>
    var byteLen: nat

    ghost predicate Valid()
      reads this
    {
      |parts| <= MAX_DOCUMENT_PARTS && byteLen == |Joined(parts)| && byteLen <= MAX_DOCUMENT_BYTES
    }

    constructor ()
      ensures Valid() && parts == []
    {
      parts, byteLen := [], 0;
    }

    method CheckCapacity(additional: nat) returns (r: Result<nat, DocumentError>)
      requires Valid()
      ensures r == Err(PartBudget) <==> |parts| >= MAX_DOCUMENT_PARTS
      ensures r == Err(ByteBudget) <==> |parts| < MAX_DOCUMENT_PARTS && |Joined(parts)| + additional > MAX_DOCUMENT_BYTES
      ensures r.Ok? ==> r.value == |Joined(parts)| + additional
      ensures r.Err? ==> r.error == PartBudget || r.error == ByteBudget
    {
      if |parts| >= MAX_DOCUMENT_PARTS { return Err(PartBudget); }
      if byteLen + additional > MAX_DOCUMENT_BYTES { return Err(ByteBudget); }
      return Ok(byteLen + additional);
    }

    /** Appends the part, or fails on a budget and leaves the document as it was. */
    method Push(part: Part<S, M>) returns (r: Option<DocumentError>)
      requires Valid()
      modifies this
      ensures Valid()
      ensures r.None? ==> parts == old(parts) + [part] && Joined(parts) == old(Joined(parts)) + part.text
      ensures r.Some? ==> parts == old(parts) && byteLen == old(byteLen)
      ensures r == Some(PartBudget) <==> |old(parts)| >= MAX_DOCUMENT_PARTS
      ensures r == Some(ByteBudget) <==>
                |old(parts)| < MAX_DOCUMENT_PARTS && |old(Joined(parts))| + |part.text| > MAX_DOCUMENT_BYTES
      ensures r.Some? ==> r.value == PartBudget || r.value == ByteBudget
    {
      var nextLen := CheckCapacity(|part.text|);
      if nextLen.Err? { return Some(nextLen.error); }
      assert (parts + [part])[..|parts|] == parts;
      parts := parts + [part];
      byteLen := nextLen.value;
      return None;
    }

    /** Appends the selected bytes of a source; every check comes before any change. */
    method PushSlice(source: S, bytes: seq<byte>, start: nat, end: nat, kind: PartKind, metadata: M,
                     isUtf8: seq<byte> -> bool) returns (r: Option<DocumentError>)
      requires Valid()
      modifies this
      ensures Valid()
      ensures r.Some? ==> parts == old(parts) && byteLen == old(byteLen)
      ensures r == Some(InvalidRange) <==> !(start <= end <= |bytes|)
      ensures r.None? ==>
                && start <= end <= |bytes| && isUtf8(bytes[start..end])
                && parts == old(parts) + [Part(source, start, end, bytes[start..end], kind, metadata)]
                && Joined(parts) == old(Joined(parts)) + bytes[start..end]
      ensures r == Some(PartBudget) <==> start <= end <= |bytes| && |old(parts)| >= MAX_DOCUMENT_PARTS
      ensures r == Some(ByteBudget) <==>
                && start <= end <= |bytes| && |old(parts)| < MAX_DOCUMENT_PARTS
                && |old(Joined(parts))| + (end - start) > MAX_DOCUMENT_BYTES
      ensures r == Some(InvalidUtf8) ==> start <= end <= |bytes| && !isUtf8(bytes[start..end])
      ensures r.Some? ==> r.value in {InvalidRange, PartBudget, ByteBudget, InvalidUtf8}
    {
      if !(start <= end <= |bytes|) { return Some(InvalidRange); }
      var selected := bytes[start..end];
      var capacity := CheckCapacity(|selected|);
      if capacity.Err? { return Some(capacity.error); }
      if !isUtf8(selected) { return Some(InvalidUtf8); }
      r := Push(Part(source, start, end, selected, kind, metadata));
    }

    method TextOf() returns (text: seq<byte>)
      requires Valid()
      ensures text == Joined(parts) && |text| == byteLen
    {
      text := [];
      for k := 0 to |parts|
        invariant text == Joined(parts[..k])
      {
        assert parts[..k + 1][..k] == parts[..k];
        text := text + parts[k].text;
      }
      assert parts[..|parts|] == parts;
    }

    /** The size that the export will have, or nothing when it would not fit. */
    method Preflight() returns (r: Option<nat>)
      requires Valid()
      ensures |Exported(parts)| <= MAX_DOCUMENT_BYTES ==> r == Some(|Exported(parts)|)
      ensures |Exported(parts)| > MAX_DOCUMENT_BYTES ==> r == None
    {
      var length := 0;
      for k := 0 to |parts|
        invariant length == |Exported(parts[..k])| <= MAX_DOCUMENT_BYTES
      {
        var headingBytes := if parts[k].kind.Message? then |Label(parts[k].kind.role)| + 4 else 0;
        length := length + (if k == 0 then 0 else 2) + headingBytes + |parts[k].text|;
        ExportedNext(parts, k);
        if length > MAX_DOCUMENT_BYTES {
          ExportedGrows(parts, k + 1);
          return None;
        }
      }
      assert parts[..|parts|] == parts;
      return Some(length);
    }

    /** An export that would be too large is refused before anything is rendered. */
    method Transcript() returns (r: Result<seq<byte>, DocumentError>)
      requires Valid()
      ensures |Exported(parts)| <= MAX_DOCUMENT_BYTES ==> r == Ok(Exported(parts))
      ensures |Exported(parts)| > MAX_DOCUMENT_BYTES ==> r == Err(ByteBudget)
    {
      var length := Preflight();
      if length.None? { return Err(ByteBudget); }
      var result: seq<byte> := [];
      for k := 0 to |parts|
        invariant result == Exported(parts[..k])
      {
        var separator := if k > 0 then Ascii("\n\n") else [];
        var heading := if parts[k].kind.Message? then Ascii("## ") + Ascii(Label(parts[k].kind.role)) + Ascii("\n") else [];
        result := result + (separator + heading + parts[k].text);
        ExportedNext(parts, k);
      }
      assert parts[..|parts|] == parts;
      return Ok(result);
    }
  }
}
