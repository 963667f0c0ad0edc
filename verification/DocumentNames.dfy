/** Document names in link targets: hexadecimal UTF-8. */
module DocumentNames {
  import opened Wrappers
  import opened Unicode
  import opened Projection

  // ---------- UTF-8 ----------

  /** The bytes of one character, as RFC 3629, section 3 lays them out. */
  function EncodeChar(c: char): (r: seq<byte>)
    ensures |r| == Utf8Width(c)
  {
    var v := c as int;
    if v < 0x80 then [v]
    else if v < 0x800 then [0xc0 + v / 64, 0x80 + v % 64]
    else if v < 0x1_0000 then [0xe0 + v / 64 / 64, 0x80 + v / 64 % 64, 0x80 + v % 64]
    else [0xf0 + v / 64 / 64 / 64, 0x80 + v / 64 / 64 % 64, 0x80 + v / 64 % 64, 0x80 + v % 64]
  }

  function Encode(text: string): (r: seq<byte>)
    ensures |r| == Utf8Len(text)
  {
    if text == "" then [] else EncodeChar(text[0]) + Encode(text[1..])
  }

  predicate Continues(bytes: seq<byte>, i: nat) {
    i < |bytes| && 0x80 <= bytes[i] < 0xc0
  }

  /** The number so far, with the six bits of one more byte behind it. */
  function With(v: nat, bytes: seq<byte>, i: nat): (r: nat)
    requires Continues(bytes, i)
    ensures r / 64 == v && 0x80 + r % 64 == bytes[i]
  {
    v * 64 + ((bytes[i] as int) - 0x80)
  }

  /** The first character, unless the bytes are malformed, longer than needed, or a surrogate or beyond the last code point. */
  function FirstChar(bytes: seq<byte>): (r: Option<char>)
    requires bytes != []
    ensures r.Some? ==> Utf8Width(r.value) <= |bytes|
  {
    var lead: int := bytes[0];
    if lead < 0x80 then Some(lead as char)
    else if 0xc0 <= lead < 0xe0 && Continues(bytes, 1) then
      var v := With(lead - 0xc0, bytes, 1);
      if v >= 0x80 then Some(v as char) else None
    else if 0xe0 <= lead < 0xf0 && Continues(bytes, 1) && Continues(bytes, 2) then
      var v := With(With(lead - 0xe0, bytes, 1), bytes, 2);
      if v >= 0x800 && !(0xd800 <= v < 0xe000) then Some(v as char) else None
    else if 0xf0 <= lead < 0xf8 && Continues(bytes, 1) && Continues(bytes, 2) && Continues(bytes, 3) then
      var v := With(With(With(lead - 0xf0, bytes, 1), bytes, 2), bytes, 3);
      if 0x1_0000 <= v < 0x11_0000 then Some(v as char) else None
    else None
  }

  function Decode(bytes: seq<byte>): Option<string> {
    if bytes == [] then Some("")
    else
      var first := FirstChar(bytes);
      if first.None? then None
      else
        var rest := Decode(bytes[Utf8Width(first.value)..]);
        if rest.None? then None else Some([first.value] + rest.value)
  }

  lemma FirstOfEncoded(c: char, rest: seq<byte>)
    ensures FirstChar(EncodeChar(c) + rest) == Some(c)
  {
    var bytes := EncodeChar(c) + rest;
    var v := c as int;
    if 0x80 <= v < 0x800 {
      assert With(v / 64, bytes, 1) == v;
    } else if 0x800 <= v < 0x1_0000 {
      assert With(v / 64 / 64, bytes, 1) == v / 64;
      assert With(v / 64, bytes, 2) == v;
    } else if v >= 0x1_0000 {
      assert With(v / 64 / 64 / 64, bytes, 1) == v / 64 / 64;
      assert With(v / 64 / 64, bytes, 2) == v / 64;
      assert With(v / 64, bytes, 3) == v;
    }
  }

  lemma FirstWasEncoded(bytes: seq<byte>)
    requires bytes != [] && FirstChar(bytes).Some?
    ensures EncodeChar(FirstChar(bytes).value) == bytes[..Utf8Width(FirstChar(bytes).value)]
  {
    var code, width := EncodeChar(FirstChar(bytes).value), Utf8Width(FirstChar(bytes).value);
    forall i | 0 <= i < width ensures code[i] == bytes[i] {}
  }

  /** Decoding undoes encoding. */
  lemma {:induction false} DecodesEncoded(text: string)
    ensures Decode(Encode(text)) == Some(text)
  {
    if text != "" {
      var bytes := Encode(text);
      FirstOfEncoded(text[0], Encode(text[1..]));
      assert bytes[Utf8Width(text[0])..] == Encode(text[1..]);
      DecodesEncoded(text[1..]);
      assert [text[0]] + text[1..] == text;
    }
  }

  /** Only encodings are decoded. */
  lemma {:induction false} DecodedWasEncoded(bytes: seq<byte>)
    requires Decode(bytes).Some?
    ensures Encode(Decode(bytes).value) == bytes
  {
    if bytes != [] {
      var first := FirstChar(bytes).value;
      FirstWasEncoded(bytes);
      DecodedWasEncoded(bytes[Utf8Width(first)..]);
      assert ([first] + Decode(bytes[Utf8Width(first)..]).value)[1..] == Decode(bytes[Utf8Width(first)..]).value;
    }
  }

  // ---------- Hexadecimal ----------

  function Digit(c: char): (r: Option<nat>)
    ensures r.Some? ==> r.value < 16
  {
    if '0' <= c <= '9' then Some(c as int - '0' as int)
    else if 'a' <= c <= 'f' then Some(c as int - 'a' as int + 10)
    else if 'A' <= c <= 'F' then Some(c as int - 'A' as int + 10)
    else None
  }

  /** Two digits, or a plus sign and one digit, which a number may be written with. */
  function Pair(a: char, b: char): (r: Option<byte>) {
    if Digit(b).None? then None
    else if a == '+' then Some(Digit(b).value)
    else if Digit(a).None? then None
    else Some(Digit(a).value * 16 + Digit(b).value)
  }

  function FromHex(hex: string): Option<seq<byte>>
    requires |hex| % 2 == 0
    decreases |hex|
  {
    if hex == "" then Some([])
    else
      var rest := FromHex(hex[2..]);
      if Pair(hex[0], hex[1]).None? || rest.None? then None else Some([Pair(hex[0], hex[1]).value] + rest.value)
  }

  function DigitOf(n: nat): char
    requires n < 16
  {
    if n < 10 then '0' + n as char else 'a' + (n - 10) as char
  }

  function HexOf(bytes: seq<byte>): (hex: string)
    ensures |hex| == 2 * |bytes|
    ensures forall k | 0 <= k < |hex| :: hex[k] as int < 0x80
  {
    if bytes == [] then "" else [DigitOf(bytes[0] / 16), DigitOf(bytes[0] % 16)] + HexOf(bytes[1..])
  }

  lemma {:induction false} ReadsHex(bytes: seq<byte>)
    ensures FromHex(HexOf(bytes)) == Some(bytes)
  {
    if bytes != [] {
      var hex := HexOf(bytes);
      assert hex[2..] == HexOf(bytes[1..]);
      ReadsHex(bytes[1..]);
      assert Pair(hex[0], hex[1]) == Some(bytes[0]);
      assert [bytes[0]] + bytes[1..] == bytes;
    }
  }

  // ---------- Names ----------

  const MAX_HEX := 8192

  predicate IsControl(c: char) {
    c as int < 0x20 || 0x7f <= c as int < 0xa0
  }

  predicate Mounted(name: string) {
    (exists k :: 0 <= k < |name| - 1 && name[k] == ':' && name[k + 1] == ':')
    && forall k | 0 <= k < |name| :: !IsControl(name[k])
  }

  /** The document that a hexadecimal target names: one of some library, without control characters. */
  function NameOf(hex: string): Option<string> {
    if |hex| > MAX_HEX || |hex| % 2 != 0 || FromHex(hex).None? then None
    else
      var name := Decode(FromHex(hex).value);
      if name.Some? && Mounted(name.value) then name else None
  }

  /** The target that names a document. */
  function TargetOf(name: string): string {
    HexOf(Encode(name))
  }

  lemma NameFrom(hex: string, bytes: seq<byte>, name: string)
    ensures |hex| == 2 * |bytes| && FromHex(hex) == Some(bytes) && Decode(bytes) == Some(name) ==>
              (NameOf(hex) == Some(name) <==> Mounted(name) && |hex| <= MAX_HEX)
  {}

  /** A document has a target that names it exactly if it may be named at all and its bytes fit. */
  lemma TargetNamesTheDocument(name: string)
    ensures NameOf(TargetOf(name)) == Some(name) <==> Mounted(name) && 2 * Utf8Len(name) <= MAX_HEX
  {
    ReadsHex(Encode(name));
    DecodesEncoded(name);
    NameFrom(TargetOf(name), Encode(name), name);
  }

  /** Different targets can name one document only by how they write the same bytes. */
  lemma TargetsOfOneDocument(hex: string, other: string)
    requires NameOf(hex).Some? && NameOf(hex) == NameOf(other)
    ensures FromHex(hex) == FromHex(other) == Some(Encode(NameOf(hex).value))
  {
    DecodedWasEncoded(FromHex(hex).value);
    DecodedWasEncoded(FromHex(other).value);
  }
}
