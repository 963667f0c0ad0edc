/** Text, its white space and its sizes. */
module Unicode {
  // Text is a sequence of Unicode scalar values, so every position in it is a character
  // boundary. Sizes that the program takes in UTF-8 bytes or UTF-16 units are measured here.

  /** The code points with the White_Space property, which is what trimming and splitting use. */
  predicate IsWhitespace(c: char) {
    var v := c as int;
    || 0x9 <= v <= 0xd || v == 0x20 || v == 0x85 || v == 0xa0 || v == 0x1680
    || 0x2000 <= v <= 0x200a || v == 0x2028 || v == 0x2029 || v == 0x202f || v == 0x205f || v == 0x3000
  }

  predicate IsWordByte(c: char) {
    'a' <= c <= 'z' || 'A' <= c <= 'Z' || '0' <= c <= '9' || c == '_'
  }

  function Utf8Width(c: char): nat {
    var v := c as int;
    if v < 0x80 then 1 else if v < 0x800 then 2 else if v < 0x1_0000 then 3 else 4
  }

  function Utf8Len(s: string): nat {
    if s == [] then 0 else Utf8Width(s[0]) + Utf8Len(s[1..])
  }

  function Utf16Len(s: string): nat {
    if s == [] then 0 else (if s[0] as int < 0x1_0000 then 1 else 2) + Utf16Len(s[1..])
  }

  lemma {:induction false} Utf8LenConcat(a: string, b: string)
    ensures Utf8Len(a + b) == Utf8Len(a) + Utf8Len(b)
  {
    if a == [] {
      assert a + b == b;
    } else {
      assert (a + b)[1..] == a[1..] + b;
      Utf8LenConcat(a[1..], b);
    }
  }
}
