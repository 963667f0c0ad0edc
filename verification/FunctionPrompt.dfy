/** The framed prompt of a base function. */
module FunctionPrompt {
  import opened Wrappers
  import opened Unicode
  import opened ReferenceGrammar
  import opened DocumentReferences

  const INPUTS := "\n\nInputs:\n"
  const OUTPUT := "\nOutput:\n"

  function Digit(n: nat): char
    requires n < 10
  {
    "0123456789"[n]
  }

  function Decimal(n: nat): string {
    if n < 10 then [Digit(n)] else Decimal(n / 10) + [Digit(n % 10)]
  }

  function Heading(index: nat, count: nat): string {
    if count > 1 then "\nInput " + Decimal(index + 1) + ":\n" else ""
  }

  function Body(inputs: seq<string>, n: nat): string
    requires n < |inputs|
  {
    Heading(n, |inputs|) + inputs[n] + "\n"
  }

  /** The first `n` inputs, each under its heading and on lines of its own. */
  function Bodies(inputs: seq<string>, n: nat): string
    requires n <= |inputs|
  {
    if n == 0 then "" else Bodies(inputs, n - 1) + Body(inputs, n - 1)
  }

  function Opening(callee: string, inputs: seq<string>): string {
    callee + if inputs == [] then "" else INPUTS
  }

  /** The prompt up to the first `n` inputs. */
  function FramedTo(callee: string, inputs: seq<string>, n: nat): string
    requires n <= |inputs|
  {
    Opening(callee, inputs) + Bodies(inputs, n)
  }

  function Framed(callee: string, inputs: seq<string>): string {
    FramedTo(callee, inputs, |inputs|) + OUTPUT
  }

  lemma OneMore(callee: string, inputs: seq<string>, n: nat)
    requires n < |inputs|
    ensures FramedTo(callee, inputs, n + 1) == FramedTo(callee, inputs, n) + Body(inputs, n)
  {
    Joined(Opening(callee, inputs), Bodies(inputs, n), Body(inputs, n));
  }

  lemma Joined(a: string, b: string, c: string)
    ensures a + (b + c) == (a + b) + c
  {}

  lemma OneMoreBytes(callee: string, inputs: seq<string>, n: nat)
    requires n < |inputs|
    ensures Utf8Len(FramedTo(callee, inputs, n + 1))
            == Utf8Len(FramedTo(callee, inputs, n)) + Utf8Len(Heading(n, |inputs|)) + Utf8Len(inputs[n]) + 1
  {
    var heading, input := Heading(n, |inputs|), inputs[n];
    OneMore(callee, inputs, n);
    Utf8LenConcat(FramedTo(callee, inputs, n), Body(inputs, n));
    Utf8LenConcat(heading + input, "\n");
    Utf8LenConcat(heading, input);
    assert Utf8Len("\n") == 1 + Utf8Len("\n"[1..]);
  }

  lemma OpeningBytes(callee: string, inputs: seq<string>)
    ensures FramedTo(callee, inputs, 0) == Opening(callee, inputs)
    ensures Utf8Len(Opening(callee, inputs)) == Utf8Len(callee) + if inputs == [] then 0 else Utf8Len(INPUTS)
  {
    assert Opening(callee, inputs) + "" == Opening(callee, inputs);
    Utf8LenConcat(callee, if inputs == [] then "" else INPUTS);
  }

  method FramedBytes(callee: string, inputs: seq<string>) returns (bytes: nat)
    ensures bytes == Utf8Len(Framed(callee, inputs))
  {
    bytes := Utf8Len(callee) + Utf8Len(OUTPUT);
    if inputs != [] { bytes := bytes + Utf8Len(INPUTS); }
    OpeningBytes(callee, inputs);
    for index := 0 to |inputs|
      invariant bytes == Utf8Len(FramedTo(callee, inputs, index)) + Utf8Len(OUTPUT)
    {
      OneMoreBytes(callee, inputs, index);
      bytes := bytes + Utf8Len(Heading(index, |inputs|)) + Utf8Len(inputs[index]) + 1;
    }
    Utf8LenConcat(FramedTo(callee, inputs, |inputs|), OUTPUT);
  }

  method Render(callee: string, inputs: seq<string>) returns (prompt: string)
    ensures prompt == Framed(callee, inputs)
  {
    prompt := Opening(callee, inputs);
    OpeningBytes(callee, inputs);
    for index := 0 to |inputs|
      invariant prompt == FramedTo(callee, inputs, index)
    {
      OneMore(callee, inputs, index);
      prompt := prompt + Body(inputs, index);
    }
    prompt := prompt + OUTPUT;
  }

  /** A prompt is returned exactly when it fits with all of its framing, and then it is the framed prompt. */
  method RenderBaseFunctionPrompt(callee: string, inputs: seq<string>) returns (r: Option<string>)
    ensures r.Some? <==> |inputs| <= MAX_NODES && Utf8Len(Framed(callee, inputs)) <= MAX_DOCUMENT_BYTES
    ensures r.Some? ==> r.value == Framed(callee, inputs)
  {
    if |inputs| > MAX_NODES { return None; }
    var bytes := FramedBytes(callee, inputs);
    if bytes > MAX_DOCUMENT_BYTES { return None; }
    var prompt := Render(callee, inputs);
    return Some(prompt);
  }
}
