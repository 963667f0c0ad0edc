/**
 The expression language over documents: its trees with their size and depth, and what each parse
 of a text means, as functions of the position, of the nodes counted so far and of the depth.
*/
module ReferenceGrammar {
  import opened Wrappers
  import opened Unicode

  const MAX_COMMAND_BYTES := 65536
  const MAX_NODES := 256
  const MAX_DEPTH := 16

  datatype Expression =
    | Reference(name: string)
    | Literal(text: string)
    | Call(callee: string, arguments: seq<Expression>)
    | Find(source: Expression, query: Expression)
    | Count(source: Expression)

  datatype Command = Prompt(text: string) | Entry(expression: Expression)

  datatype Problem =
    | TooLong | TooManyNodes | TooDeep | TrailingText
    | NoPipeTarget | NoFindArguments | NotTwoOperands | NoCountArguments | NotOneSource | NoExpression
    | NoCommaOrClose | BlankName | NoName | UnfinishedEscape | UnknownEscape | RawLineBreak | UnclosedQuote

  datatype SyntaxError = SyntaxError(offset: nat, problem: Problem)

  /** What was read, the position after it, and the nodes counted so far. */
  datatype Progress<+T> = Progress(value: T, next: nat, nodes: nat)

  type Parse<+T> = Result<Progress<T>, SyntaxError>

  // ---------- Trees ----------

  function Depth(e: Expression): (d: nat)
    ensures d > 0
    decreases e
  {
    match e
    case Call(_, arguments) => 1 + DeepestOf(arguments, |arguments|)
    case Find(source, query) => 1 + if Depth(source) > Depth(query) then Depth(source) else Depth(query)
    case Count(source) => 1 + Depth(source)
    case _ => 1
  }

  function DeepestOf(es: seq<Expression>, n: nat): nat
    requires n <= |es|
    decreases es, n
  {
    if n == 0 then 0
    else
      var last := Depth(es[n - 1]);
      var others := DeepestOf(es, n - 1);
      if others > last then others else last
  }

  function Deepest(es: seq<Expression>): nat {
    DeepestOf(es, |es|)
  }

  function Size(e: Expression): (n: nat)
    ensures n > 0
    decreases e
  {
    match e
    case Call(_, arguments) => 1 + SizeOf(arguments, |arguments|)
    case Find(source, query) => 1 + Size(source) + Size(query)
    case Count(source) => 1 + Size(source)
    case _ => 1
  }

  function SizeOf(es: seq<Expression>, n: nat): nat
    requires n <= |es|
    decreases es, n
  {
    if n == 0 then 0 else SizeOf(es, n - 1) + Size(es[n - 1])
  }

  function SizeAll(es: seq<Expression>): nat {
    SizeOf(es, |es|)
  }

  predicate Blank(name: string) {
    forall i | 0 <= i < |name| :: IsWhitespace(name[i])
  }

  predicate WellNamed(e: Expression)
    decreases e
  {
    match e
    case Reference(name) => !Blank(name)
    case Literal(_) => true
    case Call(callee, arguments) => !Blank(callee) && forall i | 0 <= i < |arguments| :: WellNamed(arguments[i])
    case Find(source, query) => WellNamed(source) && WellNamed(query)
    case Count(source) => WellNamed(source)
  }

  predicate AllWellNamed(es: seq<Expression>) {
    forall i | 0 <= i < |es| :: WellNamed(es[i])
  }

  lemma {:induction false} SamePrefix(es: seq<Expression>, fs: seq<Expression>, n: nat)
    requires n <= |es| && n <= |fs| && forall i | 0 <= i < n :: es[i] == fs[i]
    ensures SizeOf(es, n) == SizeOf(fs, n) && DeepestOf(es, n) == DeepestOf(fs, n)
    decreases n
  {
    if n > 0 { SamePrefix(es, fs, n - 1); }
  }

  lemma Appended(es: seq<Expression>, e: Expression)
    ensures SizeAll(es + [e]) == SizeAll(es) + Size(e)
    ensures AllWellNamed(es + [e]) <==> AllWellNamed(es) && WellNamed(e)
    ensures Deepest(es + [e]) == if Deepest(es) > Depth(e) then Deepest(es) else Depth(e)
  {
    SamePrefix(es + [e], es, |es|);
    assert (es + [e])[|es|] == e;
    assert AllWellNamed(es + [e]) ==> forall i | 0 <= i < |es| :: WellNamed((es + [e])[i]);
  }

  lemma {:induction false} PrependedUpTo(e: Expression, es: seq<Expression>, n: nat)
    requires n <= |es|
    ensures SizeOf([e] + es, n + 1) == Size(e) + SizeOf(es, n)
    ensures DeepestOf([e] + es, n + 1) == if DeepestOf(es, n) > Depth(e) then DeepestOf(es, n) else Depth(e)
    decreases n
  {
    if n == 0 {
      assert SizeOf([e] + es, 0) == 0 && DeepestOf([e] + es, 0) == 0;
    } else {
      PrependedUpTo(e, es, n - 1);
    }
  }

  lemma PrependedNames(e: Expression, es: seq<Expression>)
    ensures AllWellNamed([e] + es) <==> WellNamed(e) && AllWellNamed(es)
  {
    var all := [e] + es;
    if AllWellNamed(all) {
      assert all[0] == e;
      forall i | 0 <= i < |es| ensures WellNamed(es[i]) { assert all[i + 1] == es[i]; }
    }
  }

  lemma Prepended(e: Expression, es: seq<Expression>)
    ensures SizeAll([e] + es) == Size(e) + SizeAll(es)
    ensures AllWellNamed([e] + es) <==> WellNamed(e) && AllWellNamed(es)
    ensures Deepest([e] + es) == if Deepest(es) > Depth(e) then Deepest(es) else Depth(e)
  {
    PrependedUpTo(e, es, |es|);
    PrependedNames(e, es);
  }

  // ---------- Lexical pieces ----------

  function SkipSpace(source: string, i: nat): (j: nat)
    requires i <= |source|
    ensures i <= j <= |source|
    ensures j < |source| ==> !IsWhitespace(source[j])
    decreases |source| - i
  {
    if i < |source| && IsWhitespace(source[i]) then SkipSpace(source, i + 1) else i
  }

  predicate Starts(source: string, i: nat, token: string)
    requires i <= |source| && token != []
  {
    i + |token| <= |source| && source[i] == token[0]
    && forall k {:trigger token[k]} | 1 <= k < |token| :: source[i + k] == token[k]
  }

  predicate IsCombining(c: char) {
    var v := c as int;
    || 0x300 <= v <= 0x36f || 0x1ab0 <= v <= 0x1aff || 0x1dc0 <= v <= 0x1dff
    || 0x20d0 <= v <= 0x20ff || 0xfe20 <= v <= 0xfe2f
  }

  /** No alphanumeric character is white space. */
  ghost predicate Sane(alphanumeric: set<char>) {
    forall c | c in alphanumeric :: !IsWhitespace(c)
  }

  predicate IsNameChar(c: char, alphanumeric: set<char>) {
    c in alphanumeric || c == '_' || c == '-' || c == '/' || c == '.' || c == '#' || IsCombining(c)
  }

  function NameEnd(source: string, i: nat, alphanumeric: set<char>): (j: nat)
    requires i <= |source|
    ensures i <= j <= |source|
    decreases |source| - i
  {
    if i == |source| then i
    else if Starts(source, i, "::") then NameEnd(source, i + 2, alphanumeric)
    else if IsNameChar(source[i], alphanumeric) then NameEnd(source, i + 1, alphanumeric)
    else i
  }

  function Unescape(c: char): Option<char> {
    if c == '\"' || c == '\\' then Some(c)
    else if c == 'n' then Some('\n')
    else if c == 'r' then Some('\r')
    else if c == 't' then Some('\t')
    else None
  }

  /** The rest of a quoted text, after the part `text` that was read already. */
  function QuotedRest(source: string, i: nat, closing: char, text: string, nodes: nat): (r: Parse<string>)
    requires i <= |source|
    ensures r.Ok? ==> i < r.value.next <= |source| && r.value.nodes == nodes
    decreases |source| - i
  {
    if i == |source| then Err(SyntaxError(i, UnclosedQuote))
    else if source[i] == closing then Ok(Progress(text, i + 1, nodes))
    else if source[i] == '\\' then
      if i + 1 == |source| then Err(SyntaxError(i + 1, UnfinishedEscape))
      else if Unescape(source[i + 1]).None? then Err(SyntaxError(i + 2, UnknownEscape))
      else QuotedRest(source, i + 2, closing, text + [Unescape(source[i + 1]).value], nodes)
    else if source[i] == '\n' || source[i] == '\r' then Err(SyntaxError(i + 1, RawLineBreak))
    else QuotedRest(source, i + 1, closing, text + [source[i]], nodes)
  }

  function Quoted(source: string, i: nat, nodes: nat): (r: Parse<string>)
    requires i <= |source| && (Starts(source, i, "\U{201C}") || Starts(source, i, "\""))
    ensures r.Ok? ==> i < r.value.next <= |source| && r.value.nodes == nodes
  {
    QuotedRest(source, i + 1, if Starts(source, i, "\U{201C}") then '\U{201D}' else '\"', "", nodes)
  }

  function Name(source: string, i: nat, nodes: nat, alphanumeric: set<char>): (r: Parse<string>)
    requires i <= |source|
    ensures r.Ok? ==> i < r.value.next <= |source| && r.value.nodes == nodes
  {
    if Starts(source, i, "\"") || Starts(source, i, "\U{201C}") then
      var quoted :- Quoted(source, i, nodes);
      if Blank(quoted.value) then Err(SyntaxError(quoted.next, BlankName)) else Ok(quoted)
    else
      var end := NameEnd(source, i, alphanumeric);
      if end == i then Err(SyntaxError(i, NoName)) else Ok(Progress(source[i..end], end, nodes))
  }

  // ---------- Expressions ----------

  function CountNode(i: nat, nodes: nat): (r: Result<nat, SyntaxError>)
  {
    if nodes + 1 > MAX_NODES then Err(SyntaxError(i, TooManyNodes)) else Ok(nodes + 1)
  }

  function ExpressionAt(source: string, i: nat, nodes: nat, depth: nat, alphanumeric: set<char>)
    : (r: Parse<Expression>)
    requires i <= |source| && nodes <= MAX_NODES
    ensures r.Ok? ==> i < r.value.next <= |source|
    ensures r.Ok? ==> nodes <= r.value.nodes <= MAX_NODES
    decreases |source| - i, 2
  {
    if depth >= MAX_DEPTH then Err(SyntaxError(i, TooDeep))
    else
      var head :- Atom(source, i, nodes, depth, alphanumeric);
      Pipeline(source, head.value, SkipSpace(source, head.next), head.nodes, depth, alphanumeric)
  }

  /** The pipes that follow `left`, which is already read. */
  function Pipeline(source: string, left: Expression, i: nat, nodes: nat, depth: nat, alphanumeric: set<char>)
    : (r: Parse<Expression>)
    requires i <= |source| && nodes <= MAX_NODES
    ensures r.Ok? ==> i <= r.value.next <= |source|
    ensures r.Ok? ==> nodes <= r.value.nodes <= MAX_NODES
    decreases |source| - i, 0
  {
    if !Starts(source, i, "|>") then Ok(Progress(left, i, nodes))
    else
      var call :- Piped(source, left, i + 2, nodes, depth, alphanumeric);
      Pipeline(source, call.value, SkipSpace(source, call.next), call.nodes, depth, alphanumeric)
  }

  /** The call that one pipe makes: the value before the pipe becomes its first argument. */
  function Piped(source: string, left: Expression, i: nat, nodes: nat, depth: nat, alphanumeric: set<char>)
    : (r: Parse<Expression>)
    requires i <= |source| && nodes <= MAX_NODES
    ensures r.Ok? ==> i < r.value.next <= |source|
    ensures r.Ok? ==> nodes <= r.value.nodes <= MAX_NODES
    decreases |source| - i, 5
  {
    var target := SkipSpace(source, i);
    if !Starts(source, target, "@") then Err(SyntaxError(target, NoPipeTarget))
    else
      var name :- Name(source, target + 1, nodes, alphanumeric);
      var counted :- CountNode(name.next, nodes);
      var more :- OptionalArguments(source, name.next, counted, depth, alphanumeric);
      var call := Call(name.value, [left] + more.value);
      if Depth(call) > MAX_DEPTH then Err(SyntaxError(more.next, TooDeep))
      else Ok(Progress(call, more.next, more.nodes))
  }

  function OptionalArguments(source: string, i: nat, nodes: nat, depth: nat, alphanumeric: set<char>)
    : (r: Parse<seq<Expression>>)
    requires i <= |source| && nodes <= MAX_NODES
    ensures r.Ok? ==> i <= r.value.next <= |source|
    ensures r.Ok? ==> nodes <= r.value.nodes <= MAX_NODES
    decreases |source| - i, 5
  {
    var open := SkipSpace(source, i);
    if Starts(source, open, "(") then Arguments(source, open + 1, nodes, depth, alphanumeric)
    else Ok(Progress([], open, nodes))
  }

  function Atom(source: string, i: nat, nodes: nat, depth: nat, alphanumeric: set<char>): (r: Parse<Expression>)
    requires i <= |source| && nodes <= MAX_NODES
    ensures r.Ok? ==> i < r.value.next <= |source|
    ensures r.Ok? ==> nodes <= r.value.nodes <= MAX_NODES
    decreases |source| - i, 1
  {
    var start := SkipSpace(source, i);
    var counted :- CountNode(start, nodes);
    if Starts(source, start, "@") then Mention(source, start + 1, counted, depth, alphanumeric)
    else if Starts(source, start, "\"") then
      var text :- Quoted(source, start, counted);
      Ok(Progress(Literal(text.value), text.next, counted))
    else if Starts(source, start, "find") then FindCall(source, start + 4, counted, depth, alphanumeric)
    else if Starts(source, start, "count") then CountCall(source, start + 5, counted, depth, alphanumeric)
    else Err(SyntaxError(start, NoExpression))
  }

  function Mention(source: string, i: nat, counted: nat, depth: nat, alphanumeric: set<char>): (r: Parse<Expression>)
    requires i <= |source| && counted <= MAX_NODES
    ensures r.Ok? ==> i < r.value.next <= |source|
    ensures r.Ok? ==> counted <= r.value.nodes <= MAX_NODES
    decreases |source| - i, 5
  {
    var name :- Name(source, i, counted, alphanumeric);
    var open := SkipSpace(source, name.next);
    if Starts(source, open, "(") then
      var arguments :- Arguments(source, open + 1, counted, depth, alphanumeric);
      Ok(Progress(Call(name.value, arguments.value), arguments.next, arguments.nodes))
    else Ok(Progress(Reference(name.value), open, counted))
  }

  function FindCall(source: string, i: nat, counted: nat, depth: nat, alphanumeric: set<char>): (r: Parse<Expression>)
    requires i <= |source| && counted <= MAX_NODES
    ensures r.Ok? ==> i < r.value.next <= |source|
    ensures r.Ok? ==> counted <= r.value.nodes <= MAX_NODES
    decreases |source| - i, 5
  {
    var open := SkipSpace(source, i);
    if !Starts(source, open, "(") then Err(SyntaxError(open, NoFindArguments))
    else
      var operands :- Arguments(source, open + 1, counted, depth, alphanumeric);
      if |operands.value| != 2 then Err(SyntaxError(operands.next, NotTwoOperands))
      else
        Ok(Progress(Find(operands.value[0], operands.value[1]), operands.next, operands.nodes))
  }

  function CountCall(source: string, i: nat, counted: nat, depth: nat, alphanumeric: set<char>): (r: Parse<Expression>)
    requires i <= |source| && counted <= MAX_NODES
    ensures r.Ok? ==> i < r.value.next <= |source|
    ensures r.Ok? ==> counted <= r.value.nodes <= MAX_NODES
    decreases |source| - i, 5
  {
    var open := SkipSpace(source, i);
    if !Starts(source, open, "(") then Err(SyntaxError(open, NoCountArguments))
    else
      var sources :- Arguments(source, open + 1, counted, depth, alphanumeric);
      if |sources.value| != 1 then Err(SyntaxError(sources.next, NotOneSource))
      else
        Ok(Progress(Count(sources.value[0]), sources.next, sources.nodes))
  }

  function Arguments(source: string, i: nat, nodes: nat, depth: nat, alphanumeric: set<char>)
    : (r: Parse<seq<Expression>>)
    requires i <= |source| && nodes <= MAX_NODES
    ensures r.Ok? ==> i < r.value.next <= |source|
    ensures r.Ok? ==> nodes <= r.value.nodes <= MAX_NODES
    decreases |source| - i, 4
  {
    var first := SkipSpace(source, i);
    if Starts(source, first, ")") then Ok(Progress([], first + 1, nodes))
    else ArgumentList(source, [], first, nodes, depth, alphanumeric)
  }

  /** The arguments that follow those in `before`, which are already read. */
  function ArgumentList(source: string, before: seq<Expression>, i: nat, nodes: nat, depth: nat,
                        alphanumeric: set<char>): (r: Parse<seq<Expression>>)
    requires i <= |source| && nodes <= MAX_NODES
    ensures r.Ok? ==> i < r.value.next <= |source|
    ensures r.Ok? ==> nodes <= r.value.nodes <= MAX_NODES
    decreases |source| - i, 3
  {
    var next :- ExpressionAt(source, i, nodes, depth + 1, alphanumeric);
    var after := SkipSpace(source, next.next);
    var all := before + [next.value];
    if Starts(source, after, ")") then Ok(Progress(all, after + 1, next.nodes))
    else if !Starts(source, after, ",") then Err(SyntaxError(after, NoCommaOrClose))
    else ArgumentList(source, all, after + 1, next.nodes, depth, alphanumeric)
  }

  /** Text that starts with `=`, white space aside, is read as an expression; any other is a prompt, kept as it is. */
  function ParseCommand(source: string, alphanumeric: set<char>): Result<Command, SyntaxError> {
    if Utf8Len(source) > MAX_COMMAND_BYTES then Err(SyntaxError(MAX_COMMAND_BYTES, TooLong))
    else
      var start := SkipSpace(source, 0);
      if !Starts(source, start, "=") then Ok(Prompt(source))
      else
        var parsed :- ExpressionAt(source, start + 1, 0, 0, alphanumeric);
        var end := SkipSpace(source, parsed.next);
        if end != |source| then Err(SyntaxError(end, TrailingText))
        else if Depth(parsed.value) > MAX_DEPTH then Err(SyntaxError(end, TooDeep))
        else Ok(Entry(parsed.value))
  }
}
