/** The recursive-descent parser: a cursor and a node counter that move as the grammar says. */
module Parsing {
  import opened Wrappers
  import opened Unicode
  import opened ReferenceGrammar

  class Parser {
    const source: string
    const alphanumeric: set<char>
    var offset: nat
    var nodes: nat

    ghost predicate Valid()
      reads this
    {
      offset <= |source| && nodes <= MAX_NODES
    }

    /** The outcome and the parser's state are those that `parse` describes. */
    ghost predicate Did<T>(r: Result<T, SyntaxError>, parse: Parse<T>)
      reads this
    {
      match parse
      case Ok(progress) => r == Ok(progress.value) && offset == progress.next && nodes == progress.nodes
      case Err(error) => r == Err(error)
    }

    constructor (source: string, offset: nat, alphanumeric: set<char>)
      requires offset <= |source|
      ensures Valid() && this.source == source && this.alphanumeric == alphanumeric
      ensures this.offset == offset && nodes == 0
    {
      this.source, this.alphanumeric := source, alphanumeric;
      this.offset, this.nodes := offset, 0;
    }

    method Whitespace()
      requires offset <= |source|
      modifies this
      ensures offset == SkipSpace(source, old(offset)) && nodes == old(nodes)
    {
      while offset < |source| && IsWhitespace(source[offset])
        invariant offset <= |source| && nodes == old(nodes)
        invariant SkipSpace(source, offset) == SkipSpace(source, old(offset))
      {
        offset := offset + 1;
      }
    }

    method Take(token: string) returns (taken: bool)
      requires offset <= |source| && token != []
      modifies this
      ensures taken == Starts(source, old(offset), token) && nodes == old(nodes)
      ensures offset == old(offset) + if taken then |token| else 0
    {
      taken := Starts(source, offset, token);
      if taken { offset := offset + |token|; }
    }

    method Node() returns (r: Result<nat, SyntaxError>)
      requires Valid()
      modifies this
      ensures r == CountNode(old(offset), old(nodes)) && offset == old(offset)
      ensures r.Ok? ==> nodes == r.value
    {
      nodes := nodes + 1;
      if nodes > MAX_NODES { return Err(SyntaxError(offset, TooManyNodes)); }
      return Ok(nodes);
    }

    method ReadQuoted() returns (r: Result<string, SyntaxError>)
      requires Valid() && (Starts(source, offset, "\U{201C}") || Starts(source, offset, "\""))
      modifies this
      ensures Did(r, Quoted(source, old(offset), old(nodes)))
    {
      var curly := Take("\U{201C}");
      if !curly { var straight := Take("\""); }
      var closing := if curly then '\U{201D}' else '\"';
      var text := "";
      while offset < |source|
        invariant offset <= |source| && nodes == old(nodes)
        invariant QuotedRest(source, offset, closing, text, nodes) == Quoted(source, old(offset), old(nodes))
        decreases |source| - offset
      {
        var character := source[offset];
        offset := offset + 1;
        if character == closing { return Ok(text); }
        if character == '\\' {
          if offset == |source| { return Err(SyntaxError(offset, UnfinishedEscape)); }
          var escaped := Unescape(source[offset]);
          offset := offset + 1;
          if escaped.None? { return Err(SyntaxError(offset, UnknownEscape)); }
          text := text + [escaped.value];
        } else if character == '\n' || character == '\r' {
          return Err(SyntaxError(offset, RawLineBreak));
        } else {
          text := text + [character];
        }
      }
      return Err(SyntaxError(offset, UnclosedQuote));
    }

    method ReadName() returns (r: Result<string, SyntaxError>)
      requires Valid()
      modifies this
      ensures Did(r, Name(source, old(offset), old(nodes), alphanumeric))
    {
      if Starts(source, offset, "\"") || Starts(source, offset, "\U{201C}") {
        r := ReadQuoted();
        if r.Ok? && Blank(r.value) { r := Err(SyntaxError(offset, BlankName)); }
        return;
      }
      var start := offset;
      while offset < |source|
        invariant start <= offset <= |source| && nodes == old(nodes)
        invariant NameEnd(source, offset, alphanumeric) == NameEnd(source, start, alphanumeric)
        decreases |source| - offset
      {
        if Starts(source, offset, "::") {
          offset := offset + 2;
        } else if IsNameChar(source[offset], alphanumeric) {
          offset := offset + 1;
        } else {
          break;
        }
      }
      if start == offset { return Err(SyntaxError(offset, NoName)); }
      return Ok(source[start..offset]);
    }

    method ReadExpression(depth: nat) returns (r: Result<Expression, SyntaxError>)
      requires Valid()
      modifies this
      ensures Did(r, ExpressionAt(source, old(offset), old(nodes), depth, alphanumeric))
      decreases |source| - offset, 2
    {
      if depth >= MAX_DEPTH { return Err(SyntaxError(offset, TooDeep)); }
      r := ReadAtom(depth);
      if r.Err? { return; }
      Whitespace();
      r := ReadPipes(r.value, depth);
    }

    method ReadPipes(left: Expression, depth: nat) returns (r: Result<Expression, SyntaxError>)
      requires Valid()
      modifies this
      ensures Did(r, Pipeline(source, left, old(offset), old(nodes), depth, alphanumeric))
      decreases |source| - offset, 6
    {
      var expression := left;
      ghost var meaning := Pipeline(source, left, offset, nodes, depth, alphanumeric);
      while Starts(source, offset, "|>")
        invariant Valid() && old(offset) <= offset
        invariant meaning == Pipeline(source, expression, offset, nodes, depth, alphanumeric)
        decreases |source| - offset
      {
        r := ReadOnePipe(expression, depth);
        if r.Err? { return; }
        expression := r.value;
      }
      return Ok(expression);
    }

    method ReadOnePipe(left: Expression, depth: nat) returns (r: Result<Expression, SyntaxError>)
      requires Valid() && Starts(source, offset, "|>")
      modifies this
      ensures match Piped(source, left, old(offset) + 2, old(nodes), depth, alphanumeric)
              case Ok(call) => r == Ok(call.value) && offset == SkipSpace(source, call.next) && nodes == call.nodes
              case Err(error) => r == Err(error)
      decreases |source| - offset, 5
    {
      var piped := Take("|>");
      r := ReadPiped(left, depth);
      if r.Err? { return; }
      Whitespace();
    }

    method ReadPiped(left: Expression, depth: nat) returns (r: Result<Expression, SyntaxError>)
      requires Valid()
      modifies this
      ensures Did(r, Piped(source, left, old(offset), old(nodes), depth, alphanumeric))
      decreases |source| - offset, 5
    {
      Whitespace();
      var at := Take("@");
      if !at { return Err(SyntaxError(offset, NoPipeTarget)); }
      var callee := ReadName();
      if callee.Err? { return Err(callee.error); }
      var counted := Node();
      if counted.Err? { return Err(counted.error); }
      var more := ReadOptionalArguments(depth);
      if more.Err? { return Err(more.error); }
      var call := Call(callee.value, [left] + more.value);
      if Depth(call) > MAX_DEPTH { return Err(SyntaxError(offset, TooDeep)); }
      return Ok(call);
    }

    method ReadOptionalArguments(depth: nat) returns (r: Result<seq<Expression>, SyntaxError>)
      requires Valid()
      modifies this
      ensures Did(r, OptionalArguments(source, old(offset), old(nodes), depth, alphanumeric))
      decreases |source| - offset, 5
    {
      Whitespace();
      var open := Take("(");
      if !open { return Ok([]); }
      r := ReadArguments(depth);
    }

    method ReadAtom(depth: nat) returns (r: Result<Expression, SyntaxError>)
      requires Valid()
      modifies this
      ensures Did(r, Atom(source, old(offset), old(nodes), depth, alphanumeric))
      decreases |source| - offset, 1
    {
      Whitespace();
      var counted := Node();
      if counted.Err? { return Err(counted.error); }
      var at := Take("@");
      if at {
        r := ReadMention(depth);
        return;
      }
      if Starts(source, offset, "\"") {
        var text := ReadQuoted();
        if text.Err? { return Err(text.error); }
        return Ok(Literal(text.value));
      }
      var find := Take("find");
      if find {
        r := ReadFind(depth);
        return;
      }
      var count := Take("count");
      if count {
        r := ReadCount(depth);
        return;
      }
      return Err(SyntaxError(offset, NoExpression));
    }

    method ReadMention(depth: nat) returns (r: Result<Expression, SyntaxError>)
      requires Valid()
      modifies this
      ensures Did(r, Mention(source, old(offset), old(nodes), depth, alphanumeric))
      decreases |source| - offset, 5
    {
      var name := ReadName();
      if name.Err? { return Err(name.error); }
      Whitespace();
      var open := Take("(");
      if !open { return Ok(Reference(name.value)); }
      var arguments := ReadArguments(depth);
      if arguments.Err? { return Err(arguments.error); }
      return Ok(Call(name.value, arguments.value));
    }

    method ReadFind(depth: nat) returns (r: Result<Expression, SyntaxError>)
      requires Valid()
      modifies this
      ensures Did(r, FindCall(source, old(offset), old(nodes), depth, alphanumeric))
      decreases |source| - offset, 5
    {
      Whitespace();
      var open := Take("(");
      if !open { return Err(SyntaxError(offset, NoFindArguments)); }
      var operands := ReadArguments(depth);
      if operands.Err? { return Err(operands.error); }
      if |operands.value| != 2 { return Err(SyntaxError(offset, NotTwoOperands)); }
      return Ok(Find(operands.value[0], operands.value[1]));
    }

    method ReadCount(depth: nat) returns (r: Result<Expression, SyntaxError>)
      requires Valid()
      modifies this
      ensures Did(r, CountCall(source, old(offset), old(nodes), depth, alphanumeric))
      decreases |source| - offset, 5
    {
      Whitespace();
      var open := Take("(");
      if !open { return Err(SyntaxError(offset, NoCountArguments)); }
      var sources := ReadArguments(depth);
      if sources.Err? { return Err(sources.error); }
      if |sources.value| != 1 { return Err(SyntaxError(offset, NotOneSource)); }
      return Ok(Count(sources.value[0]));
    }

    method ReadArguments(depth: nat) returns (r: Result<seq<Expression>, SyntaxError>)
      requires Valid()
      modifies this
      ensures Did(r, Arguments(source, old(offset), old(nodes), depth, alphanumeric))
      decreases |source| - offset, 4
    {
      Whitespace();
      var closed := Take(")");
      if closed { return Ok([]); }
      r := ReadArgumentList(depth);
    }

    method ReadArgumentList(depth: nat) returns (r: Result<seq<Expression>, SyntaxError>)
      requires Valid()
      modifies this
      ensures Did(r, ArgumentList(source, [], old(offset), old(nodes), depth, alphanumeric))
      decreases |source| - offset, 3
    {
      var arguments: seq<Expression> := [];
      ghost var meaning := ArgumentList(source, [], offset, nodes, depth, alphanumeric);
      while true
        invariant Valid() && old(offset) <= offset
        invariant meaning == ArgumentList(source, arguments, offset, nodes, depth, alphanumeric)
        decreases |source| - offset
      {
        ghost var before := ExpressionAt(source, offset, nodes, depth + 1, alphanumeric);
        var argument := ReadExpression(depth + 1);
        if argument.Err? { return Err(argument.error); }
        arguments := arguments + [argument.value];
        assert before == Ok(Progress(argument.value, offset, nodes));
        Whitespace();
        var closed := Take(")");
        if closed { return Ok(arguments); }
        var comma := Take(",");
        if !comma { return Err(SyntaxError(offset, NoCommaOrClose)); }
      }
    }
  }

  /** A terminal entry: the parser is started after a leading `=`, and must use up the text. */
  method ParseNeuralCommand(source: string, alphanumeric: set<char>) returns (r: Result<Command, SyntaxError>)
    ensures r == ParseCommand(source, alphanumeric)
  {
    if Utf8Len(source) > MAX_COMMAND_BYTES { return Err(SyntaxError(MAX_COMMAND_BYTES, TooLong)); }
    var start := SkipSpace(source, 0);
    if !Starts(source, start, "=") { return Ok(Prompt(source)); }
    var parser := new Parser(source, start + 1, alphanumeric);
    var expression := parser.ReadExpression(0);
    if expression.Err? { return Err(expression.error); }
    parser.Whitespace();
    if parser.offset != |source| { return Err(SyntaxError(parser.offset, TrailingText)); }
    if Depth(expression.value) > MAX_DEPTH { return Err(SyntaxError(parser.offset, TooDeep)); }
    return Ok(Entry(expression.value));
  }
}
