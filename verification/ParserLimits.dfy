/** Limits and round trips of the language. */
module ParserLimits {
  import opened Wrappers
  import opened Unicode
  import opened ReferenceGrammar
  import opened Spelling
  import opened RoundTrip

  /** The node counter moved by exactly the size of what was read, and every name in it says something. */
  ghost predicate Counted(parse: Parse<Expression>, nodes: nat) {
    parse.Ok? ==> parse.value.nodes == nodes + Size(parse.value.value) && WellNamed(parse.value.value)
  }

  ghost predicate AllCounted(parse: Parse<seq<Expression>>, nodes: nat) {
    parse.Ok? ==> parse.value.nodes == nodes + SizeAll(parse.value.value) && AllWellNamed(parse.value.value)
  }

  lemma NameIsNotBlank(source: string, i: nat, nodes: nat, alphanumeric: set<char>)
    requires i <= |source| && Sane(alphanumeric)
    ensures Name(source, i, nodes, alphanumeric).Ok? ==> !Blank(Name(source, i, nodes, alphanumeric).value.value)
  {
    var end := NameEnd(source, i, alphanumeric);
    if i < end { assert source[i..end][0] == source[i] && !IsWhitespace(source[i]); }
  }

  lemma {:induction false} ExpressionCounts(source: string, i: nat, nodes: nat, depth: nat, alphanumeric: set<char>)
    requires i <= |source| && nodes <= MAX_NODES && Sane(alphanumeric)
    ensures Counted(ExpressionAt(source, i, nodes, depth, alphanumeric), nodes)
    decreases |source| - i, 2
  {
    AtomCounts(source, i, nodes, depth, alphanumeric);
    var head := Atom(source, i, nodes, depth, alphanumeric);
    if head.Ok? {
      PipelineCounts(source, head.value.value, SkipSpace(source, head.value.next), head.value.nodes, depth, alphanumeric);
    }
  }

  lemma {:induction false} PipelineCounts(source: string, left: Expression, i: nat, nodes: nat, depth: nat, alphanumeric: set<char>)
    requires i <= |source| && nodes <= MAX_NODES && Sane(alphanumeric) && Size(left) <= nodes && WellNamed(left)
    ensures Counted(Pipeline(source, left, i, nodes, depth, alphanumeric), nodes - Size(left))
    decreases |source| - i, 0
  {
    if Starts(source, i, "|>") {
      PipedCounts(source, left, i + 2, nodes, depth, alphanumeric);
      var call := Piped(source, left, i + 2, nodes, depth, alphanumeric);
      if call.Ok? {
        PipelineCounts(source, call.value.value, SkipSpace(source, call.value.next), call.value.nodes, depth, alphanumeric);
      }
    }
  }

  lemma {:induction false} PipedCounts(source: string, left: Expression, i: nat, nodes: nat, depth: nat, alphanumeric: set<char>)
    requires i <= |source| && nodes <= MAX_NODES && Sane(alphanumeric) && Size(left) <= nodes && WellNamed(left)
    ensures Counted(Piped(source, left, i, nodes, depth, alphanumeric), nodes - Size(left))
    decreases |source| - i, 5
  {
    var call := Piped(source, left, i, nodes, depth, alphanumeric);
    if call.Ok? {
      var name, more := PipedParts(source, left, i, nodes, depth, alphanumeric, call.value);
      NameIsNotBlank(source, SkipSpace(source, i) + 1, nodes, alphanumeric);
      OptionalCounts(source, name.next, nodes + 1, depth, alphanumeric);
      PipedCallCounts(name.value, left, more.value);
    }
  }

  /** A pipe that was read is the call of a name with what follows it. */
  lemma PipedParts(source: string, left: Expression, i: nat, nodes: nat, depth: nat, alphanumeric: set<char>,
                   call: Progress<Expression>) returns (name: Progress<string>, more: Progress<seq<Expression>>)
    requires i <= |source| && nodes <= MAX_NODES && Piped(source, left, i, nodes, depth, alphanumeric) == Ok(call)
    ensures nodes < MAX_NODES && i < name.next <= |source| && SkipSpace(source, i) < |source|
    ensures Name(source, SkipSpace(source, i) + 1, nodes, alphanumeric) == Ok(name)
    ensures OptionalArguments(source, name.next, nodes + 1, depth, alphanumeric) == Ok(more)
    ensures call == Progress(Call(name.value, [left] + more.value), more.next, more.nodes)
  {
    name := Name(source, SkipSpace(source, i) + 1, nodes, alphanumeric).value;
    more := OptionalArguments(source, name.next, nodes + 1, depth, alphanumeric).value;
  }

  lemma PipedCallCounts(callee: string, left: Expression, more: seq<Expression>)
    ensures Size(Call(callee, [left] + more)) == 1 + Size(left) + SizeAll(more)
    ensures WellNamed(Call(callee, [left] + more)) <==> !Blank(callee) && WellNamed(left) && AllWellNamed(more)
  {
    Prepended(left, more);
  }

  lemma {:induction false} OptionalCounts(source: string, i: nat, nodes: nat, depth: nat, alphanumeric: set<char>)
    requires i <= |source| && nodes <= MAX_NODES && Sane(alphanumeric)
    ensures AllCounted(OptionalArguments(source, i, nodes, depth, alphanumeric), nodes)
    decreases |source| - i, 5
  {
    var open := SkipSpace(source, i);
    if Starts(source, open, "(") { ArgumentsCount(source, open + 1, nodes, depth, alphanumeric); }
  }

  lemma {:induction false} AtomCounts(source: string, i: nat, nodes: nat, depth: nat, alphanumeric: set<char>)
    requires i <= |source| && nodes <= MAX_NODES && Sane(alphanumeric)
    ensures Counted(Atom(source, i, nodes, depth, alphanumeric), nodes)
    decreases |source| - i, 1
  {
    var start := SkipSpace(source, i);
    if nodes < MAX_NODES {
      if Starts(source, start, "@") {
        MentionCounts(source, start + 1, nodes + 1, depth, alphanumeric);
      } else if Starts(source, start, "find") {
        FindCounts(source, start + 4, nodes + 1, depth, alphanumeric);
      } else if Starts(source, start, "count") {
        CountCounts(source, start + 5, nodes + 1, depth, alphanumeric);
      }
    }
  }

  lemma {:induction false} MentionCounts(source: string, i: nat, counted: nat, depth: nat, alphanumeric: set<char>)
    requires i <= |source| && 0 < counted <= MAX_NODES && Sane(alphanumeric)
    ensures Counted(Mention(source, i, counted, depth, alphanumeric), counted - 1)
    decreases |source| - i, 5
  {
    NameIsNotBlank(source, i, counted, alphanumeric);
    var name := Name(source, i, counted, alphanumeric);
    if name.Ok? {
      var open := SkipSpace(source, name.value.next);
      if Starts(source, open, "(") { ArgumentsCount(source, open + 1, counted, depth, alphanumeric); }
    }
  }

  lemma {:induction false} FindCounts(source: string, i: nat, counted: nat, depth: nat, alphanumeric: set<char>)
    requires i <= |source| && 0 < counted <= MAX_NODES && Sane(alphanumeric)
    ensures Counted(FindCall(source, i, counted, depth, alphanumeric), counted - 1)
    decreases |source| - i, 5
  {
    var open := SkipSpace(source, i);
    if Starts(source, open, "(") {
      ArgumentsCount(source, open + 1, counted, depth, alphanumeric);
      var operands := Arguments(source, open + 1, counted, depth, alphanumeric);
      if operands.Ok? && |operands.value.value| == 2 { FewOperands(operands.value.value); }
    }
  }

  lemma {:induction false} CountCounts(source: string, i: nat, counted: nat, depth: nat, alphanumeric: set<char>)
    requires i <= |source| && 0 < counted <= MAX_NODES && Sane(alphanumeric)
    ensures Counted(CountCall(source, i, counted, depth, alphanumeric), counted - 1)
    decreases |source| - i, 5
  {
    var open := SkipSpace(source, i);
    if Starts(source, open, "(") {
      ArgumentsCount(source, open + 1, counted, depth, alphanumeric);
      var sources := Arguments(source, open + 1, counted, depth, alphanumeric);
      if sources.Ok? && |sources.value.value| == 1 { FewOperands(sources.value.value); }
    }
  }

  lemma FewOperands(es: seq<Expression>)
    ensures |es| == 1 ==> SizeAll(es) == Size(es[0])
    ensures |es| == 2 ==> SizeAll(es) == Size(es[0]) + Size(es[1])
  {
    if |es| == 1 { assert SizeOf(es, 0) == 0; }
    if |es| == 2 { assert SizeOf(es, 1) == SizeOf(es, 0) + Size(es[0]); }
  }

  lemma {:induction false} ArgumentsCount(source: string, i: nat, nodes: nat, depth: nat, alphanumeric: set<char>)
    requires i <= |source| && nodes <= MAX_NODES && Sane(alphanumeric)
    ensures AllCounted(Arguments(source, i, nodes, depth, alphanumeric), nodes)
    decreases |source| - i, 4
  {
    var first := SkipSpace(source, i);
    if !Starts(source, first, ")") { ListCounts(source, [], first, nodes, depth, alphanumeric); }
  }

  lemma {:induction false} ListCounts(source: string, before: seq<Expression>, i: nat, nodes: nat, depth: nat, alphanumeric: set<char>)
    requires i <= |source| && nodes <= MAX_NODES && Sane(alphanumeric) && SizeAll(before) <= nodes && AllWellNamed(before)
    ensures AllCounted(ArgumentList(source, before, i, nodes, depth, alphanumeric), nodes - SizeAll(before))
    decreases |source| - i, 3
  {
    ExpressionCounts(source, i, nodes, depth + 1, alphanumeric);
    var next := ExpressionAt(source, i, nodes, depth + 1, alphanumeric);
    if next.Ok? {
      var after := SkipSpace(source, next.value.next);
      Appended(before, next.value.value);
      if !Starts(source, after, ")") && Starts(source, after, ",") {
        ListCounts(source, before + [next.value.value], after + 1, next.value.nodes, depth, alphanumeric);
      }
    }
  }

  /** Whatever is accepted as an expression has at most 256 nodes, depth at most 16 and no blank name. */
  lemma AcceptedWithinLimits(source: string, alphanumeric: set<char>, e: Expression)
    requires Sane(alphanumeric) && ParseCommand(source, alphanumeric) == Ok(Entry(e))
    ensures Size(e) <= MAX_NODES && Depth(e) <= MAX_DEPTH && WellNamed(e)
  {
    ExpressionCounts(source, SkipSpace(source, 0) + 1, 0, 0, alphanumeric);
  }

  /**
   Every spelling of a tree within the limits, nested or piped, is read back to exactly that
   tree, whatever counts as alphanumeric.
   */
  lemma SpellingsReadBack(sp: Spelled, alphanumeric: set<char>)
    requires Size(Meaning(sp)) <= MAX_NODES && Depth(Meaning(sp)) <= MAX_DEPTH && WellNamed(Meaning(sp))
    requires Utf8Len("=" + Render(sp)) <= MAX_COMMAND_BYTES
    ensures ParseCommand("=" + Render(sp), alphanumeric) == Ok(Entry(Meaning(sp)))
  {
    var source := "=" + Render(sp);
    EntryWritten(sp, source);
    EntryReads(source, sp, alphanumeric);
  }

  lemma EntryWritten(sp: Spelled, source: string)
    requires source == "=" + Render(sp)
    ensures SkipSpace(source, 0) == 0 && Starts(source, 0, "=") && WrittenAt(source, 1, sp) && 1 + Width(sp) == |source|
  {
    assert "=" + (Render(sp) + "") == source;
    Split(source, 0, "=", Render(sp) + "");
    AtPeek(source, 0, "=", 0);
    RenderWritten(source, 1, sp, "");
  }

  lemma EntryReads(source: string, sp: Spelled, alphanumeric: set<char>)
    requires SkipSpace(source, 0) == 0 && Starts(source, 0, "=") && WrittenAt(source, 1, sp) && 1 + Width(sp) == |source|
    requires Fits(Meaning(sp), 0, 0) && Utf8Len(source) <= MAX_COMMAND_BYTES
    ensures ParseCommand(source, alphanumeric) == Ok(Entry(Meaning(sp)))
  {
    EntireReads(source, sp, alphanumeric);
    assert SkipSpace(source, |source|) == |source|;
  }

  lemma EntireReads(source: string, sp: Spelled, alphanumeric: set<char>)
    requires WrittenAt(source, 1, sp) && 1 + Width(sp) == |source| && Fits(Meaning(sp), 0, 0)
    ensures Gives(ExpressionAt(source, 1, 0, 0, alphanumeric), Meaning(sp), |source|, Size(Meaning(sp)))
  {
    assert SkipSpace(source, |source|) == |source|;
    ExpressionReads(source, 1, 0, 0, sp, alphanumeric,
                    Pipeline(source, Meaning(sp), |source|, Size(Meaning(sp)), 0, alphanumeric));
  }

  /** The plain spelling of a tree: every call nested. */
  function Plain(e: Expression): Spelled
    decreases e
  {
    match e
    case Reference(name) => Refer(name)
    case Literal(text) => Say(text)
    case Call(callee, arguments) => Nest(callee, PlainFrom(arguments, 0))
    case Find(source, query) => Seek(Plain(source), Plain(query))
    case Count(source) => Tally(Plain(source))
  }

  function PlainFrom(es: seq<Expression>, k: nat): Spelleds
    requires k <= |es|
    decreases es, |es| - k
  {
    if k == |es| then Nil else Cons(Plain(es[k]), PlainFrom(es, k + 1))
  }

  lemma {:induction false} PlainMeansTheTree(e: Expression)
    ensures Meaning(Plain(e)) == e
    decreases e
  {
    match e
    case Reference(_) =>
    case Literal(_) =>
    case Call(_, arguments) =>
      PlainMeansTheRest(arguments, 0);
      assert arguments[0..] == arguments;
    case Find(source, query) =>
      PlainMeansTheTree(source);
      PlainMeansTheTree(query);
    case Count(source) =>
      PlainMeansTheTree(source);
  }

  lemma {:induction false} PlainMeansTheRest(es: seq<Expression>, k: nat)
    requires k <= |es|
    ensures Meanings(PlainFrom(es, k)) == es[k..]
    decreases es, |es| - k
  {
    if k < |es| {
      PlainMeansTheTree(es[k]);
      PlainMeansTheRest(es, k + 1);
      assert es[k..] == [es[k]] + es[k + 1..];
    }
  }

  /** The trees the parser can deliver are exactly those within its limits, as far as text of 64 KiB can spell them. */
  lemma EveryTreeWithinLimitsIsRead(e: Expression, alphanumeric: set<char>)
    requires Sane(alphanumeric) && Utf8Len("=" + Render(Plain(e))) <= MAX_COMMAND_BYTES
    ensures (exists source :: ParseCommand(source, alphanumeric) == Ok(Entry(e)))
            <==> Size(e) <= MAX_NODES && Depth(e) <= MAX_DEPTH && WellNamed(e)
  {
    PlainMeansTheTree(e);
    if Size(e) <= MAX_NODES && Depth(e) <= MAX_DEPTH && WellNamed(e) {
      SpellingsReadBack(Plain(e), alphanumeric);
    }
    if source :| ParseCommand(source, alphanumeric) == Ok(Entry(e)) {
      AcceptedWithinLimits(source, alphanumeric, e);
    }
  }

  /** A pipeline is only another way to write nested calls: what two spellings mean alike is read alike. */
  lemma PipelinesAreSugar(a: Spelled, b: Spelled, alphanumeric: set<char>)
    requires Meaning(a) == Meaning(b)
    requires Size(Meaning(a)) <= MAX_NODES && Depth(Meaning(a)) <= MAX_DEPTH && WellNamed(Meaning(a))
    requires Utf8Len("=" + Render(a)) <= MAX_COMMAND_BYTES && Utf8Len("=" + Render(b)) <= MAX_COMMAND_BYTES
    ensures ParseCommand("=" + Render(a), alphanumeric) == ParseCommand("=" + Render(b), alphanumeric)
  {
    SpellingsReadBack(a, alphanumeric);
    SpellingsReadBack(b, alphanumeric);
  }

  /** A keyword is taken as a prefix: whatever follows it, a letter included, has to be its arguments. */
  lemma KeywordNeedsArguments(source: string, i: nat, nodes: nat, depth: nat, alphanumeric: set<char>)
    requires i <= |source| && nodes < MAX_NODES && depth < MAX_DEPTH && Starts(source, SkipSpace(source, i), "find")
    requires !Starts(source, SkipSpace(source, SkipSpace(source, i) + 4), "(")
    ensures ExpressionAt(source, i, nodes, depth, alphanumeric)
            == Err(SyntaxError(SkipSpace(source, SkipSpace(source, i) + 4), NoFindArguments))
  {
    var start := SkipSpace(source, i);
    assert FindCall(source, start + 4, nodes + 1, depth, alphanumeric) == Err(SyntaxError(SkipSpace(source, start + 4), NoFindArguments));
    assert source[start] == 'f';
    assert Atom(source, i, nodes, depth, alphanumeric) == Err(SyntaxError(SkipSpace(source, start + 4), NoFindArguments));
  }

  lemma FindStands(source: string, i: nat)
    requires i + 4 <= |source| && source[i] == 'f' && source[i + 1] == 'i' && source[i + 2] == 'n' && source[i + 3] == 'd'
    ensures Starts(source, i, "find")
  {
    var token := "find";
    forall k | 1 <= k < |token| ensures source[i + k] == token[k] {}
  }

  lemma CommandFails(source: string, start: nat, error: SyntaxError, alphanumeric: set<char>)
    requires Utf8Len(source) <= MAX_COMMAND_BYTES && start == SkipSpace(source, 0) < |source| && source[start] == '='
    requires ExpressionAt(source, start + 1, 0, 0, alphanumeric) == Err(error)
    ensures ParseCommand(source, alphanumeric) == Err(error)
  {}

  /** So an entry such as `=findings(@a)` fails behind the keyword, and not as an unknown word. */
  lemma LongerWordIsNoFind(rest: string, alphanumeric: set<char>)
    requires rest != [] && !IsWhitespace(rest[0]) && rest[0] != '(' && 5 + Utf8Len(rest) <= MAX_COMMAND_BYTES
    ensures ParseCommand("=find" + rest, alphanumeric) == Err(SyntaxError(5, NoFindArguments))
  {
    var source := "=find" + rest;
    Utf8LenConcat("=find", rest);
    FindStands(source, 1);
    assert source[5] == rest[0];
    FindWithout(source, 0, alphanumeric);
    CommandFails(source, 0, SyntaxError(5, NoFindArguments), alphanumeric);
  }

  lemma FindWithout(source: string, at: nat, alphanumeric: set<char>)
    requires at + 5 < |source| && Starts(source, at + 1, "find") && !IsWhitespace(source[at + 5]) && source[at + 5] != '('
    ensures ExpressionAt(source, at + 1, 0, 0, alphanumeric) == Err(SyntaxError(at + 5, NoFindArguments))
  {
    assert SkipSpace(source, at + 1) == at + 1 && SkipSpace(source, at + 5) == at + 5;
    KeywordNeedsArguments(source, at + 1, 0, 0, alphanumeric);
  }
}
