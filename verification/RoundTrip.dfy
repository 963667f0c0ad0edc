/**
 The parser reads every spelling of a tree within its limits back to exactly that tree. First one
 lemma for each step of the parser whose parts are read already, then what the limits on a tree
 say about its parts, and last the induction over spellings.
*/
module RoundTrip {
  import opened Unicode
  import opened ReferenceGrammar
  import opened Spelling

  /** The parse succeeds with this value, at this position, with this many nodes counted. */
  ghost predicate Gives<T>(parse: Parse<T>, value: T, next: nat, nodes: nat) {
    parse.Ok? && parse.value.value == value && parse.value.next == next && parse.value.nodes == nodes
  }

  lemma PeekStarts(source: string, i: nat, c: char)
    requires Peek(source, i, c)
    ensures Starts(source, i, [c])
    ensures !IsWhitespace(c) ==> SkipSpace(source, i) == i
  {}

  lemma BarStarts(source: string, i: nat)
    requires BarAt(source, i)
    ensures SkipSpace(source, i) == i + 1 && Starts(source, i + 1, "|>")
    ensures SkipSpace(source, i + 3) == i + 4 && Starts(source, i + 4, "@")
  {
    PeekStarts(source, i + 4, '@');
  }

  lemma KeywordStarts(source: string, i: nat)
    ensures FindAt(source, i) ==> SkipSpace(source, i) == i && Starts(source, i, "find")
    ensures CountAt(source, i) ==> SkipSpace(source, i) == i && Starts(source, i, "count")
  {
  }

  // ---------- Quoted text and names ----------

  lemma {:induction false} QuotedRestReads(source: string, i: nat, before: string, text: string, nodes: nat)
    requires EscapedAt(source, i, text)
    ensures Gives(QuotedRest(source, i, '\"', before, nodes),
                  before + text, i + EscapedWidth(text) + 1, nodes)
    decreases |text|
  {
    if text == [] {
      assert before + text == before;
    } else {
      assert (before + [text[0]]) + text[1..] == before + text;
      QuotedRestReads(source, i + if NeedsEscape(text[0]) then 2 else 1, before + [text[0]], text[1..], nodes);
    }
  }

  lemma QuotedReads(source: string, i: nat, text: string, nodes: nat)
    requires QuotedAt(source, i, text)
    ensures SkipSpace(source, i) == i && Starts(source, i, "\"")
    ensures Gives(Quoted(source, i, nodes),
                  text, i + QuotedWidth(text), nodes)
  {
    PeekStarts(source, i, '\"');
    QuotedRestReads(source, i + 1, "", text, nodes);
    assert "" + text == text;
  }

  lemma NameReads(source: string, i: nat, name: string, nodes: nat, alphanumeric: set<char>)
    requires QuotedAt(source, i, name) && !Blank(name)
    ensures Gives(Name(source, i, nodes, alphanumeric),
                  name, i + QuotedWidth(name), nodes)
    ensures i + QuotedWidth(name) <= |source|
  {
    QuotedReads(source, i, name, nodes);
  }

  // ---------- Expressions ----------

  /** What follows cannot be taken for the parentheses of a call. */
  ghost predicate NoOpenNext(source: string, j: nat) {
    j <= |source| && !Starts(source, SkipSpace(source, j), "(")
  }

  /** The tree fits what the limits leave, and every name in it says something. */
  ghost predicate Fits(e: Expression, nodes: nat, depth: nat) {
    nodes + Size(e) <= MAX_NODES && depth + Depth(e) <= MAX_DEPTH && WellNamed(e)
  }

  ghost predicate AllFit(es: seq<Expression>, nodes: nat, depth: nat) {
    nodes + SizeAll(es) <= MAX_NODES && depth + Deepest(es) <= MAX_DEPTH && AllWellNamed(es)
  }

  // One step of the parser each, with its parts already read.

  lemma AtomStep(source: string, i: nat, nodes: nat, depth: nat, e: Expression, next: nat, counted: nat, alphanumeric: set<char>)
    requires i <= |source| && nodes <= MAX_NODES && depth < MAX_DEPTH
    requires Gives(Atom(source, i, nodes, depth, alphanumeric),
                  e, next, counted)
    ensures next <= |source| && counted <= MAX_NODES
    ensures ExpressionAt(source, i, nodes, depth, alphanumeric)
            == Pipeline(source, e, SkipSpace(source, next), counted, depth, alphanumeric)
  {}

  lemma ReferStep(source: string, i: nat, nodes: nat, depth: nat, name: string, alphanumeric: set<char>)
    requires Peek(source, i, '@') && QuotedAt(source, i + 1, name) && NoOpenNext(source, i + 1 + QuotedWidth(name))
    requires nodes < MAX_NODES && !Blank(name)
    ensures Gives(Atom(source, i, nodes, depth, alphanumeric),
                  Reference(name), SkipSpace(source, i + 1 + QuotedWidth(name)), nodes + 1)
  {
    PeekStarts(source, i, '@');
    NameReads(source, i + 1, name, nodes + 1, alphanumeric);
  }

  lemma SayStep(source: string, i: nat, nodes: nat, depth: nat, text: string, alphanumeric: set<char>)
    requires QuotedAt(source, i, text) && nodes < MAX_NODES
    ensures Gives(Atom(source, i, nodes, depth, alphanumeric),
                  Literal(text), i + QuotedWidth(text), nodes + 1)
  {
    QuotedReads(source, i, text, nodes + 1);
  }

  lemma NestStep(source: string, i: nat, nodes: nat, depth: nat, callee: string, arguments: seq<Expression>,
                 end: nat, counted: nat, alphanumeric: set<char>)
    requires Peek(source, i, '@') && QuotedAt(source, i + 1, callee) && !Blank(callee) && nodes < MAX_NODES
    requires Peek(source, i + 1 + QuotedWidth(callee), '(')
    requires Gives(Arguments(source, i + 2 + QuotedWidth(callee), nodes + 1, depth, alphanumeric),
                  arguments, end, counted)
    ensures Gives(Atom(source, i, nodes, depth, alphanumeric),
                  Call(callee, arguments), end, counted)
  {
    PeekStarts(source, i, '@');
    NameReads(source, i + 1, callee, nodes + 1, alphanumeric);
    PeekStarts(source, i + 1 + QuotedWidth(callee), '(');
  }

  /** Every spelling starts with one of these, so a list of arguments is not empty. */
  ghost predicate HeadAt(source: string, i: nat) {
    Peek(source, i, '@') || Peek(source, i, '\"') || Peek(source, i, 'f') || Peek(source, i, 'c')
  }

  lemma FirstStep(source: string, i: nat, nodes: nat, depth: nat, alphanumeric: set<char>)
    requires HeadAt(source, i) && nodes <= MAX_NODES
    ensures Arguments(source, i, nodes, depth, alphanumeric) == ArgumentList(source, [], i, nodes, depth, alphanumeric)
  {}

  lemma PipedStep(source: string, bar: nat, left: Expression, nodes: nat, depth: nat, callee: string,
                  more: seq<Expression>, end: nat, counted: nat, alphanumeric: set<char>, out: Parse<Expression>)
    requires BarAt(source, bar) && QuotedAt(source, bar + 5, callee) && !Blank(callee)
    requires nodes < MAX_NODES && bar + 5 + QuotedWidth(callee) <= |source|
    requires Gives(OptionalArguments(source, bar + 5 + QuotedWidth(callee), nodes + 1, depth, alphanumeric),
                  more, end, counted)
    requires Depth(Call(callee, [left] + more)) <= MAX_DEPTH
    requires end <= |source| && counted <= MAX_NODES
    requires out == Pipeline(source, Call(callee, [left] + more), SkipSpace(source, end), counted, depth, alphanumeric)
    ensures Pipeline(source, left, bar + 1, nodes, depth, alphanumeric) == out
  {
    BarStarts(source, bar);
    NameReads(source, bar + 5, callee, nodes, alphanumeric);
    assert Gives(Piped(source, left, bar + 3, nodes, depth, alphanumeric),
                  Call(callee, [left] + more), end, counted);
  }

  lemma LastStep(source: string, i: nat, before: seq<Expression>, nodes: nat, depth: nat, first: Expression,
                 after: nat, counted: nat, alphanumeric: set<char>)
    requires i <= |source| && nodes <= MAX_NODES && Peek(source, after, ')')
    requires Gives(ExpressionAt(source, i, nodes, depth + 1, alphanumeric), first, after, counted)
    ensures Gives(ArgumentList(source, before, i, nodes, depth, alphanumeric), before + [first], after + 1, counted)
  {
    PeekStarts(source, after, ')');
  }

  lemma CommaStep(source: string, i: nat, before: seq<Expression>, nodes: nat, depth: nat, first: Expression,
                  after: nat, counted: nat, alphanumeric: set<char>, out: Parse<seq<Expression>>)
    requires i <= |source| && nodes <= MAX_NODES && Peek(source, after, ',') && counted <= MAX_NODES
    requires Gives(ExpressionAt(source, i, nodes, depth + 1, alphanumeric), first, after, counted)
    requires out == ArgumentList(source, before + [first], after + 1, counted, depth, alphanumeric)
    ensures ArgumentList(source, before, i, nodes, depth, alphanumeric) == out
  {
    PeekStarts(source, after, ',');
  }

  lemma FindStep(source: string, i: nat, nodes: nat, depth: nat, a: Expression, b: Expression,
                 end: nat, counted: nat, alphanumeric: set<char>)
    requires FindAt(source, i) && nodes < MAX_NODES
    requires Gives(Arguments(source, i + 5, nodes + 1, depth, alphanumeric), [a, b], end, counted)
    ensures Gives(Atom(source, i, nodes, depth, alphanumeric), Find(a, b), end, counted)
  {
    KeywordStarts(source, i);
    PeekStarts(source, i + 4, '(');
  }

  lemma CountStep(source: string, i: nat, nodes: nat, depth: nat, a: Expression, end: nat, counted: nat,
                  alphanumeric: set<char>)
    requires CountAt(source, i) && nodes < MAX_NODES
    requires Gives(Arguments(source, i + 6, nodes + 1, depth, alphanumeric), [a], end, counted)
    ensures Gives(Atom(source, i, nodes, depth, alphanumeric), Count(a), end, counted)
  {
    KeywordStarts(source, i);
    PeekStarts(source, i + 5, '(');
  }

  // What a tree within the limits says about its parts.

  lemma NestFits(sp: Spelled, nodes: nat, depth: nat)
    requires sp.Nest? && Fits(Meaning(sp), nodes, depth)
    ensures Meaning(sp) == Call(sp.callee, Meanings(sp.arguments)) && !Blank(sp.callee) && nodes < MAX_NODES
    ensures AllFit(Meanings(sp.arguments), nodes + 1, depth + 1)
    ensures Size(Meaning(sp)) == 1 + SizeAll(Meanings(sp.arguments))
  {}

  lemma PipeFits(sp: Spelled, nodes: nat, depth: nat)
    requires sp.Pipe? && Fits(Meaning(sp), nodes, depth)
    ensures Meaning(sp) == Call(sp.callee, [Meaning(sp.left)] + Meanings(sp.more)) && !Blank(sp.callee)
    ensures Fits(Meaning(sp.left), nodes, depth) && nodes + Size(Meaning(sp.left)) < MAX_NODES
    ensures AllFit(Meanings(sp.more), nodes + Size(Meaning(sp.left)) + 1, depth + 1)
    ensures Size(Meaning(sp)) == Size(Meaning(sp.left)) + 1 + SizeAll(Meanings(sp.more))
    ensures Depth(Meaning(sp)) <= MAX_DEPTH
  {
    Prepended(Meaning(sp.left), Meanings(sp.more));
  }

  lemma SeekFits(a: Expression, b: Expression, nodes: nat, depth: nat)
    requires Fits(Find(a, b), nodes, depth)
    ensures Fits(a, nodes + 1, depth + 1) && Fits(b, nodes + 1 + Size(a), depth + 1)
    ensures nodes < MAX_NODES && Size(Find(a, b)) == 1 + Size(a) + Size(b)
  {}

  lemma OneFits(sp: Spelled, nodes: nat, depth: nat)
    requires Fits(Meaning(sp), nodes, depth)
    ensures Meanings(Cons(sp, Nil)) == [Meaning(sp)] && SizeAll([Meaning(sp)]) == Size(Meaning(sp))
    ensures AllFit([Meaning(sp)], nodes, depth)
  {
    Prepended(Meaning(sp), []);
    assert [Meaning(sp)] + [] == [Meaning(sp)];
  }

  lemma PairFits(first: Spelled, second: Spelled, nodes: nat, depth: nat)
    requires Fits(Meaning(first), nodes, depth) && Fits(Meaning(second), nodes + Size(Meaning(first)), depth)
    ensures var a, b := Meaning(first), Meaning(second);
            && Meanings(Cons(first, Cons(second, Nil))) == [a, b] && SizeAll([a, b]) == Size(a) + Size(b)
            && AllFit([a, b], nodes, depth)
  {
    OneFits(second, nodes + Size(Meaning(first)), depth);
    Prepended(Meaning(first), [Meaning(second)]);
    assert [Meaning(first)] + [Meaning(second)] == [Meaning(first), Meaning(second)];
  }

  lemma ListFits(sps: Spelleds, nodes: nat, depth: nat)
    requires sps.Cons? && AllFit(Meanings(sps), nodes, depth)
    ensures Meanings(sps) == [Meaning(sps.head)] + Meanings(sps.tail)
    ensures Fits(Meaning(sps.head), nodes, depth) && AllFit(Meanings(sps.tail), nodes + Size(Meaning(sps.head)), depth)
    ensures SizeAll(Meanings(sps)) == Size(Meaning(sps.head)) + SizeAll(Meanings(sps.tail))
  {
    Prepended(Meaning(sps.head), Meanings(sps.tail));
  }

  // The induction over spellings.

  lemma {:induction false} ExpressionReads(source: string, i: nat, nodes: nat, depth: nat, sp: Spelled,
                                           alphanumeric: set<char>, out: Parse<Expression>)
    requires WrittenAt(source, i, sp) && NoOpenNext(source, i + Width(sp)) && Fits(Meaning(sp), nodes, depth)
    requires out == Pipeline(source, Meaning(sp), SkipSpace(source, i + Width(sp)), nodes + Size(Meaning(sp)), depth, alphanumeric)
    ensures ExpressionAt(source, i, nodes, depth, alphanumeric) == out
    decreases Width(sp), 5
  {
    var got := ExpressionAt(source, i, nodes, depth, alphanumeric);
    if sp.Pipe? {
      PipeReads(source, i, nodes, depth, sp, alphanumeric, got, out);
    } else {
      AloneReads(source, i, nodes, depth, sp, alphanumeric, got, out);
    }
  }

  lemma {:induction false} AloneReads(source: string, i: nat, nodes: nat, depth: nat, sp: Spelled,
                                      alphanumeric: set<char>, got: Parse<Expression>, out: Parse<Expression>)
    requires !sp.Pipe? && WrittenAt(source, i, sp) && NoOpenNext(source, i + Width(sp)) && Fits(Meaning(sp), nodes, depth)
    requires out == Pipeline(source, Meaning(sp), SkipSpace(source, i + Width(sp)), nodes + Size(Meaning(sp)), depth, alphanumeric)
    requires got == ExpressionAt(source, i, nodes, depth, alphanumeric)
    ensures got == out
    decreases Width(sp), 4
  {
    var next := AtomReads(source, i, nodes, depth, sp, alphanumeric);
    AtomStep(source, i, nodes, depth, Meaning(sp), next, nodes + Size(Meaning(sp)), alphanumeric);
  }

  lemma {:induction false} AtomReads(source: string, i: nat, nodes: nat, depth: nat, sp: Spelled, alphanumeric: set<char>)
    returns (next: nat)
    requires !sp.Pipe? && WrittenAt(source, i, sp) && NoOpenNext(source, i + Width(sp)) && Fits(Meaning(sp), nodes, depth)
    ensures Gives(Atom(source, i, nodes, depth, alphanumeric), Meaning(sp), next, nodes + Size(Meaning(sp)))
    ensures next <= |source| && SkipSpace(source, next) == SkipSpace(source, i + Width(sp))
    decreases Width(sp), 3
  {
    next := i + Width(sp);
    match sp
    case Refer(name) =>
      ReferStep(source, i, nodes, depth, name, alphanumeric);
      next := SkipSpace(source, i + Width(sp));
    case Say(text) => SayStep(source, i, nodes, depth, text, alphanumeric);
    case Nest(_, _) => NestReads(source, i, nodes, depth, sp, alphanumeric);
    case Seek(_, _) => SeekReads(source, i, nodes, depth, sp, alphanumeric);
    case Tally(_) => TallyReads(source, i, nodes, depth, sp, alphanumeric);
  }

  lemma {:induction false} NestReads(source: string, i: nat, nodes: nat, depth: nat, sp: Spelled, alphanumeric: set<char>)
    requires sp.Nest? && WrittenAt(source, i, sp) && Fits(Meaning(sp), nodes, depth)
    ensures Gives(Atom(source, i, nodes, depth, alphanumeric), Meaning(sp), i + Width(sp), nodes + Size(Meaning(sp)))
    decreases Width(sp), 2
  {
    NestFits(sp, nodes, depth);
    ArgumentsRead(source, i + 2 + QuotedWidth(sp.callee), nodes + 1, depth, sp.arguments, alphanumeric);
    NestStep(source, i, nodes, depth, sp.callee, Meanings(sp.arguments),
             i + 2 + QuotedWidth(sp.callee) + ClosedWidth(sp.arguments),
             nodes + 1 + SizeAll(Meanings(sp.arguments)), alphanumeric);
  }

  lemma {:induction false} SeekReads(source: string, i: nat, nodes: nat, depth: nat, sp: Spelled, alphanumeric: set<char>)
    requires sp.Seek? && WrittenAt(source, i, sp) && Fits(Meaning(sp), nodes, depth)
    ensures Gives(Atom(source, i, nodes, depth, alphanumeric), Meaning(sp), i + Width(sp), nodes + Size(Meaning(sp)))
    decreases Width(sp), 2
  {
    var a, b, operands := Meaning(sp.source), Meaning(sp.query), Cons(sp.source, Cons(sp.query, Nil));
    SeekFits(a, b, nodes, depth);
    PairFits(sp.source, sp.query, nodes + 1, depth + 1);
    assert ClosedAt(source, i + 5, operands) && ClosedWidth(operands) + 5 == Width(sp);
    ArgumentsRead(source, i + 5, nodes + 1, depth, operands, alphanumeric);
    FindStep(source, i, nodes, depth, a, b, i + Width(sp), nodes + 1 + SizeAll([a, b]), alphanumeric);
  }

  lemma {:induction false} TallyReads(source: string, i: nat, nodes: nat, depth: nat, sp: Spelled, alphanumeric: set<char>)
    requires sp.Tally? && WrittenAt(source, i, sp) && Fits(Meaning(sp), nodes, depth)
    ensures Gives(Atom(source, i, nodes, depth, alphanumeric), Meaning(sp), i + Width(sp), nodes + Size(Meaning(sp)))
    decreases Width(sp), 2
  {
    var a, operand := Meaning(sp.source), Cons(sp.source, Nil);
    OneFits(sp.source, nodes + 1, depth + 1);
    assert ClosedAt(source, i + 6, operand) && ClosedWidth(operand) + 6 == Width(sp);
    ArgumentsRead(source, i + 6, nodes + 1, depth, operand, alphanumeric);
    CountStep(source, i, nodes, depth, a, i + Width(sp), nodes + 1 + SizeAll([a]), alphanumeric);
  }

  lemma {:induction false} PipeReads(source: string, i: nat, nodes: nat, depth: nat, sp: Spelled,
                                     alphanumeric: set<char>, got: Parse<Expression>, out: Parse<Expression>)
    requires sp.Pipe? && WrittenAt(source, i, sp) && NoOpenNext(source, i + Width(sp)) && Fits(Meaning(sp), nodes, depth)
    requires out == Pipeline(source, Meaning(sp), SkipSpace(source, i + Width(sp)), nodes + Size(Meaning(sp)), depth, alphanumeric)
    requires got == ExpressionAt(source, i, nodes, depth, alphanumeric)
    ensures got == out
    decreases Width(sp), 3
  {
    PipeFits(sp, nodes, depth);
    PipeLayout(source, i, sp);
    var left, after, between := Meaning(sp.left), i + Width(sp.left) + 1, nodes + Size(Meaning(sp.left));
    PipeGoesOn(source, i + Width(sp.left), between, depth, left, sp.callee, sp.more, sp.bare,
               Meaning(sp), SkipSpace(source, i + Width(sp)), nodes + Size(Meaning(sp)), alphanumeric, out);
    LeftReads(source, i, nodes, depth, sp.left, left, after, between, alphanumeric, got, out);
  }

  lemma PipeLayout(source: string, i: nat, sp: Spelled)
    requires sp.Pipe? && WrittenAt(source, i, sp) && NoOpenNext(source, i + Width(sp))
    ensures var bar := i + Width(sp.left);
            && PipeAt(source, bar, sp.callee, sp.more, sp.bare)
            && i + Width(sp) == bar + 5 + QuotedWidth(sp.callee) + TailWidth(sp.more, sp.bare)
  {}

  ghost predicate PipeAt(source: string, bar: nat, callee: string, more: Spelleds, bare: bool) {
    && BarAt(source, bar) && QuotedAt(source, bar + 5, callee) && TailAt(source, bar + 5 + QuotedWidth(callee), more, bare)
    && NoOpenNext(source, bar + 5 + QuotedWidth(callee) + TailWidth(more, bare))
  }

  lemma {:induction false} PipeGoesOn(source: string, bar: nat, nodes: nat, depth: nat, left: Expression, callee: string,
                                      more: Spelleds, bare: bool, call: Expression, end: nat, counted: nat,
                                      alphanumeric: set<char>, out: Parse<Expression>)
    ensures PipeAt(source, bar, callee, more, bare) && !Blank(callee) && AllFit(Meanings(more), nodes + 1, depth + 1)
            && call == Call(callee, [left] + Meanings(more)) && Depth(call) <= MAX_DEPTH
            && end == SkipSpace(source, bar + 5 + QuotedWidth(callee) + TailWidth(more, bare))
            && counted == nodes + 1 + SizeAll(Meanings(more))
            && out == Pipeline(source, call, end, counted, depth, alphanumeric) ==>
              Pipeline(source, left, bar + 1, nodes, depth, alphanumeric) == out
    decreases ClosedWidth(more), 10
  {
    if PipeAt(source, bar, callee, more, bare) && !Blank(callee) && AllFit(Meanings(more), nodes + 1, depth + 1)
       && call == Call(callee, [left] + Meanings(more)) && Depth(call) <= MAX_DEPTH
       && end == SkipSpace(source, bar + 5 + QuotedWidth(callee) + TailWidth(more, bare))
       && counted == nodes + 1 + SizeAll(Meanings(more))
       && out == Pipeline(source, call, end, counted, depth, alphanumeric) {
      var last := TailReads(source, bar + 5 + QuotedWidth(callee), nodes + 1, depth, more, bare, alphanumeric);
      PipedStep(source, bar, left, nodes, depth, callee, Meanings(more), last, counted, alphanumeric, out);
    }
  }

  lemma {:induction false} TailReads(source: string, i: nat, nodes: nat, depth: nat, more: Spelleds, bare: bool,
                                     alphanumeric: set<char>)
    returns (end: nat)
    ensures TailAt(source, i, more, bare) && NoOpenNext(source, i + TailWidth(more, bare))
            && AllFit(Meanings(more), nodes, depth + 1) ==>
              && i <= |source| && end <= |source| && SkipSpace(source, end) == SkipSpace(source, i + TailWidth(more, bare))
              && Gives(OptionalArguments(source, i, nodes, depth, alphanumeric),
                       Meanings(more), end, nodes + SizeAll(Meanings(more)))
    decreases ClosedWidth(more), 9
  {
    end := i + TailWidth(more, bare);
    if TailAt(source, i, more, bare) && NoOpenNext(source, end) && AllFit(Meanings(more), nodes, depth + 1) {
      if bare && more.Nil? {
        end := SkipSpace(source, i);
        NoTail(source, i, nodes, depth, alphanumeric);
      } else {
        ArgumentsRead(source, i + 1, nodes, depth, more, alphanumeric);
        OpenTail(source, i, nodes, depth, Meanings(more), end, nodes + SizeAll(Meanings(more)), alphanumeric);
      }
    }
  }

  lemma NoTail(source: string, i: nat, nodes: nat, depth: nat, alphanumeric: set<char>)
    requires i <= |source| && NoOpenNext(source, i) && nodes <= MAX_NODES
    ensures Gives(OptionalArguments(source, i, nodes, depth, alphanumeric), [], SkipSpace(source, i), nodes)
    ensures SkipSpace(source, SkipSpace(source, i)) == SkipSpace(source, i)
  {}

  lemma OpenTail(source: string, i: nat, nodes: nat, depth: nat, arguments: seq<Expression>, end: nat, counted: nat,
                 alphanumeric: set<char>)
    requires Peek(source, i, '(') && nodes <= MAX_NODES
    requires Gives(Arguments(source, i + 1, nodes, depth, alphanumeric), arguments, end, counted)
    ensures Gives(OptionalArguments(source, i, nodes, depth, alphanumeric), arguments, end, counted)
  {
    PeekStarts(source, i, '(');
  }

  lemma {:induction false} Head(source: string, i: nat, sp: Spelled)
    requires WrittenAt(source, i, sp)
    ensures HeadAt(source, i)
    decreases sp
  {
    if sp.Pipe? { Head(source, i, sp.left); }
  }

  // The lemmas about the parts of a spelling ask for nothing: what they need stands before the arrow.

  /** An argument ends at its comma or parenthesis, so no pipe goes on from it. */
  lemma {:induction false} ArgumentReads(source: string, i: nat, nodes: nat, depth: nat, sp: Spelled, alphanumeric: set<char>)
    ensures WrittenAt(source, i, sp) && Fits(Meaning(sp), nodes, depth)
            && (Peek(source, i + Width(sp), ',') || Peek(source, i + Width(sp), ')')) ==>
              HeadAt(source, i)
              && Gives(ExpressionAt(source, i, nodes, depth, alphanumeric), Meaning(sp), i + Width(sp), nodes + Size(Meaning(sp)))
    decreases Width(sp), 6
  {
    var end := i + Width(sp);
    if WrittenAt(source, i, sp) && Fits(Meaning(sp), nodes, depth) && (Peek(source, end, ',') || Peek(source, end, ')')) {
      assert SkipSpace(source, end) == end;
      Head(source, i, sp);
      ExpressionReads(source, i, nodes, depth, sp, alphanumeric,
                      Pipeline(source, Meaning(sp), end, nodes + Size(Meaning(sp)), depth, alphanumeric));
    }
  }

  lemma {:induction false} LeftReads(source: string, i: nat, nodes: nat, depth: nat, sp: Spelled, left: Expression,
                                     after: nat, between: nat, alphanumeric: set<char>,
                                     got: Parse<Expression>, out: Parse<Expression>)
    ensures WrittenAt(source, i, sp) && Fits(Meaning(sp), nodes, depth) && BarAt(source, i + Width(sp))
            && left == Meaning(sp) && after == i + Width(sp) + 1 && between == nodes + Size(Meaning(sp))
            && got == ExpressionAt(source, i, nodes, depth, alphanumeric)
            && out == Pipeline(source, left, after, between, depth, alphanumeric) ==>
              got == out
    decreases Width(sp), 6
  {
    if WrittenAt(source, i, sp) && Fits(Meaning(sp), nodes, depth) && BarAt(source, i + Width(sp))
       && left == Meaning(sp) && after == i + Width(sp) + 1 && between == nodes + Size(Meaning(sp))
       && got == ExpressionAt(source, i, nodes, depth, alphanumeric)
       && out == Pipeline(source, left, after, between, depth, alphanumeric) {
      BarStarts(source, i + Width(sp));
      ExpressionReads(source, i, nodes, depth, sp, alphanumeric, out);
    }
  }

  lemma {:induction false} ArgumentsRead(source: string, i: nat, nodes: nat, depth: nat, sps: Spelleds,
                                         alphanumeric: set<char>)
    ensures ClosedAt(source, i, sps) && AllFit(Meanings(sps), nodes, depth + 1) ==>
              i + ClosedWidth(sps) <= |source|
              && Gives(Arguments(source, i, nodes, depth, alphanumeric),
                       Meanings(sps), i + ClosedWidth(sps), nodes + SizeAll(Meanings(sps)))
    decreases ClosedWidth(sps), 8
  {
    if ClosedAt(source, i, sps) && AllFit(Meanings(sps), nodes, depth + 1) {
      if sps.Nil? {
        PeekStarts(source, i, ')');
      } else {
        ListReads(source, i, nodes, depth, [], sps, alphanumeric);
        FirstStep(source, i, nodes, depth, alphanumeric);
        assert [] + Meanings(sps) == Meanings(sps);
      }
    }
  }

  lemma {:induction false} ListReads(source: string, i: nat, nodes: nat, depth: nat, before: seq<Expression>,
                                     sps: Spelleds, alphanumeric: set<char>)
    requires sps.Cons? && ClosedAt(source, i, sps) && AllFit(Meanings(sps), nodes, depth + 1)
    ensures HeadAt(source, i) && i + ClosedWidth(sps) <= |source|
    ensures Gives(ArgumentList(source, before, i, nodes, depth, alphanumeric),
                  before + Meanings(sps), i + ClosedWidth(sps), nodes + SizeAll(Meanings(sps)))
    decreases ClosedWidth(sps), 7
  {
    var first, counted := Meaning(sps.head), nodes + Size(Meaning(sps.head));
    ListFits(sps, nodes, depth + 1);
    ArgumentReads(source, i, nodes, depth + 1, sps.head, alphanumeric);
    if sps.tail.Nil? {
      LastStep(source, i, before, nodes, depth, first, i + Width(sps.head), counted, alphanumeric);
      assert before + [first] == before + Meanings(sps);
    } else {
      var after := i + Width(sps.head) + 1;
      var rest := ArgumentList(source, before + [first], after, counted, depth, alphanumeric);
      ListReads(source, after, counted, depth, before + [first], sps.tail, alphanumeric);
      assert (before + [first]) + Meanings(sps.tail) == before + Meanings(sps);
      CommaStep(source, i, before, nodes, depth, first, i + Width(sps.head), counted, alphanumeric, rest);
    }
  }
}
