/**
 Ways to write an expression down: the text itself, the same layout position by position, and the
 proof that the text has that layout. Names and literals are always quoted; calls may be nested or
 piped.
*/
module Spelling {
  import opened ReferenceGrammar

  /** A tree as a writer may spell it: each call nested, or piped, or piped without parentheses. */
  datatype Spelled =
    | Refer(name: string)
    | Say(text: string)
    | Nest(callee: string, arguments: Spelleds)
    | Pipe(left: Spelled, callee: string, more: Spelleds, bare: bool)
    | Seek(source: Spelled, query: Spelled)
    | Tally(source: Spelled)

  datatype Spelleds = Nil | Cons(head: Spelled, tail: Spelleds)

  function Meaning(sp: Spelled): Expression
    decreases sp
  {
    match sp
    case Refer(name) => Reference(name)
    case Say(text) => Literal(text)
    case Nest(callee, arguments) => Call(callee, Meanings(arguments))
    case Pipe(left, callee, more, _) => Call(callee, [Meaning(left)] + Meanings(more))
    case Seek(source, query) => Find(Meaning(source), Meaning(query))
    case Tally(source) => Count(Meaning(source))
  }

  function Meanings(sps: Spelleds): seq<Expression>
    decreases sps
  {
    if sps.Nil? then [] else [Meaning(sps.head)] + Meanings(sps.tail)
  }

  function EscapeOne(c: char): string {
    match c
    case '\"' => "\\\""
    case '\\' => "\\\\"
    case '\n' => "\\n"
    case '\r' => "\\r"
    case c => [c]
  }

  function Escape(text: string): string {
    if text == [] then "" else EscapeOne(text[0]) + Escape(text[1..])
  }

  function Quote(text: string): string {
    "\"" + (Escape(text) + "\"")
  }

  function Render(sp: Spelled): string
    decreases sp
  {
    match sp
    case Refer(name) => "@" + Quote(name)
    case Say(text) => Quote(text)
    case Nest(callee, arguments) => "@" + (Quote(callee) + ("(" + RenderClosed(arguments)))
    case Pipe(left, callee, more, bare) =>
      Render(left) + (" |> @" + (Quote(callee) + RenderTail(more, bare)))
    case Seek(source, query) => "find(" + (Render(source) + ("," + (Render(query) + ")")))
    case Tally(source) => "count(" + (Render(source) + ")")
  }

  /** Arguments between commas, up to and with the closing parenthesis. */
  function RenderClosed(sps: Spelleds): string
    decreases sps, 0
  {
    if sps.Nil? then ")"
    else Render(sps.head) + if sps.tail.Nil? then ")" else "," + RenderClosed(sps.tail)
  }

  function RenderTail(more: Spelleds, bare: bool): string
    decreases more, 1
  {
    if bare && more.Nil? then "" else "(" + RenderClosed(more)
  }

  // ---------- The same layout, position by position ----------

  predicate Peek(source: string, i: nat, c: char) {
    i < |source| && source[i] == c
  }

  predicate NeedsEscape(c: char) {
    c == '\"' || c == '\\' || c == '\n' || c == '\r'
  }

  function EscapeMark(c: char): char
    requires NeedsEscape(c)
  {
    if c == '\n' then 'n' else if c == '\r' then 'r' else c
  }

  function EscapedWidth(text: string): nat {
    if text == [] then 0 else (if NeedsEscape(text[0]) then 2 else 1) + EscapedWidth(text[1..])
  }

  /** From `i` on stand the escaped `text` and a closing quote. */
  ghost predicate EscapedAt(source: string, i: nat, text: string)
    decreases |text|
  {
    if text == [] then Peek(source, i, '\"')
    else if NeedsEscape(text[0]) then
      Peek(source, i, '\\') && Peek(source, i + 1, EscapeMark(text[0])) && EscapedAt(source, i + 2, text[1..])
    else Peek(source, i, text[0]) && EscapedAt(source, i + 1, text[1..])
  }

  ghost predicate QuotedAt(source: string, i: nat, text: string) {
    Peek(source, i, '\"') && EscapedAt(source, i + 1, text)
  }

  function QuotedWidth(text: string): nat {
    EscapedWidth(text) + 2
  }

  function Width(sp: Spelled): (w: nat)
    ensures w > 0
    decreases sp
  {
    match sp
    case Refer(name) => 1 + QuotedWidth(name)
    case Say(text) => QuotedWidth(text)
    case Nest(callee, arguments) => 1 + QuotedWidth(callee) + 1 + ClosedWidth(arguments)
    case Pipe(left, callee, more, bare) => Width(left) + 5 + QuotedWidth(callee) + TailWidth(more, bare)
    case Seek(source, query) => 5 + Width(source) + 1 + Width(query) + 1
    case Tally(source) => 6 + Width(source) + 1
  }

  function ClosedWidth(sps: Spelleds): (w: nat)
    ensures w > 0
    decreases sps, 0
  {
    if sps.Nil? then 1 else Width(sps.head) + if sps.tail.Nil? then 1 else 1 + ClosedWidth(sps.tail)
  }

  function TailWidth(more: Spelleds, bare: bool): (w: nat)
    ensures w + 1 >= ClosedWidth(more)
    decreases more, 1
  {
    if bare && more.Nil? then 0 else 1 + ClosedWidth(more)
  }

  ghost predicate BarAt(source: string, i: nat) {
    Peek(source, i, ' ') && Peek(source, i + 1, '|') && Peek(source, i + 2, '>') && Peek(source, i + 3, ' ') && Peek(source, i + 4, '@')
  }

  ghost predicate FindAt(source: string, i: nat) {
    Peek(source, i, 'f') && Peek(source, i + 1, 'i') && Peek(source, i + 2, 'n') && Peek(source, i + 3, 'd') && Peek(source, i + 4, '(')
  }

  ghost predicate CountAt(source: string, i: nat) {
    && Peek(source, i, 'c') && Peek(source, i + 1, 'o') && Peek(source, i + 2, 'u') && Peek(source, i + 3, 'n')
    && Peek(source, i + 4, 't') && Peek(source, i + 5, '(')
  }

  ghost predicate WrittenAt(source: string, i: nat, sp: Spelled)
    decreases sp
  {
    match sp
    case Refer(name) => Peek(source, i, '@') && QuotedAt(source, i + 1, name)
    case Say(text) => QuotedAt(source, i, text)
    case Nest(callee, arguments) =>
      && Peek(source, i, '@') && QuotedAt(source, i + 1, callee)
      && Peek(source, i + 1 + QuotedWidth(callee), '(') && ClosedAt(source, i + 2 + QuotedWidth(callee), arguments)
    case Pipe(left, callee, more, bare) =>
      var bar := i + Width(left);
      && WrittenAt(source, i, left) && BarAt(source, bar) && QuotedAt(source, bar + 5, callee)
      && TailAt(source, bar + 5 + QuotedWidth(callee), more, bare)
    case Seek(from, query) =>
      var comma := i + 5 + Width(from);
      && FindAt(source, i) && WrittenAt(source, i + 5, from) && Peek(source, comma, ',')
      && WrittenAt(source, comma + 1, query) && Peek(source, comma + 1 + Width(query), ')')
    case Tally(from) =>
      CountAt(source, i) && WrittenAt(source, i + 6, from) && Peek(source, i + 6 + Width(from), ')')
  }

  ghost predicate ClosedAt(source: string, i: nat, sps: Spelleds)
    decreases sps, 0
  {
    if sps.Nil? then Peek(source, i, ')')
    else
      var after := i + Width(sps.head);
      && WrittenAt(source, i, sps.head)
      && if sps.tail.Nil? then Peek(source, after, ')') else Peek(source, after, ',') && ClosedAt(source, after + 1, sps.tail)
  }

  ghost predicate TailAt(source: string, i: nat, more: Spelleds, bare: bool)
    decreases more, 1
  {
    (bare && more.Nil?) || (Peek(source, i, '(') && ClosedAt(source, i + 1, more))
  }

  // ---------- Rendering produces that layout ----------

  ghost predicate At(source: string, i: nat, text: string) {
    i + |text| <= |source| && forall k {:trigger text[k]} | 0 <= k < |text| :: source[i + k] == text[k]
  }

  lemma Split(source: string, i: nat, a: string, b: string)
    requires At(source, i, a + b)
    ensures At(source, i, a) && At(source, i + |a|, b)
  {
    forall k | 0 <= k < |a| ensures source[i + k] == a[k] { assert (a + b)[k] == a[k]; }
    forall k | 0 <= k < |b| ensures source[i + |a| + k] == b[k] { assert (a + b)[|a| + k] == b[k]; }
  }

  lemma AtPeek(source: string, i: nat, text: string, k: nat)
    requires At(source, i, text) && k < |text|
    ensures Peek(source, i + k, text[k])
  {}

  lemma {:induction false} EscapeWritten(source: string, i: nat, text: string)
    requires At(source, i, Escape(text) + "\"")
    ensures |Escape(text)| == EscapedWidth(text) && EscapedAt(source, i, text)
    decreases |text|
  {
    if text == [] {
      AtPeek(source, i, Escape(text) + "\"", 0);
    } else {
      var front := EscapeOne(text[0]);
      assert Escape(text) + "\"" == front + (Escape(text[1..]) + "\"");
      Split(source, i, front, Escape(text[1..]) + "\"");
      AtPeek(source, i, front, 0);
      if NeedsEscape(text[0]) { AtPeek(source, i, front, 1); }
      EscapeWritten(source, i + |front|, text[1..]);
    }
  }

  lemma QuoteWritten(source: string, i: nat, text: string, rest: string)
    requires At(source, i, Quote(text) + rest)
    ensures |Quote(text)| == QuotedWidth(text) && QuotedAt(source, i, text) && At(source, i + QuotedWidth(text), rest)
  {
    Split(source, i, Quote(text), rest);
    Split(source, i, "\"", Escape(text) + "\"");
    AtPeek(source, i, "\"", 0);
    EscapeWritten(source, i + 1, text);
  }

  lemma {:induction false} RenderWritten(source: string, i: nat, sp: Spelled, rest: string)
    requires At(source, i, Render(sp) + rest)
    ensures |Render(sp)| == Width(sp) && WrittenAt(source, i, sp) && At(source, i + Width(sp), rest)
    decreases Width(sp), 2
  {
    Split(source, i, Render(sp), rest);
    AloneWritten(source, i, sp);
  }

  lemma {:induction false} AloneWritten(source: string, i: nat, sp: Spelled)
    requires At(source, i, Render(sp))
    ensures |Render(sp)| == Width(sp) && WrittenAt(source, i, sp)
    decreases Width(sp), 1
  {
    match sp
    case Refer(name) => ReferWritten(source, i, name);
    case Say(text) => SayWritten(source, i, text);
    case Nest(_, _) => NestAlone(source, i, sp);
    case Pipe(_, _, _, _) => PipeAlone(source, i, sp);
    case Seek(_, _) => SeekAlone(source, i, sp);
    case Tally(_) => TallyAlone(source, i, sp);
  }

  lemma {:induction false} NestAlone(source: string, i: nat, sp: Spelled)
    requires sp.Nest? && At(source, i, Render(sp))
    ensures |Render(sp)| == Width(sp) && WrittenAt(source, i, sp)
    decreases Width(sp), 0
  {
    NestWritten(source, i, sp.callee, sp.arguments);
  }

  lemma {:induction false} PipeAlone(source: string, i: nat, sp: Spelled)
    requires sp.Pipe? && At(source, i, Render(sp))
    ensures |Render(sp)| == Width(sp) && WrittenAt(source, i, sp)
    decreases Width(sp), 0
  {
    PipeWritten(source, i, sp.left, sp.callee, sp.more, sp.bare);
  }

  lemma {:induction false} SeekAlone(source: string, i: nat, sp: Spelled)
    requires sp.Seek? && At(source, i, Render(sp))
    ensures |Render(sp)| == Width(sp) && WrittenAt(source, i, sp)
    decreases Width(sp), 0
  {
    SeekWritten(source, i, sp.source, sp.query);
    SeekLength(sp.source, sp.query);
  }

  lemma SeekLength(from: Spelled, query: Spelled)
    requires |Render(from)| == Width(from) && |Render(query)| == Width(query)
    ensures |Render(Seek(from, query))| == Width(Seek(from, query))
  {}

  lemma {:induction false} TallyAlone(source: string, i: nat, sp: Spelled)
    requires sp.Tally? && At(source, i, Render(sp))
    ensures |Render(sp)| == Width(sp) && WrittenAt(source, i, sp)
    decreases Width(sp), 0
  {
    TallyWritten(source, i, sp.source);
  }

  lemma SayWritten(source: string, i: nat, text: string)
    requires At(source, i, Quote(text))
    ensures |Quote(text)| == QuotedWidth(text) && QuotedAt(source, i, text)
  {
    assert Quote(text) + "" == Quote(text);
    QuoteWritten(source, i, text, "");
  }

  lemma ReferWritten(source: string, i: nat, name: string)
    requires At(source, i, "@" + Quote(name))
    ensures |Quote(name)| == QuotedWidth(name) && Peek(source, i, '@') && QuotedAt(source, i + 1, name)
  {
    Split(source, i, "@", Quote(name));
    AtPeek(source, i, "@", 0);
    SayWritten(source, i + 1, name);
  }

  lemma {:induction false} SeekWritten(source: string, i: nat, from: Spelled, query: Spelled)
    requires At(source, i, "find(" + (Render(from) + ("," + (Render(query) + ")"))))
    ensures |Render(from)| == Width(from) && |Render(query)| == Width(query)
    ensures var comma := i + 5 + Width(from);
            && FindAt(source, i) && WrittenAt(source, i + 5, from) && Peek(source, comma, ',')
            && WrittenAt(source, comma + 1, query) && Peek(source, comma + 1 + Width(query), ')')
    decreases Width(from) + Width(query), 4
  {
    Split(source, i, "find(", Render(from) + ("," + (Render(query) + ")")));
    KeywordWritten(source, i);
    CommaWritten(source, i + 5, from, Render(query) + ")");
    CloseWritten(source, i + 5 + Width(from) + 1, query);
  }

  lemma {:induction false} CloseWritten(source: string, i: nat, sp: Spelled)
    requires At(source, i, Render(sp) + ")")
    ensures |Render(sp)| == Width(sp) && WrittenAt(source, i, sp) && Peek(source, i + Width(sp), ')')
    decreases Width(sp), 3
  {
    RenderWritten(source, i, sp, ")");
    AtPeek(source, i + Width(sp), ")", 0);
  }

  lemma {:induction false} TallyWritten(source: string, i: nat, from: Spelled)
    requires At(source, i, "count(" + (Render(from) + ")"))
    ensures |Render(from)| == Width(from)
    ensures CountAt(source, i) && WrittenAt(source, i + 6, from) && Peek(source, i + 6 + Width(from), ')')
    decreases Width(from), 3
  {
    Split(source, i, "count(", Render(from) + ")");
    KeywordWritten(source, i);
    RenderWritten(source, i + 6, from, ")");
    AtPeek(source, i + 6 + Width(from), ")", 0);
  }

  lemma KeywordWritten(source: string, i: nat)
    ensures At(source, i, "find(") ==> FindAt(source, i)
    ensures At(source, i, "count(") ==> CountAt(source, i)
    ensures At(source, i, " |> @") ==> BarAt(source, i)
  {
    if At(source, i, "find(") {
      AtPeek(source, i, "find(", 0); AtPeek(source, i, "find(", 1); AtPeek(source, i, "find(", 2);
      AtPeek(source, i, "find(", 3); AtPeek(source, i, "find(", 4);
    }
    if At(source, i, "count(") {
      AtPeek(source, i, "count(", 0); AtPeek(source, i, "count(", 1); AtPeek(source, i, "count(", 2);
      AtPeek(source, i, "count(", 3); AtPeek(source, i, "count(", 4); AtPeek(source, i, "count(", 5);
    }
    if At(source, i, " |> @") {
      AtPeek(source, i, " |> @", 0); AtPeek(source, i, " |> @", 1); AtPeek(source, i, " |> @", 2);
      AtPeek(source, i, " |> @", 3); AtPeek(source, i, " |> @", 4);
    }
  }

  lemma {:induction false} NestWritten(source: string, i: nat, callee: string, arguments: Spelleds)
    requires At(source, i, "@" + (Quote(callee) + ("(" + RenderClosed(arguments))))
    ensures |Quote(callee)| == QuotedWidth(callee) && |RenderClosed(arguments)| == ClosedWidth(arguments)
    ensures Peek(source, i, '@') && QuotedAt(source, i + 1, callee)
    ensures Peek(source, i + 1 + QuotedWidth(callee), '(')
    ensures ClosedAt(source, i + 2 + QuotedWidth(callee), arguments)
    decreases ClosedWidth(arguments), 4
  {
    var open := i + 1 + QuotedWidth(callee);
    Split(source, i, "@", Quote(callee) + ("(" + RenderClosed(arguments)));
    AtPeek(source, i, "@", 0);
    QuoteWritten(source, i + 1, callee, "(" + RenderClosed(arguments));
    Split(source, open, "(", RenderClosed(arguments));
    AtPeek(source, open, "(", 0);
    ClosedWritten(source, open + 1, arguments);
  }

  lemma {:induction false} PipeWritten(source: string, i: nat, left: Spelled, callee: string, more: Spelleds, bare: bool)
    requires At(source, i, Render(left) + (" |> @" + (Quote(callee) + RenderTail(more, bare))))
    ensures |Render(left)| == Width(left) && |Quote(callee)| == QuotedWidth(callee)
    ensures |RenderTail(more, bare)| == TailWidth(more, bare)
    ensures var bar := i + Width(left);
            && WrittenAt(source, i, left) && BarAt(source, bar) && QuotedAt(source, bar + 5, callee)
            && TailAt(source, bar + 5 + QuotedWidth(callee), more, bare)
    decreases Width(left) + ClosedWidth(more), 6
  {
    RenderWritten(source, i, left, " |> @" + (Quote(callee) + RenderTail(more, bare)));
    BarWritten(source, i + Width(left), callee, more, bare);
  }

  lemma {:induction false} BarWritten(source: string, bar: nat, callee: string, more: Spelleds, bare: bool)
    requires At(source, bar, " |> @" + (Quote(callee) + RenderTail(more, bare)))
    ensures |Quote(callee)| == QuotedWidth(callee) && |RenderTail(more, bare)| == TailWidth(more, bare)
    ensures BarAt(source, bar) && QuotedAt(source, bar + 5, callee)
    ensures TailAt(source, bar + 5 + QuotedWidth(callee), more, bare)
    decreases ClosedWidth(more), 5
  {
    Split(source, bar, " |> @", Quote(callee) + RenderTail(more, bare));
    KeywordWritten(source, bar);
    QuoteWritten(source, bar + 5, callee, RenderTail(more, bare));
    TailWritten(source, bar + 5 + QuotedWidth(callee), more, bare);
  }

  lemma {:induction false} TailWritten(source: string, i: nat, more: Spelleds, bare: bool)
    requires At(source, i, RenderTail(more, bare))
    ensures |RenderTail(more, bare)| == TailWidth(more, bare) && TailAt(source, i, more, bare)
    decreases ClosedWidth(more), 4
  {
    if !(bare && more.Nil?) {
      Split(source, i, "(", RenderClosed(more));
      AtPeek(source, i, "(", 0);
      ClosedWritten(source, i + 1, more);
    }
  }

  lemma {:induction false} ClosedWritten(source: string, i: nat, sps: Spelleds)
    requires At(source, i, RenderClosed(sps))
    ensures |RenderClosed(sps)| == ClosedWidth(sps) && ClosedAt(source, i, sps)
    decreases ClosedWidth(sps), 3
  {
    if sps.Nil? {
      AtPeek(source, i, ")", 0);
    } else if sps.tail.Nil? {
      RenderWritten(source, i, sps.head, ")");
      AtPeek(source, i + Width(sps.head), ")", 0);
    } else {
      CommaWritten(source, i, sps.head, RenderClosed(sps.tail));
      ClosedWritten(source, i + Width(sps.head) + 1, sps.tail);
    }
  }

  lemma {:induction false} CommaWritten(source: string, i: nat, sp: Spelled, rest: string)
    requires At(source, i, Render(sp) + ("," + rest))
    ensures |Render(sp)| == Width(sp) && WrittenAt(source, i, sp)
    ensures Peek(source, i + Width(sp), ',') && At(source, i + Width(sp) + 1, rest)
    decreases Width(sp), 3
  {
    RenderWritten(source, i, sp, "," + rest);
    Split(source, i + Width(sp), ",", rest);
    AtPeek(source, i + Width(sp), ",", 0);
  }
}
