/**
 Matching brackets and parentheses of one line: what a plain forward search with a depth count
 finds, and the two stacks that find the same in one pass.
*/
module LinkDelimiters {
  import opened Wrappers

  /** Reading from `p`, `i` is reached as a character of its own, not as one that a backslash escapes. */
  predicate Live(source: string, p: nat, i: nat)
    requires i <= |source|
    decreases i - p
  {
    p == i || (p < i && Live(source, p + if source[p] == '\\' then 2 else 1, i))
  }

  /** A backslash is read together with the character it escapes. */
  function After(source: string, offset: nat): nat
    requires offset < |source|
  {
    offset + if source[offset] == '\\' then 2 else 1
  }

  /** Where the delimiter that is `depth` levels out from position `i` closes, looking forward. */
  function Closing(source: string, i: nat, end: nat, open: char, close: char, depth: nat): (j: Option<nat>)
    requires end <= |source|
    ensures j.Some? ==> i <= j.value < end && source[j.value] == close
    decreases if i < end then end - i else 0
  {
    if i >= end then None
    else if source[i] == '\\' then Closing(source, i + 2, end, open, close, depth)
    else if source[i] == open then Closing(source, i + 1, end, open, close, depth + 1)
    else if source[i] == close then
      if depth == 0 then Some(i) else Closing(source, i + 1, end, open, close, depth - 1)
    else Closing(source, i + 1, end, open, close, depth)
  }

  /** The partner of the delimiter at `i`, if it is one and has one. */
  function Matching(source: string, begin: nat, end: nat, i: nat): (j: Option<nat>)
    requires begin <= end <= |source|
    ensures j.Some? ==> i < j.value < end
  {
    if i >= end || !Live(source, begin, i) then None
    else if source[i] == '[' then Closing(source, i + 1, end, '[', ']', 0)
    else if source[i] == '(' then Closing(source, i + 1, end, '(', ')', 0)
    else None
  }

  ghost predicate IsMatching(source: string, begin: nat, end: nat, matches: map<nat, nat>)
    requires begin <= end <= |source|
  {
    forall i: nat :: Matching(source, begin, end, i) == if i in matches then Some(matches[i]) else None
  }

  /** The open delimiters of one kind, outermost first, each waiting for the close at its own depth. */
  ghost predicate Waiting(source: string, begin: nat, end: nat, offset: nat, stack: seq<nat>, open: char, close: char)
    requires begin <= end <= |source|
  {
    && (forall k | 0 <= k < |stack| :: begin <= stack[k] < offset && stack[k] < end && source[stack[k]] == open)
    && (forall k | 0 <= k < |stack| ::
          Closing(source, stack[k] + 1, end, open, close, 0) == Closing(source, offset, end, open, close, |stack| - 1 - k))
    && (forall k, l | 0 <= k < l < |stack| :: stack[k] < stack[l])
  }

  /** Every delimiter of one kind read so far is either waiting or matched. */
  ghost predicate Settled(source: string, begin: nat, end: nat, offset: nat, stack: seq<nat>, matches: map<nat, nat>,
                          open: char, close: char)
    requires begin <= end <= |source|
  {
    forall i {:trigger Live(source, begin, i)} | begin <= i < offset && i < end && Live(source, begin, i) && source[i] == open ::
      if i in stack then i !in matches
      else Closing(source, i + 1, end, open, close, 0) == if i in matches then Some(matches[i]) else None
  }

  ghost predicate Keys(source: string, begin: nat, end: nat, offset: nat, matches: map<nat, nat>)
    requires begin <= end <= |source|
  {
    forall i | i in matches ::
      begin <= i < offset && i < end && Live(source, begin, i) && (source[i] == '[' || source[i] == '(')
  }

  ghost predicate AllLive(source: string, begin: nat, end: nat, stack: seq<nat>)
    requires begin <= end <= |source|
  {
    forall k | 0 <= k < |stack| :: stack[k] < end && Live(source, begin, stack[k])
  }

  /** All of this for one kind of delimiter. */
  ghost predicate Side(source: string, begin: nat, end: nat, offset: nat, stack: seq<nat>, matches: map<nat, nat>,
                       open: char, close: char)
    requires begin <= end <= |source|
  {
    && Waiting(source, begin, end, offset, stack, open, close) && AllLive(source, begin, end, stack)
    && Settled(source, begin, end, offset, stack, matches, open, close)
    && begin <= offset && (offset < end ==> Live(source, begin, offset))
  }

  lemma {:induction false} LiveMovesOn(source: string, p: nat, i: nat)
    requires i < |source| && Live(source, p, i)
    ensures source[i] == '\\' && i + 2 <= |source| ==> Live(source, p, i + 2) && !Live(source, p, i + 1)
    ensures source[i] != '\\' ==> Live(source, p, i + 1)
    decreases i - p
  {
    if p < i { LiveMovesOn(source, p + if source[p] == '\\' then 2 else 1, i); }
  }

  /** The two tables say the same about every delimiter that does not open with `open`. */
  ghost predicate SameElsewhere(source: string, end: nat, matches: map<nat, nat>, known: map<nat, nat>, open: char)
    requires end <= |source|
  {
    forall i: nat {:trigger i in known} | i < end && source[i] != open ::
      (i in known <==> i in matches) && (i in matches ==> known[i] == matches[i])
  }

  /** Matching delimiters of the other kind changes nothing on this side. */
  lemma SideIgnores(source: string, begin: nat, end: nat, offset: nat, stack: seq<nat>, matches: map<nat, nat>,
                    known: map<nat, nat>, open: char, close: char, other: char)
    requires begin <= end <= |source| && Side(source, begin, end, offset, stack, matches, open, close)
    requires open != other && SameElsewhere(source, end, matches, known, other)
    ensures Side(source, begin, end, offset, stack, known, open, close)
  {
    forall i | begin <= i < offset && i < end && Live(source, begin, i) && source[i] == open
      ensures if i in stack then i !in known
              else Closing(source, i + 1, end, open, close, 0) == if i in known then Some(known[i]) else None
    {
      assert i in known <==> i in matches;
    }
  }

  lemma SidePasses(source: string, begin: nat, end: nat, offset: nat, stack: seq<nat>, matches: map<nat, nat>,
                   open: char, close: char)
    requires begin <= offset < end <= |source| && Side(source, begin, end, offset, stack, matches, open, close)
    requires source[offset] != open && source[offset] != close && open != '\\' && close != '\\'
    ensures Side(source, begin, end, After(source, offset), stack, matches, open, close)
  {
    LiveMovesOn(source, begin, offset);
    var next := After(source, offset);
    forall i | begin <= i < next && i < end && Live(source, begin, i) && source[i] == open ensures i < offset {}
  }

  lemma WaitingOpens(source: string, begin: nat, end: nat, offset: nat, stack: seq<nat>, open: char, close: char)
    requires begin <= offset < end <= |source| && Waiting(source, begin, end, offset, stack, open, close)
    requires source[offset] == open && open != '\\' && open != close
    ensures Waiting(source, begin, end, offset + 1, stack + [offset], open, close)
  {
    var all := stack + [offset];
    forall k | 0 <= k < |all|
      ensures Closing(source, all[k] + 1, end, open, close, 0) == Closing(source, offset + 1, end, open, close, |all| - 1 - k)
    {
      if k < |stack| { assert all[k] == stack[k]; }
    }
  }

  lemma SideOpens(source: string, begin: nat, end: nat, offset: nat, stack: seq<nat>, matches: map<nat, nat>,
                  open: char, close: char)
    requires begin <= offset < end <= |source| && Side(source, begin, end, offset, stack, matches, open, close)
    requires source[offset] == open && open != '\\' && open != close && offset !in matches
    ensures Side(source, begin, end, After(source, offset), stack + [offset], matches, open, close)
  {
    LiveMovesOn(source, begin, offset);
    WaitingOpens(source, begin, end, offset, stack, open, close);
    assert forall i :: i in stack + [offset] <==> i in stack || i == offset;
  }

  lemma WaitingCloses(source: string, begin: nat, end: nat, offset: nat, stack: seq<nat>, open: char, close: char)
    requires begin <= offset < end <= |source| && Waiting(source, begin, end, offset, stack, open, close)
    requires source[offset] == close && close != '\\' && open != close && stack != []
    ensures Waiting(source, begin, end, offset + 1, stack[..|stack| - 1], open, close)
    ensures Closing(source, stack[|stack| - 1] + 1, end, open, close, 0) == Some(offset)
  {}

  lemma SideCloses(source: string, begin: nat, end: nat, offset: nat, stack: seq<nat>, matches: map<nat, nat>,
                   open: char, close: char)
    requires begin <= offset < end <= |source| && Side(source, begin, end, offset, stack, matches, open, close)
    requires source[offset] == close && close != '\\' && open != close && stack != []
    ensures Side(source, begin, end, After(source, offset), stack[..|stack| - 1], matches[stack[|stack| - 1] := offset], open, close)
  {
    LiveMovesOn(source, begin, offset);
    WaitingCloses(source, begin, end, offset, stack, open, close);
    SettledCloses(source, begin, end, offset, stack, matches, open, close);
  }

  lemma SettledCloses(source: string, begin: nat, end: nat, offset: nat, stack: seq<nat>, matches: map<nat, nat>,
                      open: char, close: char)
    requires begin <= offset < end <= |source| && source[offset] == close && open != close && stack != []
    requires Settled(source, begin, end, offset, stack, matches, open, close)
    requires forall k, l | 0 <= k < l < |stack| :: stack[k] < stack[l]
    requires Closing(source, stack[|stack| - 1] + 1, end, open, close, 0) == Some(offset)
    ensures Settled(source, begin, end, offset + 1, stack[..|stack| - 1], matches[stack[|stack| - 1] := offset], open, close)
  {
    var rest, top := stack[..|stack| - 1], stack[|stack| - 1];
    assert stack == rest + [top];
    assert top !in rest by { assert forall k | 0 <= k < |rest| :: rest[k] == stack[k] < top; }
    assert forall i :: i in stack <==> i in rest || i == top;
  }

  lemma SideClosesNothing(source: string, begin: nat, end: nat, offset: nat, matches: map<nat, nat>, open: char, close: char)
    requires begin <= offset < end <= |source| && Side(source, begin, end, offset, [], matches, open, close)
    requires source[offset] == close && close != '\\' && open != close
    ensures Side(source, begin, end, After(source, offset), [], matches, open, close)
  {
    LiveMovesOn(source, begin, offset);
  }

  lemma MatchIsKept(source: string, begin: nat, end: nat, offset: nat, stack: seq<nat>, matches: map<nat, nat>,
                    open: char, close: char)
    requires begin <= offset < end <= |source| && Side(source, begin, end, offset, stack, matches, open, close)
    requires stack != [] && (open == '[' || open == '(') && Keys(source, begin, end, offset, matches)
    ensures var known := matches[stack[|stack| - 1] := offset];
            Keys(source, begin, end, offset, known) && SameElsewhere(source, end, matches, known, open)
  {
    assert Live(source, begin, stack[|stack| - 1]) && source[stack[|stack| - 1]] == open;
  }

  /** One character, for one kind of delimiter. */
  method Track(source: string, begin: nat, end: nat, offset: nat, stack: seq<nat>, matches: map<nat, nat>,
               open: char, close: char) returns (after: seq<nat>, known: map<nat, nat>)
    requires begin <= offset < end <= |source| && Side(source, begin, end, offset, stack, matches, open, close)
    requires open != '\\' && close != '\\' && open != close && (open == '[' || open == '(')
    requires Keys(source, begin, end, offset, matches)
    ensures Side(source, begin, end, After(source, offset), after, known, open, close)
    ensures Keys(source, begin, end, offset, known) && SameElsewhere(source, end, matches, known, open)
  {
    if source[offset] == open {
      SideOpens(source, begin, end, offset, stack, matches, open, close);
      return stack + [offset], matches;
    } else if source[offset] == close && stack != [] {
      SideCloses(source, begin, end, offset, stack, matches, open, close);
      MatchIsKept(source, begin, end, offset, stack, matches, open, close);
      return stack[..|stack| - 1], matches[stack[|stack| - 1] := offset];
    } else if source[offset] == close {
      SideClosesNothing(source, begin, end, offset, matches, open, close);
      return stack, matches;
    } else {
      SidePasses(source, begin, end, offset, stack, matches, open, close);
      return stack, matches;
    }
  }

  /** At the end of the line, what still waits has no partner. */
  lemma SideEnds(source: string, begin: nat, end: nat, offset: nat, stack: seq<nat>, matches: map<nat, nat>,
                 open: char, close: char, i: nat)
    requires begin <= end <= offset && end <= |source| && Side(source, begin, end, offset, stack, matches, open, close)
    requires begin <= i < end && Live(source, begin, i) && source[i] == open
    ensures Closing(source, i + 1, end, open, close, 0) == if i in matches then Some(matches[i]) else None
  {
    if i in stack {
      var k :| 0 <= k < |stack| && stack[k] == i;
      assert Closing(source, i + 1, end, open, close, 0) == Closing(source, offset, end, open, close, |stack| - 1 - k);
    }
  }

  lemma {:induction false} LiveIsAhead(source: string, p: nat, i: nat)
    requires i <= |source| && Live(source, p, i)
    ensures p <= i
  {}

  lemma TableIsMatching(source: string, begin: nat, end: nat, offset: nat, brackets: seq<nat>, parentheses: seq<nat>,
                        matches: map<nat, nat>)
    requires begin <= end <= offset && end <= |source| && Keys(source, begin, end, offset, matches)
    requires Side(source, begin, end, offset, brackets, matches, '[', ']')
    requires Side(source, begin, end, offset, parentheses, matches, '(', ')')
    ensures IsMatching(source, begin, end, matches)
  {
    forall i: nat ensures Matching(source, begin, end, i) == if i in matches then Some(matches[i]) else None {
      if i < end && Live(source, begin, i) {
        LiveIsAhead(source, begin, i);
        if source[i] == '[' { SideEnds(source, begin, end, offset, brackets, matches, '[', ']', i); }
        if source[i] == '(' { SideEnds(source, begin, end, offset, parentheses, matches, '(', ')', i); }
      }
    }
  }

  /** The table that two stacks fill in one pass is the plain forward search for every delimiter. */
  method MatchingLinkDelimiters(source: string, begin: nat, end: nat) returns (matches: map<nat, nat>)
    requires begin <= end <= |source|
    ensures IsMatching(source, begin, end, matches)
  {
    var brackets: seq<nat>, parentheses: seq<nat> := [], [];
    matches := map[];
    var offset := begin;
    while offset < end
      invariant Keys(source, begin, end, offset, matches)
      invariant Side(source, begin, end, offset, brackets, matches, '[', ']')
      invariant Side(source, begin, end, offset, parentheses, matches, '(', ')')
    {
      ghost var before := matches;
      ghost var next := After(source, offset);
      brackets, matches := Track(source, begin, end, offset, brackets, matches, '[', ']');
      SideIgnores(source, begin, end, offset, parentheses, before, matches, '(', ')', '[');
      before := matches;
      parentheses, matches := Track(source, begin, end, offset, parentheses, matches, '(', ')');
      SideIgnores(source, begin, end, next, brackets, before, matches, '[', ']', '(');
      offset := After(source, offset);
    }
    TableIsMatching(source, begin, end, offset, brackets, parentheses, matches);
  }
}