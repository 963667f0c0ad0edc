/** Mentions in prose, and the edit that accepts a completion. */
module Mentions {
  import opened Wrappers
  import opened Unicode
  import opened ReferenceGrammar
  import opened TickRuns
  import opened Participants

  datatype Mention = Mention(handle: string, start: nat, end: nat)

  /** What a scan has found, and the width of the code span it is in. */
  datatype Found = Found(mentions: seq<Mention>, ticks: nat)

  function WordEnd(text: string, i: nat, end: nat): (j: nat)
    requires i <= end <= |text|
    ensures i <= j <= end
    ensures forall k | i <= k < j :: IsWordByte(text[k])
    ensures j < end ==> !IsWordByte(text[j])
    decreases end - i
  {
    if i < end && IsWordByte(text[i]) then WordEnd(text, i + 1, end) else i
  }

  /** What stands before an `@` that is no mention: part of a word, an address, a path or an escape. */
  predicate Glued(text: string, p: nat, alphanumeric: set<char>)
    requires p <= |text|
  {
    p > 0 && (text[p - 1] in alphanumeric || text[p - 1] in {'_', '.', '/', '+', '-', '@', '\\'})
  }

  function TicksAfter(ticks: nat, run: nat): nat {
    if ticks == 0 then run else if run == ticks then 0 else ticks
  }

  /** The scan of `text` from `i` up to `end`. */
  function ScanTo(text: string, i: nat, end: nat, ticks: nat, alphanumeric: set<char>): Found
    requires i <= end <= |text|
    decreases end - i
  {
    if i == end then Found([], ticks)
    else if text[i] == '`' then
      var stop := RunEnd(text, i, end);
      ScanTo(text, stop, end, TicksAfter(ticks, stop - i), alphanumeric)
    else if text[i] != '@' || ticks != 0 || Glued(text, i, alphanumeric) then ScanTo(text, i + 1, end, ticks, alphanumeric)
    else
      var stop := WordEnd(text, i + 1, end);
      var rest := ScanTo(text, stop, end, ticks, alphanumeric);
      if stop == i + 1 then rest
      else rest.(mentions := [Mention(Lowered(text[i + 1..stop]), i, stop)] + rest.mentions)
  }

  function MentionsOf(text: string, alphanumeric: set<char>): seq<Mention> {
    ScanTo(text, 0, |text|, 0, alphanumeric).mentions
  }

  method ScanMentions(text: string, alphanumeric: set<char>) returns (found: seq<Mention>)
    ensures found == MentionsOf(text, alphanumeric)
  {
    found := [];
    var codeTicks, i := 0, 0;
    while i < |text|
      invariant i <= |text|
      invariant MentionsOf(text, alphanumeric) == found + ScanTo(text, i, |text|, codeTicks, alphanumeric).mentions
      decreases |text| - i
    {
      var start := i;
      if text[i] == '`' {
        while i < |text| && text[i] == '`'
          invariant start <= i <= |text| && RunEnd(text, i, |text|) == RunEnd(text, start, |text|)
        {
          i := i + 1;
        }
        codeTicks := TicksAfter(codeTicks, i - start);
        continue;
      }
      i := i + 1;
      if text[start] != '@' || codeTicks != 0 || Glued(text, start, alphanumeric) { continue; }
      while i < |text| && IsWordByte(text[i])
        invariant start < i <= |text| && WordEnd(text, i, |text|) == WordEnd(text, start + 1, |text|)
      {
        i := i + 1;
      }
      ghost var rest := ScanTo(text, i, |text|, codeTicks, alphanumeric).mentions;
      if i > start + 1 {
        var mention := Mention(Lowered(text[start + 1..i]), start, i);
        assert found + ([mention] + rest) == found + [mention] + rest;
        found := found + [mention];
      }
    }
    assert found + [] == found;
  }

  // ---------- Scans of a prefix ----------

  lemma {:induction false} RunEndAgrees(a: string, b: string, i: nat, end: nat)
    requires i <= end <= |a| && end <= |b| && forall k | 0 <= k < end :: a[k] == b[k]
    ensures RunEnd(a, i, end) == RunEnd(b, i, end)
    decreases end - i
  {
    if i < end { RunEndAgrees(a, b, i + 1, end); }
  }

  lemma {:induction false} WordEndAgrees(a: string, b: string, i: nat, end: nat)
    requires i <= end <= |a| && end <= |b| && forall k | 0 <= k < end :: a[k] == b[k]
    ensures WordEnd(a, i, end) == WordEnd(b, i, end)
    decreases end - i
  {
    if i < end { WordEndAgrees(a, b, i + 1, end); }
  }

  /** A scan up to `end` depends on nothing beyond `end`. */
  lemma {:induction false} ScanAgrees(a: string, b: string, i: nat, end: nat, ticks: nat, alphanumeric: set<char>)
    requires i <= end <= |a| && end <= |b| && forall k | 0 <= k < end :: a[k] == b[k]
    ensures ScanTo(a, i, end, ticks, alphanumeric) == ScanTo(b, i, end, ticks, alphanumeric)
    decreases end - i
  {
    if i < end {
      if a[i] == '`' {
        RunEndAgrees(a, b, i, end);
        ScanAgrees(a, b, RunEnd(a, i, end), end, TicksAfter(ticks, RunEnd(a, i, end) - i), alphanumeric);
      } else if a[i] != '@' || ticks != 0 || Glued(a, i, alphanumeric) {
        ScanAgrees(a, b, i + 1, end, ticks, alphanumeric);
      } else {
        var stop := WordEnd(a, i + 1, end);
        WordEndAgrees(a, b, i + 1, end);
        ScanAgrees(a, b, stop, end, ticks, alphanumeric);
        assert a[i + 1..stop] == b[i + 1..stop];
      }
    }
  }

  lemma {:induction false} RunEndShortened(text: string, i: nat, p: nat, end: nat)
    requires i <= p < end <= |text| && text[p] == '@'
    ensures RunEnd(text, i, end) == RunEnd(text, i, p) && WordEnd(text, i, end) == WordEnd(text, i, p)
    decreases p - i
  {
    if i < p { RunEndShortened(text, i + 1, p, end); }
  }

  /** A scan that passes an `@` is the scan up to it, and then the scan from it. */
  lemma {:induction false} ScanSplits(text: string, i: nat, p: nat, end: nat, ticks: nat, alphanumeric: set<char>)
    requires i <= p < end <= |text| && text[p] == '@'
    ensures var front := ScanTo(text, i, p, ticks, alphanumeric);
            var back := ScanTo(text, p, end, front.ticks, alphanumeric);
            ScanTo(text, i, end, ticks, alphanumeric) == Found(front.mentions + back.mentions, back.ticks)
    decreases p - i
  {
    if i == p {
      var back := ScanTo(text, p, end, ticks, alphanumeric);
      assert [] + back.mentions == back.mentions;
    } else {
      RunEndShortened(text, i, p, end);
      if text[i] == '`' {
        var stop := RunEnd(text, i, end);
        ScanSplits(text, stop, p, end, TicksAfter(ticks, stop - i), alphanumeric);
      } else if text[i] != '@' || ticks != 0 || Glued(text, i, alphanumeric) {
        ScanSplits(text, i + 1, p, end, ticks, alphanumeric);
      } else {
        RunEndShortened(text, i + 1, p, end);
        MentionSplits(text, i, p, end, ticks, alphanumeric);
      }
    }
  }

  lemma {:induction false} MentionSplits(text: string, i: nat, p: nat, end: nat, ticks: nat, alphanumeric: set<char>)
    requires i < p < end <= |text| && text[p] == '@' && text[i] == '@' && ticks == 0 && !Glued(text, i, alphanumeric)
    requires WordEnd(text, i + 1, end) == WordEnd(text, i + 1, p)
    ensures var front := ScanTo(text, i, p, ticks, alphanumeric);
            var back := ScanTo(text, p, end, front.ticks, alphanumeric);
            ScanTo(text, i, end, ticks, alphanumeric) == Found(front.mentions + back.mentions, back.ticks)
    decreases p - i, 0
  {
    var stop := WordEnd(text, i + 1, p);
    ScanSplits(text, stop, p, end, ticks, alphanumeric);
    var front := ScanTo(text, stop, p, ticks, alphanumeric);
    var back := ScanTo(text, p, end, front.ticks, alphanumeric);
    if stop > i + 1 {
      var mention := Mention(Lowered(text[i + 1..stop]), i, stop);
      assert [mention] + (front.mentions + back.mentions) == ([mention] + front.mentions) + back.mentions;
    }
  }

  /** Mentions that lie between `i` and `end`, one after another. */
  ghost predicate Between(found: seq<Mention>, i: nat, end: nat) {
    && (forall k | 0 <= k < |found| :: i <= found[k].start < found[k].end <= end)
    && (forall k, l | 0 <= k < l < |found| :: found[k].end <= found[l].start)
  }

  lemma BetweenGrows(m: Mention, rest: seq<Mention>, i: nat, stop: nat, end: nat)
    requires Between(rest, stop, end) && i <= m.start < m.end <= stop <= end
    ensures Between([m] + rest, i, end)
  {
    var all := [m] + rest;
    forall k | 0 <= k < |all| ensures all[k] == (if k == 0 then m else rest[k - 1]) {}
  }

  lemma {:induction false} ScanStays(text: string, i: nat, end: nat, ticks: nat, alphanumeric: set<char>)
    requires i <= end <= |text|
    ensures Between(ScanTo(text, i, end, ticks, alphanumeric).mentions, i, end)
    decreases end - i
  {
    if i < end {
      if text[i] == '`' {
        var stop := RunEnd(text, i, end);
        ScanStays(text, stop, end, TicksAfter(ticks, stop - i), alphanumeric);
        assert ScanTo(text, i, end, ticks, alphanumeric) == ScanTo(text, stop, end, TicksAfter(ticks, stop - i), alphanumeric);
      } else if text[i] != '@' || ticks != 0 || Glued(text, i, alphanumeric) {
        ScanStays(text, i + 1, end, ticks, alphanumeric);
        assert ScanTo(text, i, end, ticks, alphanumeric) == ScanTo(text, i + 1, end, ticks, alphanumeric);
      } else {
        var stop := WordEnd(text, i + 1, end);
        ScanStays(text, stop, end, ticks, alphanumeric);
        var rest := ScanTo(text, stop, end, ticks, alphanumeric).mentions;
        assert ScanTo(text, i, end, ticks, alphanumeric).mentions
            == if stop == i + 1 then rest else [Mention(Lowered(text[i + 1..stop]), i, stop)] + rest;
        if stop > i + 1 { BetweenGrows(Mention(Lowered(text[i + 1..stop]), i, stop), rest, i, stop, end); }
      }
    }
  }

  /** In code, or glued to what stands before, an `@` starts no mention. */
  lemma SkippedAt(text: string, p: nat, end: nat, ticks: nat, alphanumeric: set<char>)
    requires p < end <= |text| && text[p] == '@' && (ticks != 0 || Glued(text, p, alphanumeric))
    ensures forall m | m in ScanTo(text, p, end, ticks, alphanumeric).mentions :: m.start != p
  {
    ScanStays(text, p + 1, end, ticks, alphanumeric);
    assert ScanTo(text, p, end, ticks, alphanumeric) == ScanTo(text, p + 1, end, ticks, alphanumeric);
  }

  // ---------- Completion ----------

  /** The last `@` before `p`. */
  function LastAt(text: string, p: nat): (r: Option<nat>)
    requires p <= |text|
    ensures r.Some? ==> r.value < p && text[r.value] == '@' && forall k | r.value < k < p :: text[k] != '@'
    ensures r.None? ==> forall k | 0 <= k < p :: text[k] != '@'
  {
    if p == 0 then None else if text[p - 1] == '@' then Some(p - 1) else LastAt(text, p - 1)
  }

  datatype MentionQuery = MentionQuery(prefix: string, start: nat, end: nat)

  /** The completion that is active at the caret, which may stand right behind a bare `@`. */
  function QueryAt(draft: string, caret: nat, alphanumeric: set<char>): Option<MentionQuery> {
    if caret > |draft| then None
    else
      var at := LastAt(draft, caret);
      if at.None? || WordEnd(draft, at.value + 1, caret) != caret then None
      else
        var probe := draft[..caret] + "x";
        if exists m :: m in MentionsOf(probe, alphanumeric) && m.start == at.value
        then Some(MentionQuery(draft[at.value + 1..caret], at.value, WordEnd(draft, caret, |draft|)))
        else None
  }

  datatype MentionEdit = MentionEdit(start: nat, end: nat, replacement: string, caret: nat)

  datatype MentionError = NotConfigured | NoActiveMention

  function EditFor(friends: set<string>, draft: string, caret: nat, alias: string, alphanumeric: set<char>)
    : Result<MentionEdit, MentionError>
  {
    if alias !in friends then Err(NotConfigured)
    else
      match QueryAt(draft, caret, alphanumeric)
      case None => Err(NoActiveMention)
      case Some(query) =>
        var spaced := query.end < |draft| && IsWhitespace(draft[query.end]);
        var replacement := "@" + alias + if spaced then "" else " ";
        Ok(MentionEdit(query.start, query.end, replacement, query.start + |replacement| + if spaced then 1 else 0))
  }

  function InsertMention(friends: set<string>, draft: string, caret: nat, alias: string, alphanumeric: set<char>)
    : Result<(string, nat), MentionError>
  {
    var edit :- EditFor(friends, draft, caret, alias, alphanumeric);
    QueryInDraft(draft, caret, alphanumeric);
    Ok((draft[..edit.start] + edit.replacement + draft[edit.end..], edit.caret))
  }

  lemma QueryInDraft(draft: string, caret: nat, alphanumeric: set<char>)
    ensures var query := QueryAt(draft, caret, alphanumeric);
            query.Some? ==>
              && query.value.start < caret <= query.value.end <= |draft| && draft[query.value.start] == '@'
              && (forall k | query.value.start < k < query.value.end :: IsWordByte(draft[k]))
              && (query.value.end < |draft| ==> !IsWordByte(draft[query.value.end]))
  {}

  predicate ValidHandle(s: string) {
    1 <= |s| <= 32 && forall k | 0 <= k < |s| :: IsWordByte(s[k])
  }

  /** An active query stands where a scan is outside of code and not glued to anything. */
  lemma ActiveQuery(draft: string, caret: nat, alphanumeric: set<char>)
    requires QueryAt(draft, caret, alphanumeric).Some?
    ensures var start := QueryAt(draft, caret, alphanumeric).value.start;
            start < |draft| && ScanTo(draft, 0, start, 0, alphanumeric).ticks == 0 && !Glued(draft, start, alphanumeric)
  {
    var start := LastAt(draft, caret).value;
    var probe := draft[..caret] + "x";
    ScanSplits(probe, 0, start, |probe|, 0, alphanumeric);
    ScanAgrees(probe, draft, 0, start, 0, alphanumeric);
    ScanStays(probe, 0, start, 0, alphanumeric);
    var front := ScanTo(probe, 0, start, 0, alphanumeric);
    if front.ticks != 0 || Glued(probe, start, alphanumeric) {
      SkippedAt(probe, start, |probe|, front.ticks, alphanumeric);
    }
  }

  /** The alias right behind an `@` that is free to start a mention is found, up to the space behind it. */
  lemma AliasIsFound(text: string, start: nat, alias: string, alphanumeric: set<char>)
    requires start + 1 + |alias| < |text| && text[start] == '@' && text[start + 1..start + 1 + |alias|] == alias
    requires ValidHandle(alias) && !IsWordByte(text[start + 1 + |alias|]) && !Glued(text, start, alphanumeric)
    ensures var found := ScanTo(text, start, |text|, 0, alphanumeric).mentions;
            found != [] && found[0] == Mention(Lowered(alias), start, start + 1 + |alias|)
  {
    WordEndIs(text, start + 1, start + 1 + |alias|, alias);
  }

  lemma {:induction false} WordEndIs(text: string, i: nat, j: nat, alias: string)
    requires i <= j < |text| && !IsWordByte(text[j]) && text[i..j] == alias && forall k | 0 <= k < |alias| :: IsWordByte(alias[k])
    ensures WordEnd(text, i, |text|) == j
    decreases j - i
  {
    if i < j {
      assert text[i] == alias[0] && text[i + 1..j] == alias[1..];
      WordEndIs(text, i + 1, j, alias[1..]);
    }
  }

  /** Where the edit puts things in the new draft. */
  lemma EditedDraft(friends: set<string>, draft: string, caret: nat, alias: string, alphanumeric: set<char>)
    requires InsertMention(friends, draft, caret, alias, alphanumeric).Ok? && ValidHandle(alias)
    ensures var (updated, next) := InsertMention(friends, draft, caret, alias, alphanumeric).value;
            var start := QueryAt(draft, caret, alphanumeric).value.start;
            && next == start + |alias| + 2 <= |updated| && IsWhitespace(updated[next - 1])
            && updated[start] == '@' && updated[start + 1..next - 1] == alias
            && start < |draft| && draft[start] == '@' && forall k | 0 <= k < start :: updated[k] == draft[k]
  {
    QueryInDraft(draft, caret, alphanumeric);
  }

  /** The new draft mentions the alias at `start` behind the same earlier mentions, and the caret is done with it. */
  ghost predicate Completed(draft: string, updated: string, start: nat, alias: string, next: nat, alphanumeric: set<char>)
    requires start <= |draft|
  {
    var earlier, all := ScanTo(draft, 0, start, 0, alphanumeric).mentions, MentionsOf(draft, alphanumeric);
    && earlier <= all && (forall m | m in earlier :: m.end <= start) && (forall k | |earlier| <= k < |all| :: all[k].start >= start)
    && earlier + [Mention(Lowered(alias), start, start + 1 + |alias|)] <= MentionsOf(updated, alphanumeric)
    && 0 < next <= |updated| && IsWhitespace(updated[next - 1]) && QueryAt(updated, next, alphanumeric).None?
  }

  /**
   Accepting a completion puts the chosen alias exactly where the edit starts, keeps every earlier
   mention, and leaves the caret right behind one white space with no completion active.
   */
  lemma AcceptedCompletion(friends: set<string>, draft: string, caret: nat, alias: string, alphanumeric: set<char>)
    requires InsertMention(friends, draft, caret, alias, alphanumeric).Ok? && ValidHandle(alias)
    ensures var (updated, next) := InsertMention(friends, draft, caret, alias, alphanumeric).value;
            var start := QueryAt(draft, caret, alphanumeric).value.start;
            start <= |draft| && Completed(draft, updated, start, alias, next, alphanumeric)
  {
    var (updated, next) := InsertMention(friends, draft, caret, alias, alphanumeric).value;
    EditedDraft(friends, draft, caret, alias, alphanumeric);
    ActiveQuery(draft, caret, alphanumeric);
    EditCompletes(draft, updated, QueryAt(draft, caret, alphanumeric).value.start, alias, next, alphanumeric);
  }

  lemma EditCompletes(draft: string, updated: string, start: nat, alias: string, next: nat, alphanumeric: set<char>)
    requires start < |draft| && draft[start] == '@' && ScanTo(draft, 0, start, 0, alphanumeric).ticks == 0
    requires !Glued(draft, start, alphanumeric) && ValidHandle(alias)
    requires next == start + |alias| + 2 <= |updated| && IsWhitespace(updated[next - 1])
    requires updated[start] == '@' && updated[start + 1..next - 1] == alias && forall k | 0 <= k < start :: updated[k] == draft[k]
    ensures Completed(draft, updated, start, alias, next, alphanumeric)
  {
    SplitsAtStart(draft, start, alphanumeric);
    AliasFollows(draft, updated, start, alias, next, alphanumeric);
    NoQueryBehindSpace(updated, start, alias, next, alphanumeric);
  }

  lemma SplitsAtStart(draft: string, start: nat, alphanumeric: set<char>)
    requires start < |draft| && draft[start] == '@'
    ensures var all, earlier := MentionsOf(draft, alphanumeric), ScanTo(draft, 0, start, 0, alphanumeric).mentions;
            && earlier <= all && (forall m | m in earlier :: m.end <= start)
            && forall k | |earlier| <= k < |all| :: all[k].start >= start
  {
    var front := ScanTo(draft, 0, start, 0, alphanumeric);
    ScanSplits(draft, 0, start, |draft|, 0, alphanumeric);
    ScanStays(draft, 0, start, 0, alphanumeric);
    ScanStays(draft, start, |draft|, front.ticks, alphanumeric);
  }

  lemma AliasFollows(draft: string, updated: string, start: nat, alias: string, next: nat, alphanumeric: set<char>)
    requires start < |draft| && start < |updated| && forall k | 0 <= k < start :: updated[k] == draft[k]
    requires ScanTo(draft, 0, start, 0, alphanumeric).ticks == 0 && !Glued(draft, start, alphanumeric)
    requires next == start + |alias| + 2 <= |updated| && IsWhitespace(updated[next - 1]) && ValidHandle(alias)
    requires updated[start] == '@' && updated[start + 1..next - 1] == alias
    ensures ScanTo(draft, 0, start, 0, alphanumeric).mentions + [Mention(Lowered(alias), start, start + 1 + |alias|)]
            <= MentionsOf(updated, alphanumeric)
  {
    ScanAgrees(draft, updated, 0, start, 0, alphanumeric);
    ScanSplits(updated, 0, start, |updated|, 0, alphanumeric);
    AliasIsFound(updated, start, alias, alphanumeric);
    NextAfter(ScanTo(draft, 0, start, 0, alphanumeric).mentions, ScanTo(updated, start, |updated|, 0, alphanumeric).mentions);
  }

  lemma NextAfter(front: seq<Mention>, back: seq<Mention>)
    requires back != []
    ensures front + [back[0]] <= front + back
  {
    assert front + back == front + [back[0]] + back[1..];
  }

  lemma NoQueryBehindSpace(text: string, start: nat, alias: string, next: nat, alphanumeric: set<char>)
    requires next == start + |alias| + 2 <= |text| && IsWhitespace(text[next - 1])
    requires text[start] == '@' && text[start + 1..next - 1] == alias && ValidHandle(alias)
    ensures QueryAt(text, next, alphanumeric).None?
  {
    assert LastAt(text, next).Some?;
    var at := LastAt(text, next).value;
    assert !IsWordByte(text[next - 1]);
    assert at < next - 1;
  }

  // ---------- Mentions behind the edit ----------

  /** The alphanumeric characters include the ASCII letters and digits. */
  ghost predicate KnowsAscii(alphanumeric: set<char>) {
    forall c | IsWordByte(c) && c != '_' :: c in alphanumeric
  }

  /** The same mentions, `shift` characters further on. */
  ghost predicate Shifted(before: seq<Mention>, after: seq<Mention>, shift: int) {
    && |before| == |after|
    && forall k | 0 <= k < |before| ::
         && after[k].handle == before[k].handle
         && after[k].start == before[k].start + shift && after[k].end == before[k].end + shift
  }

  lemma {:induction false} RunEndShifts(a: string, b: string, i: nat, j: nat)
    requires i <= |a| && j <= |b| && a[i..] == b[j..]
    ensures RunEnd(b, j, |b|) - j == RunEnd(a, i, |a|) - i
    decreases |a| - i
  {
    if i < |a| {
      assert a[i] == a[i..][0] && b[j] == b[j..][0] && a[i + 1..] == a[i..][1..] && b[j + 1..] == b[j..][1..];
      RunEndShifts(a, b, i + 1, j + 1);
    }
  }

  lemma {:induction false} WordEndShifts(a: string, b: string, i: nat, j: nat)
    requires i <= |a| && j <= |b| && a[i..] == b[j..]
    ensures WordEnd(b, j, |b|) - j == WordEnd(a, i, |a|) - i
    decreases |a| - i
  {
    if i < |a| {
      assert a[i] == a[i..][0] && b[j] == b[j..][0] && a[i + 1..] == a[i..][1..] && b[j + 1..] == b[j..][1..];
      WordEndShifts(a, b, i + 1, j + 1);
    }
  }

  lemma SameRest(a: string, b: string, i: nat, j: nat, n: nat)
    requires i + n <= |a| && j <= |b| && a[i..] == b[j..] && n > 0
    ensures |a| - i == |b| - j && a[i + n..] == b[j + n..]
    ensures a[i] == b[j] && a[i + n - 1] == b[j + n - 1] && a[i + 1..i + n] == b[j + 1..j + n]
  {
    assert a[i + n..] == a[i..][n..] && b[j + n..] == b[j..][n..];
    assert a[i..][0] == b[j..][0] && a[i..][n - 1] == b[j..][n - 1];
    var p, q := a[i + 1..i + n], b[j + 1..j + n];
    forall k | 0 <= k < n - 1 ensures p[k] == q[k] { assert a[i..][k + 1] == b[j..][k + 1]; }
  }

  /** The mention that an open `@` makes of the handle up to `end`, if there is one. */
  function Own(text: string, start: nat, end: nat): (found: seq<Mention>)
    requires start < end <= |text|
    ensures found == [] <==> end == start + 1
  {
    if end == start + 1 then [] else [Mention(Lowered(text[start + 1..end]), start, end)]
  }

  lemma OpenScan(text: string, i: nat, alphanumeric: set<char>)
    requires i < |text| && text[i] == '@' && !Glued(text, i, alphanumeric)
    ensures var stop := WordEnd(text, i + 1, |text|);
            ScanTo(text, i, |text|, 0, alphanumeric).mentions == Own(text, i, stop) + ScanTo(text, stop, |text|, 0, alphanumeric).mentions
  {}

  lemma ShiftedJoin(a: seq<Mention>, b: seq<Mention>, c: seq<Mention>, d: seq<Mention>, front: seq<Mention>,
                    back: seq<Mention>, shift: int)
    requires Shifted(a, b, shift) && Shifted(c, d, shift) && front == a + c && back == b + d
    ensures Shifted(front, back, shift)
  {}

  lemma DropsFront(front: seq<Mention>, rest: seq<Mention>, whole: seq<Mention>)
    requires whole == front + rest
    ensures front <= whole && whole[|front|..] == rest
  {}

  /** Equal rests hold equal mentions, if an `@` that comes first is glued in both texts or in neither. */
  lemma {:induction false} ScanShifts(a: string, b: string, i: nat, j: nat, ticks: nat, alphanumeric: set<char>)
    requires i <= |a| && j <= |b| && a[i..] == b[j..]
    requires i < |a| && a[i] == '@' ==> Glued(a, i, alphanumeric) == Glued(b, j, alphanumeric)
    ensures Shifted(ScanTo(a, i, |a|, ticks, alphanumeric).mentions, ScanTo(b, j, |b|, ticks, alphanumeric).mentions, j - i)
    decreases |a| - i
  {
    if i < |a| {
      SameRest(a, b, i, j, 1);
      if a[i] == '`' {
        var run := RunEnd(a, i, |a|) - i;
        RunEndShifts(a, b, i, j);
        SameRest(a, b, i, j, run);
        ScanShifts(a, b, i + run, j + run, TicksAfter(ticks, run), alphanumeric);
      } else if a[i] != '@' || ticks != 0 || Glued(a, i, alphanumeric) {
        ScanShifts(a, b, i + 1, j + 1, ticks, alphanumeric);
      } else {
        MentionShifts(a, b, i, j, alphanumeric);
      }
    }
  }

  lemma {:induction false} MentionShifts(a: string, b: string, i: nat, j: nat, alphanumeric: set<char>)
    requires i < |a| && j < |b| && a[i..] == b[j..] && a[i] == b[j] == '@'
    requires !Glued(a, i, alphanumeric) && !Glued(b, j, alphanumeric)
    ensures Shifted(ScanTo(a, i, |a|, 0, alphanumeric).mentions, ScanTo(b, j, |b|, 0, alphanumeric).mentions, j - i)
    decreases |a| - i, 0
  {
    var n := SameHandle(a, b, i, j, alphanumeric);
    ScanShifts(a, b, i + n, j + n, 0, alphanumeric);
    MentionJoins(a, b, i, j, n, ScanTo(a, i + n, |a|, 0, alphanumeric).mentions,
                 ScanTo(b, j + n, |b|, 0, alphanumeric).mentions, alphanumeric);
  }

  lemma MentionJoins(a: string, b: string, i: nat, j: nat, n: nat, first: seq<Mention>, second: seq<Mention>,
                     alphanumeric: set<char>)
    requires i < |a| && j < |b| && a[i] == b[j] == '@' && !Glued(a, i, alphanumeric) && !Glued(b, j, alphanumeric)
    requires n > 0 && WordEnd(a, i + 1, |a|) == i + n && WordEnd(b, j + 1, |b|) == j + n
    requires first == ScanTo(a, i + n, |a|, 0, alphanumeric).mentions && second == ScanTo(b, j + n, |b|, 0, alphanumeric).mentions
    requires Shifted(Own(a, i, i + n), Own(b, j, j + n), j - i) && Shifted(first, second, j - i)
    ensures Shifted(ScanTo(a, i, |a|, 0, alphanumeric).mentions, ScanTo(b, j, |b|, 0, alphanumeric).mentions, j - i)
  {
    OpenScan(a, i, alphanumeric);
    OpenScan(b, j, alphanumeric);
    ShiftedJoin(Own(a, i, i + n), Own(b, j, j + n), first, second, ScanTo(a, i, |a|, 0, alphanumeric).mentions,
                ScanTo(b, j, |b|, 0, alphanumeric).mentions, j - i);
  }

  /** Behind an `@` that starts two equal rests stands the same handle, and then equal rests again. */
  lemma SameHandle(a: string, b: string, i: nat, j: nat, alphanumeric: set<char>) returns (n: nat)
    requires i < |a| && j < |b| && a[i..] == b[j..] && a[i] == '@'
    ensures 0 < n && i + n <= |a| && j + n <= |b| && a[i + n..] == b[j + n..]
    ensures WordEnd(a, i + 1, |a|) == i + n && WordEnd(b, j + 1, |b|) == j + n
    ensures Glued(a, i + n, alphanumeric) == Glued(b, j + n, alphanumeric)
    ensures a[i + 1..i + n] == b[j + 1..j + n] && Shifted(Own(a, i, i + n), Own(b, j, j + n), j - i)
  {
    n := WordEnd(a, i + 1, |a|) - i;
    SameRest(a, b, i, j, 1);
    WordEndShifts(a, b, i + 1, j + 1);
    SameRest(a, b, i, j, n);
  }

  /** A scan passes the characters of a word. */
  lemma {:induction false} WordIsPassed(text: string, i: nat, stop: nat, alphanumeric: set<char>)
    requires i <= stop <= |text| && forall k | i <= k < stop :: IsWordByte(text[k])
    ensures ScanTo(text, i, |text|, 0, alphanumeric) == ScanTo(text, stop, |text|, 0, alphanumeric)
    decreases stop - i
  {
    if i < stop { WordIsPassed(text, i + 1, stop, alphanumeric); }
  }

  lemma GluedIsPassed(text: string, i: nat, alphanumeric: set<char>)
    requires i < |text| && text[i] == '@' && Glued(text, i, alphanumeric)
    ensures ScanTo(text, i, |text|, 0, alphanumeric) == ScanTo(text, WordEnd(text, i + 1, |text|), |text|, 0, alphanumeric)
  {
    WordIsPassed(text, i + 1, WordEnd(text, i + 1, |text|), alphanumeric);
  }

  /** An `@` with a handle stands right behind the mention that is completed. */
  predicate FreesMention(draft: string, end: nat) {
    end + 1 < |draft| && draft[end] == '@' && IsWordByte(draft[end + 1])
  }

  /** The edit separates that `@` from the mention before it, and so makes it one of its own. */
  function Freed(draft: string, end: nat, next: nat): (found: seq<Mention>)
    ensures found == [] <==> !FreesMention(draft, end)
  {
    if !FreesMention(draft, end) then []
    else
      var stop := WordEnd(draft, end + 1, |draft|);
      [Mention(Lowered(draft[end + 1..stop]), next, next + (stop - end))]
  }

  /** From `next` on, the new draft mentions what the edit freed and then what stood behind `end`. */
  ghost predicate Reappears(draft: string, updated: string, end: nat, next: nat, alphanumeric: set<char>)
    requires end <= |draft| && next <= |updated|
  {
    var rest := ScanTo(updated, next, |updated|, 0, alphanumeric).mentions;
    && Freed(draft, end, next) <= rest
    && Shifted(ScanTo(draft, end, |draft|, 0, alphanumeric).mentions, rest[|Freed(draft, end, next)|..], |updated| - |draft|)
  }

  /** Where white space follows already, what comes behind it is found as before. */
  lemma RestBehindSpace(draft: string, updated: string, end: nat, next: nat, alphanumeric: set<char>)
    requires end < |draft| && IsWhitespace(draft[end]) && 0 < next <= |updated|
    requires updated[next - 1] == draft[end] && updated[next..] == draft[end + 1..]
    ensures Reappears(draft, updated, end, next, alphanumeric)
  {
    assert |updated[next..]| == |draft[end + 1..]|;
    ScanShifts(draft, updated, end + 1, next, 0, alphanumeric);
    DropsFront([], ScanTo(updated, next, |updated|, 0, alphanumeric).mentions,
               ScanTo(updated, next, |updated|, 0, alphanumeric).mentions);
  }

  /** Behind a space that was added, an `@` that followed directly is no longer glued. */
  lemma FreedRest(draft: string, updated: string, end: nat, next: nat, alphanumeric: set<char>)
    requires Sane(alphanumeric) && end < |draft| && Glued(draft, end, alphanumeric) && draft[end] == '@'
    requires 0 < next <= |updated| && updated[next - 1] == ' ' && updated[next..] == draft[end..]
    ensures Reappears(draft, updated, end, next, alphanumeric)
  {
    assert |updated[next..]| == |draft[end..]| && updated[next] == updated[next..][0];
    var n := SameHandle(draft, updated, end, next, alphanumeric);
    GluedIsPassed(draft, end, alphanumeric);
    ScanShifts(draft, updated, end + n, next + n, 0, alphanumeric);
    assert Own(updated, next, next + n) == Freed(draft, end, next);
    FreedJoins(draft, updated, end, next, n, ScanTo(updated, next + n, |updated|, 0, alphanumeric).mentions, alphanumeric);
  }

  lemma FreedJoins(draft: string, updated: string, end: nat, next: nat, n: nat, later: seq<Mention>, alphanumeric: set<char>)
    requires end < |draft| && next < |updated| && updated[next] == '@' && !Glued(updated, next, alphanumeric)
    requires n > 0 && end + n <= |draft| && WordEnd(updated, next + 1, |updated|) == next + n
    requires Own(updated, next, next + n) == Freed(draft, end, next)
    requires later == ScanTo(updated, next + n, |updated|, 0, alphanumeric).mentions
    requires Shifted(ScanTo(draft, end, |draft|, 0, alphanumeric).mentions, later, |updated| - |draft|)
    ensures Reappears(draft, updated, end, next, alphanumeric)
  {
    OpenScan(updated, next, alphanumeric);
    DropsFront(Freed(draft, end, next), later, ScanTo(updated, next, |updated|, 0, alphanumeric).mentions);
  }

  lemma RestBehindAddedSpace(draft: string, updated: string, end: nat, next: nat, alphanumeric: set<char>)
    requires Sane(alphanumeric) && end <= |draft| && Glued(draft, end, alphanumeric)
    requires 0 < next <= |updated| && updated[next - 1] == ' ' && updated[next..] == draft[end..]
    ensures Reappears(draft, updated, end, next, alphanumeric)
  {
    if end < |draft| && draft[end] == '@' {
      FreedRest(draft, updated, end, next, alphanumeric);
    } else {
      assert |updated[next..]| == |draft[end..]|;
      ScanShifts(draft, updated, end, next, 0, alphanumeric);
      DropsFront([], ScanTo(updated, next, |updated|, 0, alphanumeric).mentions,
                 ScanTo(updated, next, |updated|, 0, alphanumeric).mentions);
    }
  }

  /** The mentions of a text with an open mention from `start` to `end`: those before it, itself, and those behind it. */
  lemma MentionsAround(text: string, start: nat, end: nat, alphanumeric: set<char>)
    requires start < end <= |text| && text[start] == '@' && WordEnd(text, start + 1, |text|) == end
    requires ScanTo(text, 0, start, 0, alphanumeric).ticks == 0 && !Glued(text, start, alphanumeric)
    ensures MentionsOf(text, alphanumeric)
            == ScanTo(text, 0, start, 0, alphanumeric).mentions + Own(text, start, end)
               + ScanTo(text, end, |text|, 0, alphanumeric).mentions
  {
    ScanSplits(text, 0, start, |text|, 0, alphanumeric);
    OpenScan(text, start, alphanumeric);
    var earlier, later := ScanTo(text, 0, start, 0, alphanumeric).mentions, ScanTo(text, end, |text|, 0, alphanumeric).mentions;
    assert earlier + Own(text, start, end) + later == earlier + (Own(text, start, end) + later);
  }

  /** An `@` that a scan finds outside of code and glued to nothing, with nothing but a handle up to the caret. */
  ghost predicate OpenMention(draft: string, caret: nat, start: nat, alphanumeric: set<char>) {
    && start < caret <= |draft| && draft[start] == '@' && (forall k | start < k < caret :: IsWordByte(draft[k]))
    && ScanTo(draft, 0, start, 0, alphanumeric).ticks == 0 && !Glued(draft, start, alphanumeric)
  }

  /** The probe with its appended letter finds every open mention, a bare `@` included. */
  lemma OpenMentionIsActive(draft: string, caret: nat, start: nat, alphanumeric: set<char>)
    requires OpenMention(draft, caret, start, alphanumeric)
    ensures QueryAt(draft, caret, alphanumeric).Some? && QueryAt(draft, caret, alphanumeric).value.start == start
    ensures QueryAt(draft, caret, alphanumeric).value.prefix == draft[start + 1..caret]
  {
    var probe, at := draft[..caret] + "x", LastAt(draft, caret);
    assert at == Some(start);
    assert WordEnd(draft, start + 1, caret) == caret;
    ScanAgrees(draft, probe, 0, start, 0, alphanumeric);
    ScanSplits(probe, 0, start, |probe|, 0, alphanumeric);
    var front, back := ScanTo(probe, 0, start, 0, alphanumeric), ScanTo(probe, start, |probe|, 0, alphanumeric);
    var stop := WordEnd(probe, start + 1, |probe|);
    forall k | start < k < |probe| ensures IsWordByte(probe[k]) {
      if k < caret { assert probe[k] == draft[k]; } else { assert probe[k] == 'x'; }
    }
    assert stop == |probe|;
    assert back.mentions[0].start == start;
    assert back.mentions[0] in front.mentions + back.mentions;
  }

  /**
   A completion is accepted exactly for a configured friend whose caret stands in an open mention
   of the draft, and it replaces that mention from its `@` on.
   */
  lemma CompletesExactlyActiveQueries(friends: set<string>, draft: string, caret: nat, alias: string, alphanumeric: set<char>)
    ensures InsertMention(friends, draft, caret, alias, alphanumeric).Ok?
            <==> alias in friends && exists start :: OpenMention(draft, caret, start, alphanumeric)
    ensures forall start | OpenMention(draft, caret, start, alphanumeric) && alias in friends ::
              EditFor(friends, draft, caret, alias, alphanumeric).Ok?
              && EditFor(friends, draft, caret, alias, alphanumeric).value.start == start
  {
    QueryInDraft(draft, caret, alphanumeric);
    if QueryAt(draft, caret, alphanumeric).Some? {
      ActiveQuery(draft, caret, alphanumeric);
      assert OpenMention(draft, caret, QueryAt(draft, caret, alphanumeric).value.start, alphanumeric);
    }
    forall start | OpenMention(draft, caret, start, alphanumeric)
      ensures QueryAt(draft, caret, alphanumeric).Some? && QueryAt(draft, caret, alphanumeric).value.start == start
    {
      OpenMentionIsActive(draft, caret, start, alphanumeric);
    }
  }

  /** How the new draft goes on behind the edit. */
  lemma EditedRest(friends: set<string>, draft: string, caret: nat, alias: string, alphanumeric: set<char>)
    requires InsertMention(friends, draft, caret, alias, alphanumeric).Ok? && KnowsAscii(alphanumeric)
    ensures var (updated, next) := InsertMention(friends, draft, caret, alias, alphanumeric).value;
            var end := QueryAt(draft, caret, alphanumeric).value.end;
            && 0 < next <= |updated| && end <= |draft| && Glued(draft, end, alphanumeric)
            && if end < |draft| && IsWhitespace(draft[end]) then updated[next - 1] == draft[end] && updated[next..] == draft[end + 1..]
               else updated[next - 1] == ' ' && updated[next..] == draft[end..]
  {
    QueryInDraft(draft, caret, alphanumeric);
    var query := QueryAt(draft, caret, alphanumeric).value;
    var edit := EditFor(friends, draft, caret, alias, alphanumeric).value;
    var updated := draft[..edit.start] + edit.replacement + draft[edit.end..];
    assert updated[edit.start + |edit.replacement|..] == draft[query.end..];
    if query.end < |draft| && IsWhitespace(draft[query.end]) {
      assert updated[edit.caret..] == updated[edit.start + |edit.replacement|..][1..];
      assert updated[edit.caret - 1] == updated[edit.start + |edit.replacement|..][0];
    }
    assert query.end - 1 == query.start || IsWordByte(draft[query.end - 1]);
  }

  lemma {:induction false} WordEndsAt(text: string, i: nat, j: nat)
    requires i <= j <= |text| && (forall k | i <= k < j :: IsWordByte(text[k])) && (j < |text| ==> !IsWordByte(text[j]))
    ensures WordEnd(text, i, |text|) == j
    decreases j - i
  {
    if i < j { WordEndsAt(text, i + 1, j); }
  }

  /** The mentions of the new draft: the earlier ones, the alias, and what is found from the caret on. */
  lemma MentionsAfterEdit(draft: string, updated: string, start: nat, alias: string, next: nat, alphanumeric: set<char>)
    requires start < |draft| && draft[start] == '@' && ScanTo(draft, 0, start, 0, alphanumeric).ticks == 0
    requires !Glued(draft, start, alphanumeric) && ValidHandle(alias)
    requires next == start + |alias| + 2 <= |updated| && IsWhitespace(updated[next - 1])
    requires updated[start] == '@' && updated[start + 1..next - 1] == alias && forall k | 0 <= k < start :: updated[k] == draft[k]
    ensures MentionsOf(updated, alphanumeric)
            == ScanTo(draft, 0, start, 0, alphanumeric).mentions + [Mention(Lowered(alias), start, next - 1)]
               + ScanTo(updated, next, |updated|, 0, alphanumeric).mentions
  {
    ScanAgrees(draft, updated, 0, start, 0, alphanumeric);
    WordEndIs(updated, start + 1, next - 1, alias);
    MentionsAround(updated, start, next - 1, alphanumeric);
    assert updated[next - 1] != '@' && updated[next - 1] != '`';
  }

  /**
   What an accepted completion does to the mentions behind it: they reappear unchanged, moved with
   the text, and nothing else appears among them, if and only if no `@` with a handle follows the
   completed mention directly. Such an `@` was glued; the space that is added makes it a mention,
   which is then the one that comes first.
   */
  lemma LaterMentions(friends: set<string>, draft: string, caret: nat, alias: string, alphanumeric: set<char>)
    requires InsertMention(friends, draft, caret, alias, alphanumeric).Ok? && ValidHandle(alias)
    requires Sane(alphanumeric) && KnowsAscii(alphanumeric)
    ensures var (updated, next) := InsertMention(friends, draft, caret, alias, alphanumeric).value;
            var query := QueryAt(draft, caret, alphanumeric).value;
            && query.start < query.end <= |draft| && next <= |updated|
            && RestKept(draft, updated, query.start, query.end, alias, next, alphanumeric)
  {
    var (updated, next) := InsertMention(friends, draft, caret, alias, alphanumeric).value;
    var start, end := QueryAt(draft, caret, alphanumeric).value.start, QueryAt(draft, caret, alphanumeric).value.end;
    QueryInDraft(draft, caret, alphanumeric);
    EditedDraft(friends, draft, caret, alias, alphanumeric);
    EditedRest(friends, draft, caret, alias, alphanumeric);
    ActiveQuery(draft, caret, alphanumeric);
    WordEndsAt(draft, start + 1, end);
    if end < |draft| && IsWhitespace(draft[end]) {
      RestBehindSpace(draft, updated, end, next, alphanumeric);
    } else {
      RestBehindAddedSpace(draft, updated, end, next, alphanumeric);
    }
    EditKeepsRest(draft, updated, start, end, alias, next, alphanumeric);
  }

  /** The mentions of both drafts, and how those behind the edit correspond. */
  ghost predicate RestKept(draft: string, updated: string, start: nat, end: nat, alias: string, next: nat, alphanumeric: set<char>)
    requires start < end <= |draft| && next <= |updated|
  {
    var earlier, later := ScanTo(draft, 0, start, 0, alphanumeric).mentions, ScanTo(draft, end, |draft|, 0, alphanumeric).mentions;
    var rest, shift := ScanTo(updated, next, |updated|, 0, alphanumeric).mentions, |updated| - |draft|;
    && MentionsOf(draft, alphanumeric) == earlier + Own(draft, start, end) + later
    && (forall m | m in later :: m.start >= end)
    && MentionsOf(updated, alphanumeric) == earlier + [Mention(Lowered(alias), start, start + 1 + |alias|)] + rest
    && (Shifted(later, rest, shift) <==> !FreesMention(draft, end))
    && Freed(draft, end, next) <= rest && Shifted(later, rest[|Freed(draft, end, next)|..], shift)
  }

  lemma EditKeepsRest(draft: string, updated: string, start: nat, end: nat, alias: string, next: nat, alphanumeric: set<char>)
    requires start < end <= |draft| && draft[start] == '@' && WordEnd(draft, start + 1, |draft|) == end
    requires ScanTo(draft, 0, start, 0, alphanumeric).ticks == 0 && !Glued(draft, start, alphanumeric) && ValidHandle(alias)
    requires next == start + |alias| + 2 <= |updated| && IsWhitespace(updated[next - 1])
    requires updated[start] == '@' && updated[start + 1..next - 1] == alias && forall k | 0 <= k < start :: updated[k] == draft[k]
    requires Reappears(draft, updated, end, next, alphanumeric)
    ensures RestKept(draft, updated, start, end, alias, next, alphanumeric)
  {
    MentionsAround(draft, start, end, alphanumeric);
    MentionsAfterEdit(draft, updated, start, alias, next, alphanumeric);
    ScanStays(draft, end, |draft|, 0, alphanumeric);
    var rest := ScanTo(updated, next, |updated|, 0, alphanumeric).mentions;
    if !FreesMention(draft, end) { assert rest[0..] == rest; }
  }

  /** A draft of one mention and an `@b` that is glued to it. */
  lemma GluedDraft(draft: string, alphanumeric: set<char>)
    requires draft == "@a@b" && Sane(alphanumeric) && KnowsAscii(alphanumeric)
    ensures QueryAt(draft, 2, alphanumeric) == Some(MentionQuery("a", 0, 2))
    ensures InsertMention({"ab"}, draft, 2, "ab", alphanumeric) == Ok(("@ab @b", 4))
    ensures ScanTo(draft, 2, 4, 0, alphanumeric).mentions == []
  {
    assert draft[0] == '@' && draft[1] == 'a' && draft[2] == '@' && draft[3] == 'b';
    assert OpenMention(draft, 2, 0, alphanumeric);
    OpenMentionIsActive(draft, 2, 0, alphanumeric);
    assert draft[1..2] == "a";
    QueryInDraft(draft, 2, alphanumeric);
    assert EditFor({"ab"}, draft, 2, "ab", alphanumeric) == Ok(MentionEdit(0, 2, "@ab ", 4)) by {
      assert "@" + "ab" + " " == "@ab ";
    }
    assert draft[..0] + "@ab " + draft[2..] == "@ab @b";
    WordIsPassed(draft, 3, 4, alphanumeric);
  }

  lemma OneFreed(rest: seq<Mention>, freed: seq<Mention>, shift: int)
    requires |freed| == 1 && freed <= rest && Shifted([], rest[1..], shift)
    ensures rest == freed
  {}

  lemma GluedMentions(draft: string, updated: string, alphanumeric: set<char>)
    requires draft == "@a@b" && updated == "@ab @b" && RestKept(draft, updated, 0, 2, "ab", 4, alphanumeric)
    requires ScanTo(draft, 2, 4, 0, alphanumeric).mentions == []
    ensures MentionsOf(draft, alphanumeric) == [Mention("a", 0, 2)]
    ensures MentionsOf(updated, alphanumeric) == [Mention("ab", 0, 3), Mention("b", 4, 6)]
  {
    WordEndsAt(draft, 3, 4);
    assert Lowered(draft[1..2]) == "a" && Lowered("ab") == "ab" && Lowered(draft[3..4]) == "b";
    OneFreed(ScanTo(updated, 4, 6, 0, alphanumeric).mentions, Freed(draft, 2, 4), 2);
  }

  /** The space behind the completed `@a` makes a mention of `@b`, which was none before. */
  lemma SpaceFreesAMention(alphanumeric: set<char>)
    requires Sane(alphanumeric) && KnowsAscii(alphanumeric)
    ensures InsertMention({"ab"}, "@a@b", 2, "ab", alphanumeric) == Ok(("@ab @b", 4))
    ensures MentionsOf("@a@b", alphanumeric) == [Mention("a", 0, 2)]
    ensures MentionsOf("@ab @b", alphanumeric) == [Mention("ab", 0, 3), Mention("b", 4, 6)]
  {
    GluedDraft("@a@b", alphanumeric);
    LaterMentions({"ab"}, "@a@b", 2, "ab", alphanumeric);
    GluedMentions("@a@b", "@ab @b", alphanumeric);
  }
}
