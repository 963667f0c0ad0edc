/** Round-robin selection of evidence under a character budget. */
module EvidenceSelection {
  import opened Wrappers
  import opened Counting

  /** `words` is the text without its white space, `digest` stands for the full text, `block` is the record in the prompt. */
  datatype Evidence = Evidence(id: string, account: string, words: seq<string>, digest: string, block: string)

  /** `head` and `tail` are the prompt around the evidence, for the draft, the friends and the recipe at hand. */
  datatype Circle = Circle(friends: seq<string>, evidence: seq<Evidence>, head: string, tail: string)

  datatype Limits = Limits(maxChars: nat, perFriend: nat)

  datatype SelectError = DraftTooLong | NothingFits | Unrepresented(account: string) | UnknownEvidence(id: string)

  ghost predicate UniqueIds(evidence: seq<Evidence>) {
    forall i, j | 0 <= i < j < |evidence| :: evidence[i].id != evidence[j].id
  }

  ghost predicate DistinctFriends(friends: seq<string>) {
    forall i, j | 0 <= i < j < |friends| :: friends[i] != friends[j]
  }

  ghost predicate Positions(evidence: seq<Evidence>, selected: seq<nat>) {
    && (forall k | 0 <= k < |selected| :: selected[k] < |evidence|)
    && (forall k, l | 0 <= k < l < |selected| :: selected[k] != selected[l])
  }

  // ---------- Rendering ----------

  function Find(evidence: seq<Evidence>, id: string): (r: Option<nat>)
    ensures r.Some? ==> r.value < |evidence| && evidence[r.value].id == id
    ensures r.None? ==> forall i | 0 <= i < |evidence| :: evidence[i].id != id
  {
    if evidence == [] then None
    else
      var front := Find(evidence[..|evidence| - 1], id);
      if front.Some? then front
      else if evidence[|evidence| - 1].id == id then Some(|evidence| - 1)
      else None
  }

  function Notebook(evidence: seq<Evidence>, ids: seq<string>): Result<string, SelectError> {
    if ids == [] then Ok("")
    else
      var front :- Notebook(evidence, ids[..|ids| - 1]);
      var found := Find(evidence, ids[|ids| - 1]);
      if found.None? then Err(UnknownEvidence(ids[|ids| - 1])) else Ok(front + evidence[found.value].block)
  }

  function RenderPrompt(circle: Circle, ids: seq<string>): Result<string, SelectError> {
    var notebook :- Notebook(circle.evidence, ids);
    Ok(circle.head + notebook + circle.tail)
  }

  function Ids(evidence: seq<Evidence>, selected: seq<nat>): (ids: seq<string>)
    requires forall k | 0 <= k < |selected| :: selected[k] < |evidence|
    ensures |ids| == |selected| && forall k | 0 <= k < |selected| :: ids[k] == evidence[selected[k]].id
  {
    seq(|selected|, k requires 0 <= k < |selected| => evidence[selected[k]].id)
  }

  function BlockChars(evidence: seq<Evidence>, selected: seq<nat>): nat
    requires forall k | 0 <= k < |selected| :: selected[k] < |evidence|
  {
    if selected == [] then 0
    else BlockChars(evidence, selected[..|selected| - 1]) + |evidence[selected[|selected| - 1]].block|
  }

  /** With unique identifiers, the running count of characters is the length of the rendered prompt. */
  lemma {:induction false} NotebookLength(evidence: seq<Evidence>, selected: seq<nat>)
    requires UniqueIds(evidence) && forall k | 0 <= k < |selected| :: selected[k] < |evidence|
    ensures Notebook(evidence, Ids(evidence, selected)).Ok?
    ensures |Notebook(evidence, Ids(evidence, selected)).value| == BlockChars(evidence, selected)
    decreases |selected|
  {
    if selected != [] {
      var front := selected[..|selected| - 1];
      NotebookLength(evidence, front);
      var ids := Ids(evidence, selected);
      assert ids[..|ids| - 1] == Ids(evidence, front);
      var found := Find(evidence, ids[|ids| - 1]);
      assert found == Some(selected[|selected| - 1]);
    }
  }

  // ---------- What a selection is held to ----------

  function Held(evidence: seq<Evidence>, selected: seq<nat>, account: string): nat
    requires forall k | 0 <= k < |selected| :: selected[k] < |evidence|
  {
    if selected == [] then 0
    else
      Held(evidence, selected[..|selected| - 1], account)
      + if evidence[selected[|selected| - 1]].account == account then 1 else 0
  }

  /** Someone selected says the same words in the same voice. */
  predicate Repeats(evidence: seq<Evidence>, selected: seq<nat>, i: nat)
    requires i < |evidence| && forall k | 0 <= k < |selected| :: selected[k] < |evidence|
  {
    exists k | 0 <= k < |selected| ::
      evidence[selected[k]].account == evidence[i].account && evidence[selected[k]].words == evidence[i].words
  }

  /** Why an item may be passed over for good. */
  ghost predicate Refused(evidence: seq<Evidence>, limits: Limits, selected: seq<nat>, chars: nat, i: nat)
    requires i < |evidence| && forall k | 0 <= k < |selected| :: selected[k] < |evidence|
  {
    i in selected || Repeats(evidence, selected, i) || chars + |evidence[i].block| > limits.maxChars
  }

  /** Everything passed over was passed over for a reason that still holds. */
  ghost predicate Justified(evidence: seq<Evidence>, limits: Limits, selected: seq<nat>, chars: nat, excluded: set<string>)
    requires forall k | 0 <= k < |selected| :: selected[k] < |evidence|
  {
    forall i | 0 <= i < |evidence| && evidence[i].id in excluded :: Refused(evidence, limits, selected, chars, i)
  }

  ghost predicate Exhausted(evidence: seq<Evidence>, excluded: set<string>, account: string) {
    forall i | 0 <= i < |evidence| && evidence[i].account == account :: evidence[i].id in excluded
  }

  /** After `r` rounds: `r` excerpts, or as many as the cap allows, or nothing left to choose from. */
  ghost predicate HadTurns(evidence: seq<Evidence>, limits: Limits, selected: seq<nat>, excluded: set<string>,
                           account: string, r: nat)
    requires forall k | 0 <= k < |selected| :: selected[k] < |evidence|
  {
    var held := Held(evidence, selected, account);
    && held <= limits.perFriend && held <= r
    && (held == r || held == limits.perFriend || Exhausted(evidence, excluded, account))
  }

  function CharsOf(circle: Circle, selected: seq<nat>): nat
    requires forall k | 0 <= k < |selected| :: selected[k] < |circle.evidence|
  {
    |circle.head| + |circle.tail| + BlockChars(circle.evidence, selected)
  }

  /** What the selection loop keeps. */
  ghost predicate Sound(circle: Circle, limits: Limits, selected: seq<nat>, excluded: set<string>, chars: nat) {
    && Positions(circle.evidence, selected)
    && chars == CharsOf(circle, selected) <= limits.maxChars
    && SeenIn(circle.evidence, selected, excluded)
    && Justified(circle.evidence, limits, selected, chars, excluded)
    && NoRepeats(circle.evidence, selected)
  }

  ghost predicate SeenIn(evidence: seq<Evidence>, selected: seq<nat>, excluded: set<string>)
    requires forall k | 0 <= k < |selected| :: selected[k] < |evidence|
  {
    forall k | 0 <= k < |selected| :: evidence[selected[k]].id in excluded
  }

  lemma SeenNext(evidence: seq<Evidence>, selected: seq<nat>, excluded: set<string>, e: nat)
    requires e < |evidence| && evidence[e].id in excluded && forall k | 0 <= k < |selected| :: selected[k] < |evidence|
    requires SeenIn(evidence, selected, excluded)
    ensures SeenIn(evidence, selected + [e], excluded)
  {}

  ghost predicate NoRepeats(evidence: seq<Evidence>, selected: seq<nat>)
    requires forall k | 0 <= k < |selected| :: selected[k] < |evidence|
  {
    forall k, l | 0 <= k < l < |selected| ::
      evidence[selected[k]].account != evidence[selected[l]].account || evidence[selected[k]].words != evidence[selected[l]].words
  }

  lemma Appends(evidence: seq<Evidence>, selected: seq<nat>, e: nat)
    requires e < |evidence| && forall k | 0 <= k < |selected| :: selected[k] < |evidence|
    ensures BlockChars(evidence, selected + [e]) == BlockChars(evidence, selected) + |evidence[e].block|
    ensures forall account :: Held(evidence, selected + [e], account)
                              == Held(evidence, selected, account) + if evidence[e].account == account then 1 else 0
  {
    assert (selected + [e])[..|selected|] == selected;
  }

  lemma StaysRefused(evidence: seq<Evidence>, limits: Limits, selected: seq<nat>, chars: nat, i: nat, e: nat, size: nat)
    requires i < |evidence| && e < |evidence| && forall k | 0 <= k < |selected| :: selected[k] < |evidence|
    requires Refused(evidence, limits, selected, chars, i)
    ensures Refused(evidence, limits, selected + [e], chars + size, i)
  {
    if Repeats(evidence, selected, i) {
      var k :| 0 <= k < |selected| && evidence[selected[k]].account == evidence[i].account
               && evidence[selected[k]].words == evidence[i].words;
      assert (selected + [e])[k] == selected[k];
    }
  }

  lemma SoundNext(circle: Circle, limits: Limits, selected: seq<nat>, excluded: set<string>, chars: nat, e: nat)
    requires UniqueIds(circle.evidence) && Positions(circle.evidence, selected) && NoRepeats(circle.evidence, selected)
    requires chars == CharsOf(circle, selected) <= limits.maxChars
    requires SeenIn(circle.evidence, selected, excluded)
    requires e < |circle.evidence| && e !in selected && !Repeats(circle.evidence, selected, e)
    requires chars + |circle.evidence[e].block| <= limits.maxChars && circle.evidence[e].id in excluded
    requires forall i | 0 <= i < |circle.evidence| && circle.evidence[i].id in excluded && i != e ::
               Refused(circle.evidence, limits, selected, chars, i)
    ensures Sound(circle, limits, selected + [e], excluded, chars + |circle.evidence[e].block|)
  {
    Appends(circle.evidence, selected, e);
    SeenNext(circle.evidence, selected, excluded, e);
    NoRepeatsNext(circle.evidence, selected, e);
    JustifiedNext(circle.evidence, limits, selected, excluded, chars, e);
  }

  lemma NoRepeatsNext(evidence: seq<Evidence>, selected: seq<nat>, e: nat)
    requires Positions(evidence, selected) && NoRepeats(evidence, selected)
    requires e < |evidence| && e !in selected && !Repeats(evidence, selected, e)
    ensures Positions(evidence, selected + [e]) && NoRepeats(evidence, selected + [e])
  {}

  lemma JustifiedNext(evidence: seq<Evidence>, limits: Limits, selected: seq<nat>, excluded: set<string>, chars: nat, e: nat)
    requires e < |evidence| && forall k | 0 <= k < |selected| :: selected[k] < |evidence|
    requires forall i | 0 <= i < |evidence| && evidence[i].id in excluded && i != e ::
               Refused(evidence, limits, selected, chars, i)
    ensures Justified(evidence, limits, selected + [e], chars + |evidence[e].block|, excluded)
  {
    forall i | 0 <= i < |evidence| && evidence[i].id in excluded
      ensures Refused(evidence, limits, selected + [e], chars + |evidence[e].block|, i)
    {
      if i == e {
        assert (selected + [e])[|selected|] == e;
      } else {
        StaysRefused(evidence, limits, selected, chars, i, e, |evidence[e].block|);
      }
    }
  }

  // ---------- Choosing ----------

  /** How the ranking orders two candidates, given what is selected already. */
  type Ranking = (seq<nat>, nat, nat) -> bool

  function Insert(ranking: Ranking, selected: seq<nat>, e: nat, sorted: seq<nat>): (r: seq<nat>)
    ensures forall x :: x in r <==> x == e || x in sorted
    ensures |r| == |sorted| + 1
  {
    if sorted == [] || ranking(selected, e, sorted[0]) then [e] + sorted
    else [sorted[0]] + Insert(ranking, selected, e, sorted[1..])
  }

  function Ranked(ranking: Ranking, selected: seq<nat>, candidates: seq<nat>): (r: seq<nat>)
    ensures forall x :: x in r <==> x in candidates
    ensures |r| == |candidates|
  {
    if candidates == [] then []
    else Insert(ranking, selected, candidates[|candidates| - 1], Ranked(ranking, selected, candidates[..|candidates| - 1]))
  }

  /** A ranking that compares any two candidates and is transitive, as a sort expects. */
  ghost predicate IsOrder(ranking: Ranking, selected: seq<nat>) {
    && (forall x, y :: ranking(selected, x, y) || ranking(selected, y, x))
    && (forall x, y, z :: ranking(selected, x, y) && ranking(selected, y, z) ==> ranking(selected, x, z))
  }

  ghost predicate InOrder(ranking: Ranking, selected: seq<nat>, s: seq<nat>) {
    forall i, j | 0 <= i < j < |s| :: ranking(selected, s[i], s[j])
  }

  lemma {:induction false} InsertedInOrder(ranking: Ranking, selected: seq<nat>, e: nat, sorted: seq<nat>)
    requires IsOrder(ranking, selected) && InOrder(ranking, selected, sorted)
    ensures InOrder(ranking, selected, Insert(ranking, selected, e, sorted))
  {
    if sorted != [] && !ranking(selected, e, sorted[0]) {
      var rest := Insert(ranking, selected, e, sorted[1..]);
      InsertedInOrder(ranking, selected, e, sorted[1..]);
      forall j | 0 <= j < |rest| ensures ranking(selected, sorted[0], rest[j]) { assert rest[j] in rest; }
    }
  }

  /** The candidates come in the order of the ranking. */
  lemma {:induction false} RankedInOrder(ranking: Ranking, selected: seq<nat>, candidates: seq<nat>)
    requires IsOrder(ranking, selected)
    ensures InOrder(ranking, selected, Ranked(ranking, selected, candidates))
    decreases |candidates|
  {
    if candidates != [] {
      var front, last := candidates[..|candidates| - 1], candidates[|candidates| - 1];
      RankedInOrder(ranking, selected, front);
      InsertedInOrder(ranking, selected, last, Ranked(ranking, selected, front));
    }
  }

  /** The positions below `n` of this account's items that were not looked at yet. */
  function Candidates(evidence: seq<Evidence>, account: string, excluded: set<string>, n: nat): (r: seq<nat>)
    requires n <= |evidence|
    ensures forall i: nat :: i in r <==> i < n && evidence[i].account == account && evidence[i].id !in excluded
  {
    if n == 0 then []
    else
      var front := Candidates(evidence, account, excluded, n - 1);
      if evidence[n - 1].account == account && evidence[n - 1].id !in excluded then front + [n - 1] else front
  }

  /** Fits the budget as it stands and repeats no one. */
  predicate Admissible(circle: Circle, limits: Limits, selected: seq<nat>, chars: nat, i: nat)
    requires i < |circle.evidence| && forall k | 0 <= k < |selected| :: selected[k] < |circle.evidence|
  {
    !Repeats(circle.evidence, selected, i) && chars + |circle.evidence[i].block| <= limits.maxChars
  }

  /** Goes down the ranked choices: the first admissible one is taken, those before it are passed over for good. */
  method TakeFirst(circle: Circle, limits: Limits, choices: seq<nat>, selected: seq<nat>, excluded: set<string>, chars: nat)
    returns (taken: Option<nat>, passed: set<string>, total: nat, ghost rank: nat)
    requires UniqueIds(circle.evidence) && Sound(circle, limits, selected, excluded, chars)
    requires forall k | 0 <= k < |choices| :: choices[k] < |circle.evidence| && circle.evidence[choices[k]].id !in excluded
    ensures excluded <= passed && rank <= |choices|
    ensures forall l | 0 <= l < rank :: !Admissible(circle, limits, selected, chars, choices[l])
    ensures taken.None? ==> Sound(circle, limits, selected, passed, total) && rank == |choices|
    ensures taken.None? ==> forall k | 0 <= k < |choices| :: circle.evidence[choices[k]].id in passed
    ensures taken.Some? ==>
              && rank < |choices| && choices[rank] == taken.value && Admissible(circle, limits, selected, chars, taken.value)
              && Sound(circle, limits, selected + [taken.value], passed, total)
  {
    var evidence := circle.evidence;
    passed, total := excluded, chars;
    for k := 0 to |choices|
      invariant Sound(circle, limits, selected, passed, total) && total == chars && excluded <= passed
      invariant forall l | 0 <= l < k :: evidence[choices[l]].id in passed
      invariant forall l | 0 <= l < k :: !Admissible(circle, limits, selected, chars, choices[l])
    {
      var e := choices[k];
      ghost var before := passed;
      passed := passed + {evidence[e].id};
      OnlyThisOne(evidence, before, e);
      if Admissible(circle, limits, selected, chars, e) {
        NotSelectedYet(evidence, selected, excluded, e);
        SoundNext(circle, limits, selected, passed, chars, e);
        total := chars + |evidence[e].block|;
        return Some(e), passed, total, k;
      }
    }
    return None, passed, total, |choices|;
  }

  lemma NotSelectedYet(evidence: seq<Evidence>, selected: seq<nat>, excluded: set<string>, e: nat)
    requires e < |evidence| && evidence[e].id !in excluded && forall k | 0 <= k < |selected| :: selected[k] < |evidence|
    requires SeenIn(evidence, selected, excluded)
    ensures e !in selected
  {
    forall l | 0 <= l < |selected| ensures selected[l] != e { assert evidence[selected[l]].id in excluded; }
  }

  /** Of this account's items that were not passed over, the first in the order of the ranking that is admissible. */
  ghost predicate Best(circle: Circle, limits: Limits, ranking: Ranking, account: string, selected: seq<nat>,
                       excluded: set<string>, e: nat)
    requires forall k | 0 <= k < |selected| :: selected[k] < |circle.evidence|
  {
    var choices := Ranked(ranking, selected, Candidates(circle.evidence, account, excluded, |circle.evidence|));
    exists rank :: 0 <= rank < |choices| && choices[rank] == e && FirstAdmissible(circle, limits, selected, choices, rank)
  }

  ghost predicate FirstAdmissible(circle: Circle, limits: Limits, selected: seq<nat>, choices: seq<nat>, rank: nat)
    requires rank < |choices| && forall k | 0 <= k < |selected| :: selected[k] < |circle.evidence|
  {
    && (forall l | 0 <= l <= rank :: choices[l] < |circle.evidence|)
    && Admissible(circle, limits, selected, CharsOf(circle, selected), choices[rank])
    && forall l | 0 <= l < rank :: !Admissible(circle, limits, selected, CharsOf(circle, selected), choices[l])
  }

  /** One friend's turn: the best ranked item that fits and is not a repeat, or nothing is left. */
  method TakeTurn(circle: Circle, limits: Limits, ranking: Ranking, account: string,
                  selected: seq<nat>, excluded: set<string>, chars: nat)
    returns (taken: Option<nat>, passed: set<string>, total: nat)
    requires UniqueIds(circle.evidence) && Sound(circle, limits, selected, excluded, chars)
    ensures excluded <= passed
    ensures taken.None? ==> Sound(circle, limits, selected, passed, total) && Exhausted(circle.evidence, passed, account)
    ensures taken.None? ==> forall i | 0 <= i < |circle.evidence| && circle.evidence[i].account == account ::
              circle.evidence[i].id in excluded || !Admissible(circle, limits, selected, chars, i)
    ensures taken.Some? ==>
              && taken.value < |circle.evidence| && circle.evidence[taken.value].account == account
              && circle.evidence[taken.value].id !in excluded
              && Sound(circle, limits, selected + [taken.value], passed, total)
              && Best(circle, limits, ranking, account, selected, excluded, taken.value)
  {
    var candidates := Candidates(circle.evidence, account, excluded, |circle.evidence|);
    var choices := Ranked(ranking, selected, candidates);
    forall k | 0 <= k < |choices|
      ensures choices[k] < |circle.evidence| && circle.evidence[choices[k]].id !in excluded
      ensures circle.evidence[choices[k]].account == account
    {
      assert choices[k] in choices;
    }
    ghost var rank;
    taken, passed, total, rank := TakeFirst(circle, limits, choices, selected, excluded, chars);
    if taken.None? {
      forall i | 0 <= i < |circle.evidence| && circle.evidence[i].account == account
        ensures circle.evidence[i].id in passed
        ensures circle.evidence[i].id in excluded || !Admissible(circle, limits, selected, chars, i)
      {
        if circle.evidence[i].id !in excluded { assert i in choices; }
      }
    } else {
      assert FirstAdmissible(circle, limits, selected, choices, rank);
    }
  }

  lemma OnlyThisOne(evidence: seq<Evidence>, passed: set<string>, e: nat)
    requires UniqueIds(evidence) && e < |evidence|
    ensures forall i | 0 <= i < |evidence| && evidence[i].id in passed + {evidence[e].id} :: i == e || evidence[i].id in passed
  {}

  // ---------- Rounds ----------

  /** Where a selection stood between two rounds: how many were chosen, and what had been passed over. */
  datatype Cut = Cut(count: nat, seen: set<string>)

  /** Every friend has had `r` turns. */
  ghost predicate FairAt(circle: Circle, limits: Limits, selected: seq<nat>, excluded: set<string>, r: nat) {
    && (forall k | 0 <= k < |selected| :: selected[k] < |circle.evidence|)
    && Sound(circle, limits, selected, excluded, CharsOf(circle, selected))
    && forall f | f in circle.friends :: HadTurns(circle.evidence, limits, selected, excluded, f, r)
  }

  /**
   Pick `k` was the best choice for its friend, given what was selected before, and what had been
   passed over by then (`marks[k]`) was passed over for good reason.
   */
  ghost predicate Chosen(circle: Circle, limits: Limits, ranking: Ranking, picked: seq<nat>, marks: seq<set<string>>, k: nat)
    requires k < |picked| == |marks| && forall l | 0 <= l < |picked| :: picked[l] < |circle.evidence|
  {
    && circle.evidence[picked[k]].id !in marks[k]
    && Justified(circle.evidence, limits, picked[..k], CharsOf(circle, picked[..k]), marks[k])
    && Best(circle, limits, ranking, circle.evidence[picked[k]].account, picked[..k], marks[k], picked[k])
  }

  /** Friend `a` is asked before friend `b`. */
  ghost predicate AskedBefore(friends: seq<string>, a: string, b: string) {
    && a in friends && b in friends
    && forall i, j | 0 <= i < |friends| && 0 <= j < |friends| && friends[i] == a && friends[j] == b :: i < j
  }

  /** One round goes through the friends in their order and starts from what the round before left. */
  ghost predicate IsRound(circle: Circle, picked: seq<nat>, marks: seq<set<string>>, from: Cut, to: Cut)
    requires |picked| == |marks| && forall l | 0 <= l < |picked| :: picked[l] < |circle.evidence|
  {
    && from.count <= to.count <= |picked| && from.seen <= to.seen
    && (forall k | from.count <= k < to.count ::
          circle.evidence[picked[k]].account in circle.friends && from.seen <= marks[k] <= to.seen)
    && forall k, l | from.count <= k < l < to.count ::
         AskedBefore(circle.friends, circle.evidence[picked[k]].account, circle.evidence[picked[l]].account)
  }

  /** A whole selection, round by round: after the first `r` rounds every friend has had `r` turns. */
  ghost predicate TookTurns(circle: Circle, limits: Limits, ranking: Ranking, picked: seq<nat>, cuts: seq<Cut>,
                            marks: seq<set<string>>)
  {
    && |marks| == |picked| && (forall k | 0 <= k < |picked| :: picked[k] < |circle.evidence|)
    && cuts != [] && cuts[0] == Cut(0, {}) && cuts[|cuts| - 1].count == |picked|
    && (forall r | 0 <= r < |cuts| ::
          cuts[r].count <= |picked| && FairAt(circle, limits, picked[..cuts[r].count], cuts[r].seen, r))
    && (forall r | 0 < r < |cuts| :: IsRound(circle, picked, marks, cuts[r - 1], cuts[r]))
    && forall k | 0 <= k < |picked| :: Chosen(circle, limits, ranking, picked, marks, k)
  }

  lemma ChosenStays(circle: Circle, limits: Limits, ranking: Ranking, picked: seq<nat>, marks: seq<set<string>>,
                    picked': seq<nat>, marks': seq<set<string>>, k: nat)
    requires picked <= picked' && marks <= marks' && |picked| == |marks| && |picked'| == |marks'| && k < |picked|
    requires forall l | 0 <= l < |picked'| :: picked'[l] < |circle.evidence|
    requires Chosen(circle, limits, ranking, picked, marks, k)
    ensures Chosen(circle, limits, ranking, picked', marks', k)
  {
    assert picked'[..k] == picked[..k];
  }

  lemma RoundStays(circle: Circle, picked: seq<nat>, marks: seq<set<string>>, picked': seq<nat>, marks': seq<set<string>>,
                   from: Cut, to: Cut)
    requires picked <= picked' && marks <= marks' && |picked| == |marks| && |picked'| == |marks'|
    requires forall l | 0 <= l < |picked'| :: picked'[l] < |circle.evidence|
    requires IsRound(circle, picked, marks, from, to)
    ensures IsRound(circle, picked', marks', from, to)
  {
    forall k | from.count <= k < to.count ensures picked'[k] == picked[k] && marks'[k] == marks[k] {}
  }

  /** One round so far: the friends before `n` have been asked, in their order. */
  ghost predicate Asked(circle: Circle, limits: Limits, ranking: Ranking, picked: seq<nat>, marks: seq<set<string>>,
                        from: Cut, passed: set<string>, n: nat)
    requires n <= |circle.friends|
  {
    && |picked| == |marks| && (forall l | 0 <= l < |picked| :: picked[l] < |circle.evidence|)
    && IsRound(circle, picked, marks, from, Cut(|picked|, passed))
    && (forall k | from.count <= k < |picked| ::
          Chosen(circle, limits, ranking, picked, marks, k) && circle.evidence[picked[k]].account in circle.friends[..n])
  }

  /** A further round that every friend had a turn in. */
  lemma TurnsGoOn(circle: Circle, limits: Limits, ranking: Ranking, picked: seq<nat>, cuts: seq<Cut>, marks: seq<set<string>>,
                  picked': seq<nat>, marks': seq<set<string>>, seen: set<string>)
    requires TookTurns(circle, limits, ranking, picked, cuts, marks)
    requires picked <= picked' && marks <= marks' && |picked'| == |marks'|
    requires FairAt(circle, limits, picked', seen, |cuts|)
    requires Asked(circle, limits, ranking, picked', marks', cuts[|cuts| - 1], seen, |circle.friends|)
    ensures TookTurns(circle, limits, ranking, picked', cuts + [Cut(|picked'|, seen)], marks')
  {
    var all := cuts + [Cut(|picked'|, seen)];
    forall r | 0 <= r < |all| ensures all[r].count <= |picked'| && FairAt(circle, limits, picked'[..all[r].count], all[r].seen, r) {
      if r < |cuts| { assert picked'[..cuts[r].count] == picked[..cuts[r].count]; } else { assert picked'[..|picked'|] == picked'; }
    }
    forall r | 0 < r < |all| ensures IsRound(circle, picked', marks', all[r - 1], all[r]) {
      if r < |cuts| { RoundStays(circle, picked, marks, picked', marks', cuts[r - 1], cuts[r]); }
    }
    forall k | 0 <= k < |picked'| ensures Chosen(circle, limits, ranking, picked', marks', k) {
      if k < |picked| { ChosenStays(circle, limits, ranking, picked, marks, picked', marks', k); }
    }
  }

  lemma AskedNext(circle: Circle, limits: Limits, ranking: Ranking, picked: seq<nat>, marks: seq<set<string>>,
                  from: Cut, passed: set<string>, n: nat, e: nat, passed': set<string>)
    requires DistinctFriends(circle.friends) && n < |circle.friends| && passed <= passed' && e < |circle.evidence|
    requires Asked(circle, limits, ranking, picked, marks, from, passed, n)
    requires circle.evidence[e].account == circle.friends[n] && circle.evidence[e].id !in passed
    requires Best(circle, limits, ranking, circle.friends[n], picked, passed, e)
    requires Justified(circle.evidence, limits, picked, CharsOf(circle, picked), passed)
    ensures Asked(circle, limits, ranking, picked + [e], marks + [passed], from, passed', n + 1)
  {
    var picked', marks' := picked + [e], marks + [passed];
    assert picked'[..|picked|] == picked;
    forall k | from.count <= k < |picked'|
      ensures Chosen(circle, limits, ranking, picked', marks', k) && circle.evidence[picked'[k]].account in circle.friends[..n + 1]
      ensures from.seen <= marks'[k] <= passed'
    {
      if k < |picked| {
        ChosenStays(circle, limits, ranking, picked, marks, picked', marks', k);
        InLongerPrefix(circle.friends, circle.evidence[picked[k]].account, n);
      } else {
        assert circle.friends[..n + 1][n] == circle.friends[n];
      }
    }
    forall k, l | from.count <= k < l < |picked'|
      ensures AskedBefore(circle.friends, circle.evidence[picked'[k]].account, circle.evidence[picked'[l]].account)
    {
      if l == |picked| { AskedEarlier(circle.friends, circle.evidence[picked[k]].account, n); }
    }
  }

  lemma InLongerPrefix(friends: seq<string>, f: string, n: nat)
    requires n < |friends| && f in friends[..n]
    ensures f in friends[..n + 1]
  {
    var i :| 0 <= i < n && friends[..n][i] == f;
    assert friends[..n + 1][i] == f;
  }

  lemma AskedEarlier(friends: seq<string>, f: string, n: nat)
    requires DistinctFriends(friends) && n < |friends| && f in friends[..n]
    ensures AskedBefore(friends, f, friends[n])
  {
    var i :| 0 <= i < n && friends[..n][i] == f;
    assert friends[i] == f;
  }

  lemma AskedInVain(circle: Circle, limits: Limits, ranking: Ranking, picked: seq<nat>, marks: seq<set<string>>,
                    from: Cut, passed: set<string>, n: nat, passed': set<string>)
    requires n < |circle.friends| && passed <= passed' && Asked(circle, limits, ranking, picked, marks, from, passed, n)
    ensures Asked(circle, limits, ranking, picked, marks, from, passed', n + 1)
  {
    forall k | from.count <= k < |picked| ensures circle.evidence[picked[k]].account in circle.friends[..n + 1] {
      InLongerPrefix(circle.friends, circle.evidence[picked[k]].account, n);
    }
  }

  /** The friends before `k` have had their turn in round `r`, the others not yet. */
  ghost predicate TurnsAt(circle: Circle, limits: Limits, selected: seq<nat>, excluded: set<string>, k: nat, r: nat)
    requires forall l | 0 <= l < |selected| :: selected[l] < |circle.evidence|
  {
    forall j | 0 <= j < |circle.friends| ::
      HadTurns(circle.evidence, limits, selected, excluded, circle.friends[j], if j < k then r + 1 else r)
  }

  /** No friend before `k` can take any more. */
  ghost predicate Done(circle: Circle, limits: Limits, selected: seq<nat>, excluded: set<string>, k: nat)
    requires k <= |circle.friends| && forall l | 0 <= l < |selected| :: selected[l] < |circle.evidence|
  {
    forall j | 0 <= j < k ::
      || Held(circle.evidence, selected, circle.friends[j]) == limits.perFriend
      || Exhausted(circle.evidence, excluded, circle.friends[j])
  }

  lemma TurnTaken(circle: Circle, limits: Limits, selected: seq<nat>, excluded: set<string>, passed: set<string>,
                  k: nat, r: nat, e: nat)
    requires DistinctFriends(circle.friends) && k < |circle.friends| && excluded <= passed && e < |circle.evidence|
    requires Positions(circle.evidence, selected) && TurnsAt(circle, limits, selected, excluded, k, r)
    requires circle.evidence[e].account == circle.friends[k]
    requires Held(circle.evidence, selected, circle.friends[k]) < limits.perFriend
    requires !Exhausted(circle.evidence, excluded, circle.friends[k])
    ensures (forall l | 0 <= l < |selected + [e]| :: (selected + [e])[l] < |circle.evidence|)
            && TurnsAt(circle, limits, selected + [e], passed, k + 1, r)
  {
    Appends(circle.evidence, selected, e);
    forall j | 0 <= j < |circle.friends|
      ensures HadTurns(circle.evidence, limits, selected + [e], passed, circle.friends[j], if j < k + 1 then r + 1 else r)
    {
      assert HadTurns(circle.evidence, limits, selected, excluded, circle.friends[j], if j < k then r + 1 else r);
      if j != k { assert circle.friends[j] != circle.friends[k]; }
    }
  }

  lemma TurnPassedUp(circle: Circle, limits: Limits, selected: seq<nat>, excluded: set<string>, passed: set<string>, k: nat, r: nat)
    requires DistinctFriends(circle.friends) && k < |circle.friends| && excluded <= passed
    requires Positions(circle.evidence, selected) && TurnsAt(circle, limits, selected, excluded, k, r)
    requires Held(circle.evidence, selected, circle.friends[k]) == limits.perFriend
             || Exhausted(circle.evidence, passed, circle.friends[k])
    ensures TurnsAt(circle, limits, selected, passed, k + 1, r)
    ensures Done(circle, limits, selected, excluded, k) ==> Done(circle, limits, selected, passed, k + 1)
  {
    forall j | 0 <= j < |circle.friends|
      ensures HadTurns(circle.evidence, limits, selected, passed, circle.friends[j], if j < k + 1 then r + 1 else r)
    {
      assert HadTurns(circle.evidence, limits, selected, excluded, circle.friends[j], if j < k then r + 1 else r);
    }
  }

  /** What a round keeps while it goes from friend to friend. */
  ghost predicate Midway(circle: Circle, limits: Limits, ranking: Ranking, from: Cut, picked: seq<nat>, passed: set<string>,
                         chars: nat, marks: seq<set<string>>, k: nat, r: nat)
  {
    && k <= |circle.friends| && Sound(circle, limits, picked, passed, chars)
    && Asked(circle, limits, ranking, picked, marks, from, passed, k)
    && TurnsAt(circle, limits, picked, passed, k, r)
    && (|picked| == from.count ==> Done(circle, limits, picked, passed, k))
  }

  /** Asks the next friend, who takes the best choice unless the cap is reached or nothing is left. */
  method AskFriend(circle: Circle, limits: Limits, ranking: Ranking, selected: seq<nat>, excluded: set<string>, chars: nat,
                   k: nat, ghost from: Cut, ghost r: nat, ghost marks: seq<set<string>>)
    returns (picked: seq<nat>, passed: set<string>, total: nat, ghost marked: seq<set<string>>)
    requires UniqueIds(circle.evidence) && DistinctFriends(circle.friends) && k < |circle.friends|
    requires Midway(circle, limits, ranking, from, selected, excluded, chars, marks, k, r)
    ensures Midway(circle, limits, ranking, from, picked, passed, total, marked, k + 1, r)
    ensures selected <= picked && marks <= marked
  {
    picked, passed, total, marked := selected, excluded, chars, marks;
    if Held(circle.evidence, selected, circle.friends[k]) >= limits.perFriend {
      assert HadTurns(circle.evidence, limits, selected, excluded, circle.friends[k], r);
      TurnPassedUp(circle, limits, selected, excluded, excluded, k, r);
      AskedInVain(circle, limits, ranking, selected, marks, from, excluded, k, excluded);
      return;
    }
    var taken;
    taken, passed, total := TakeTurn(circle, limits, ranking, circle.friends[k], selected, excluded, chars);
    if taken.None? {
      TurnPassedUp(circle, limits, selected, excluded, passed, k, r);
      AskedInVain(circle, limits, ranking, selected, marks, from, excluded, k, passed);
    } else {
      TurnTaken(circle, limits, selected, excluded, passed, k, r, taken.value);
      AskedNext(circle, limits, ranking, selected, marks, from, excluded, k, taken.value, passed);
      picked, marked := selected + [taken.value], marks + [excluded];
    }
  }

  /** One round: every friend below the cap gets a turn. */
  method PlayRound(circle: Circle, limits: Limits, ranking: Ranking, selected: seq<nat>, excluded: set<string>, chars: nat,
                   ghost r: nat, ghost marks: seq<set<string>>)
    returns (picked: seq<nat>, passed: set<string>, total: nat, added: bool, ghost marked: seq<set<string>>)
    requires UniqueIds(circle.evidence) && DistinctFriends(circle.friends) && |marks| == |selected|
    requires FairAt(circle, limits, selected, excluded, r) && chars == CharsOf(circle, selected)
    ensures FairAt(circle, limits, picked, passed, r + 1) && total == CharsOf(circle, picked)
    ensures selected <= picked && marks <= marked
    ensures Asked(circle, limits, ranking, picked, marked, Cut(|selected|, excluded), passed, |circle.friends|)
    ensures added <==> |picked| > |selected|
    ensures !added ==> Done(circle, limits, picked, passed, |circle.friends|)
  {
    picked, passed, total, marked := selected, excluded, chars, marks;
    for k := 0 to |circle.friends|
      invariant Midway(circle, limits, ranking, Cut(|selected|, excluded), picked, passed, total, marked, k, r)
      invariant selected <= picked && marks <= marked
    {
      picked, passed, total, marked :=
        AskFriend(circle, limits, ranking, picked, passed, total, k, Cut(|selected|, excluded), r, marked);
    }
    added := |picked| > |selected|;
    forall f | f in circle.friends ensures HadTurns(circle.evidence, limits, picked, passed, f, r + 1) {
      var j :| 0 <= j < |circle.friends| && circle.friends[j] == f;
    }
  }

  // ---------- The whole selection ----------

  /** Nothing that could still be chosen was left behind. */
  ghost predicate Maximal(circle: Circle, limits: Limits, selected: seq<nat>, chars: nat)
    requires forall k | 0 <= k < |selected| :: selected[k] < |circle.evidence|
  {
    forall i | 0 <= i < |circle.evidence| && circle.evidence[i].account in circle.friends && i !in selected ::
      || Held(circle.evidence, selected, circle.evidence[i].account) == limits.perFriend
      || Repeats(circle.evidence, selected, i)
      || chars + |circle.evidence[i].block| > limits.maxChars
  }

  lemma DoneIsMaximal(circle: Circle, limits: Limits, selected: seq<nat>, excluded: set<string>, chars: nat)
    requires Sound(circle, limits, selected, excluded, chars) && Done(circle, limits, selected, excluded, |circle.friends|)
    ensures Maximal(circle, limits, selected, chars)
  {
    forall i | 0 <= i < |circle.evidence| && circle.evidence[i].account in circle.friends && i !in selected
      ensures Held(circle.evidence, selected, circle.evidence[i].account) == limits.perFriend
              || Repeats(circle.evidence, selected, i) || chars + |circle.evidence[i].block| > limits.maxChars
    {
      var j :| 0 <= j < |circle.friends| && circle.friends[j] == circle.evidence[i].account;
      if Exhausted(circle.evidence, excluded, circle.friends[j]) {
        assert Refused(circle.evidence, limits, selected, chars, i);
      }
    }
  }

  /** The friend has evidence, and none of it is selected. */
  predicate Missing(evidence: seq<Evidence>, selected: seq<nat>, account: string)
    requires forall k | 0 <= k < |selected| :: selected[k] < |evidence|
  {
    (exists i | 0 <= i < |evidence| :: evidence[i].account == account) && Held(evidence, selected, account) == 0
  }

  /** A friend who got nothing has nothing that would fit. */
  lemma MissingMeansTooBig(circle: Circle, limits: Limits, selected: seq<nat>, chars: nat, account: string)
    requires (forall k | 0 <= k < |selected| :: selected[k] < |circle.evidence|) && Maximal(circle, limits, selected, chars)
    requires account in circle.friends && Missing(circle.evidence, selected, account) && limits.perFriend > 0
    ensures forall i | 0 <= i < |circle.evidence| && circle.evidence[i].account == account ::
              chars + |circle.evidence[i].block| > limits.maxChars
  {
    forall i | 0 <= i < |circle.evidence| && circle.evidence[i].account == account
      ensures chars + |circle.evidence[i].block| > limits.maxChars
    {
      HeldNothing(circle.evidence, selected, account);
      assert i !in selected && !Repeats(circle.evidence, selected, i);
    }
  }

  lemma {:induction false} HeldNothing(evidence: seq<Evidence>, selected: seq<nat>, account: string)
    requires (forall k | 0 <= k < |selected| :: selected[k] < |evidence|) && Held(evidence, selected, account) == 0
    ensures forall k | 0 <= k < |selected| :: evidence[selected[k]].account != account
  {
    if selected != [] { HeldNothing(evidence, selected[..|selected| - 1], account); }
  }

  lemma NobodyAskedYet(circle: Circle, limits: Limits, ranking: Ranking)
    requires |circle.head| + |circle.tail| <= limits.maxChars
    ensures TookTurns(circle, limits, ranking, [], [Cut(0, {})], []) && FairAt(circle, limits, [], {}, 0)
  {}

  /** Rounds until one adds nothing. */
  method PlayAll(circle: Circle, limits: Limits, ranking: Ranking)
    returns (selected: seq<nat>, chars: nat, ghost cuts: seq<Cut>, ghost marks: seq<set<string>>)
    requires UniqueIds(circle.evidence) && DistinctFriends(circle.friends)
    requires |circle.head| + |circle.tail| <= limits.maxChars
    ensures TookTurns(circle, limits, ranking, selected, cuts, marks)
    ensures chars == CharsOf(circle, selected) <= limits.maxChars && Maximal(circle, limits, selected, chars)
  {
    var seen: set<string> := {};
    var added := true;
    selected, chars, cuts, marks := [], |circle.head| + |circle.tail|, [Cut(0, {})], [];
    NobodyAskedYet(circle, limits, ranking);
    while added
      invariant TookTurns(circle, limits, ranking, selected, cuts, marks) && cuts[|cuts| - 1] == Cut(|selected|, seen)
      invariant chars == CharsOf(circle, selected) && FairAt(circle, limits, selected, seen, |cuts| - 1)
      invariant !added ==> Done(circle, limits, selected, seen, |circle.friends|)
      decreases |circle.evidence| - |selected|, added
    {
      ghost var before, marked := selected, marks;
      selected, seen, chars, added, marks := PlayRound(circle, limits, ranking, selected, seen, chars, |cuts| - 1, marks);
      TurnsGoOn(circle, limits, ranking, before, cuts, marked, selected, marks, seen);
      cuts := cuts + [Cut(|selected|, seen)];
      DistinctFit(selected, |circle.evidence|);
    }
    DoneIsMaximal(circle, limits, selected, seen, chars);
  }

  /**
   Rounds until one adds nothing. What they chose (`played`) fits the budget, repeats no one,
   leaves nothing behind that could still be chosen, and gave every friend one turn a round. It is
   the result if it speaks for every friend who has evidence; otherwise the friend that is named
   has only evidence that is too big for what is left.
   */
  method Select(circle: Circle, limits: Limits, ranking: Ranking)
    returns (r: Result<seq<nat>, SelectError>, chars: nat,
             ghost played: seq<nat>, ghost cuts: seq<Cut>, ghost marks: seq<set<string>>)
    requires UniqueIds(circle.evidence) && DistinctFriends(circle.friends)
    ensures r == Err(DraftTooLong) <==> |circle.head| + |circle.tail| >= limits.maxChars
    ensures r != Err(DraftTooLong) ==>
              && TookTurns(circle, limits, ranking, played, cuts, marks)
              && chars == CharsOf(circle, played) && Maximal(circle, limits, played, chars)
              && (r == Err(NothingFits) <==> played == [])
    ensures r.Ok? ==> r.value == played && forall f | f in circle.friends :: !Missing(circle.evidence, r.value, f)
    ensures r.Ok? ==>
              && RenderPrompt(circle, Ids(circle.evidence, r.value)).Ok?
              && |RenderPrompt(circle, Ids(circle.evidence, r.value)).value| == chars <= limits.maxChars
    ensures r.Err? && r.error.Unrepresented? ==>
              && r.error.account in circle.friends && Missing(circle.evidence, played, r.error.account)
              && (limits.perFriend > 0 ==>
                    forall i | 0 <= i < |circle.evidence| && circle.evidence[i].account == r.error.account ::
                      chars + |circle.evidence[i].block| > limits.maxChars)
    ensures r.Err? ==> r.error == DraftTooLong || r.error == NothingFits || r.error.Unrepresented?
  {
    chars, played, cuts, marks := |circle.head| + |circle.tail|, [], [Cut(0, {})], [];
    if chars >= limits.maxChars { return Err(DraftTooLong), chars, played, cuts, marks; }
    var selected;
    selected, chars, cuts, marks := PlayAll(circle, limits, ranking);
    played := selected;
    if selected == [] { return Err(NothingFits), chars, played, cuts, marks; }
    for k := 0 to |circle.friends|
      invariant forall j | 0 <= j < k :: !Missing(circle.evidence, selected, circle.friends[j])
    {
      if Missing(circle.evidence, selected, circle.friends[k]) {
        if limits.perFriend > 0 { MissingMeansTooBig(circle, limits, selected, chars, circle.friends[k]); }
        return Err(Unrepresented(circle.friends[k])), chars, played, cuts, marks;
      }
    }
    NotebookLength(circle.evidence, selected);
    return Ok(selected), chars, played, cuts, marks;
  }

  // ---------- Recipes ----------

  datatype Trial = Trial(ids: seq<string>, score: real, chars: nat)

  /** The first trial of the highest score. */
  method BestTrial(trials: seq<Trial>) returns (best: nat)
    requires trials != []
    ensures best < |trials|
    ensures forall k | 0 <= k < |trials| :: trials[k].score <= trials[best].score
    ensures forall k | 0 <= k < best :: trials[k].score < trials[best].score
  {
    best := 0;
    for k := 1 to |trials|
      invariant best < k
      invariant forall j | 0 <= j < k :: trials[j].score <= trials[best].score
      invariant forall j | 0 <= j < best :: trials[j].score < trials[best].score
    {
      if trials[k].score > trials[best].score { best := k; }
    }
  }
}
