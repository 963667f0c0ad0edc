/** Greedy sampling that reserves an excerpt for every friend first. */
module Sampling {
  import opened Wrappers
  import opened Counting
  import opened EvidenceSelection

  datatype Budget = Budget(maxChars: nat, contextChars: nat, perAuthor: nat)

  predicate IsTarget(circle: Circle, i: nat)
    requires i < |circle.evidence|
  {
    circle.evidence[i].account in circle.friends
  }

  /** The characters that authors who were not invited take up. */
  function ContextChars(circle: Circle, selected: seq<nat>): nat
    requires forall k | 0 <= k < |selected| :: selected[k] < |circle.evidence|
  {
    if selected == [] then 0
    else
      var last := selected[|selected| - 1];
      ContextChars(circle, selected[..|selected| - 1])
      + if IsTarget(circle, last) then 0 else |circle.evidence[last].block|
  }

  predicate SameText(evidence: seq<Evidence>, selected: seq<nat>, i: nat)
    requires i < |evidence| && forall k | 0 <= k < |selected| :: selected[k] < |evidence|
  {
    exists k | 0 <= k < |selected| ::
      evidence[selected[k]].account == evidence[i].account && evidence[selected[k]].digest == evidence[i].digest
  }

  /** The first invited friend who has evidence but no excerpt yet. */
  function FirstMissing(circle: Circle, selected: seq<nat>, n: nat): (r: Option<nat>)
    requires n <= |circle.friends| && forall k | 0 <= k < |selected| :: selected[k] < |circle.evidence|
    ensures r.Some? ==> r.value < n && Missing(circle.evidence, selected, circle.friends[r.value])
    ensures r.Some? ==> forall k | 0 <= k < r.value :: !Missing(circle.evidence, selected, circle.friends[k])
    ensures r.None? ==> forall k | 0 <= k < n :: !Missing(circle.evidence, selected, circle.friends[k])
  {
    if n == 0 then None
    else
      var front := FirstMissing(circle, selected, n - 1);
      if front.Some? then front
      else if Missing(circle.evidence, selected, circle.friends[n - 1]) then Some(n - 1) else None
  }

  /** This item breaks a limit that only gets tighter. */
  predicate TooBig(circle: Circle, budget: Budget, selected: seq<nat>, chars: nat, i: nat)
    requires i < |circle.evidence| && forall k | 0 <= k < |selected| :: selected[k] < |circle.evidence|
  {
    || chars + |circle.evidence[i].block| > budget.maxChars
    || (!IsTarget(circle, i) && ContextChars(circle, selected) + |circle.evidence[i].block| > budget.contextChars)
  }

  /** Each pick made while some friend was still missing is a pick for the first of them. */
  ghost predicate ReservedFirst(circle: Circle, selected: seq<nat>)
    requires forall k | 0 <= k < |selected| :: selected[k] < |circle.evidence|
  {
    forall k | 0 <= k < |selected| ::
      var missing := MissingAt(circle, selected, k);
      missing.Some? ==> circle.evidence[selected[k]].account == circle.friends[missing.value]
  }

  /** The friend who was missing first when `k` items were selected. */
  function MissingAt(circle: Circle, selected: seq<nat>, k: nat): (r: Option<nat>)
    requires k <= |selected| && forall l | 0 <= l < |selected| :: selected[l] < |circle.evidence|
    ensures r.Some? ==> r.value < |circle.friends|
  {
    FirstMissing(circle, selected[..k], |circle.friends|)
  }

  ghost predicate RejectedForGood(circle: Circle, budget: Budget, selected: seq<nat>, chars: nat, rejected: set<string>)
    requires forall k | 0 <= k < |selected| :: selected[k] < |circle.evidence|
  {
    forall i | 0 <= i < |circle.evidence| && circle.evidence[i].id in rejected :: TooBig(circle, budget, selected, chars, i)
  }

  ghost predicate WithinBudget(circle: Circle, budget: Budget, selected: seq<nat>, chars: nat)
    requires forall k | 0 <= k < |selected| :: selected[k] < |circle.evidence|
  {
    && chars == CharsOf(circle, selected) <= budget.maxChars
    && ContextChars(circle, selected) <= budget.contextChars
    && forall account :: Held(circle.evidence, selected, account) <= budget.perAuthor
  }

  ghost predicate Sound(circle: Circle, budget: Budget, selected: seq<nat>, chars: nat, rejected: set<string>) {
    && Positions(circle.evidence, selected) && WithinBudget(circle, budget, selected, chars)
    && RejectedForGood(circle, budget, selected, chars, rejected) && ReservedFirst(circle, selected)
  }

  /** What can still be chosen now: not rejected, below the cap, no repeat, and of the missing friend if there is one. */
  predicate Eligible(circle: Circle, budget: Budget, missing: Option<nat>, selected: seq<nat>, rejected: set<string>, i: nat)
    requires i < |circle.evidence| && forall k | 0 <= k < |selected| :: selected[k] < |circle.evidence|
    requires missing.Some? ==> missing.value < |circle.friends|
  {
    var e := circle.evidence[i];
    && e.id !in rejected && i !in selected
    && (missing.Some? ==> e.account == circle.friends[missing.value])
    && Held(circle.evidence, selected, e.account) < budget.perAuthor
    && !SameText(circle.evidence, selected, i)
  }

  function Choices(circle: Circle, budget: Budget, missing: Option<nat>, selected: seq<nat>, rejected: set<string>, n: nat)
    : (r: seq<nat>)
    requires n <= |circle.evidence| && forall k | 0 <= k < |selected| :: selected[k] < |circle.evidence|
    requires missing.Some? ==> missing.value < |circle.friends|
    ensures forall i: nat :: i in r <==> i < n && Eligible(circle, budget, missing, selected, rejected, i)
  {
    if n == 0 then []
    else
      var front := Choices(circle, budget, missing, selected, rejected, n - 1);
      if Eligible(circle, budget, missing, selected, rejected, n - 1) then front + [n - 1] else front
  }

  lemma ContextAppends(circle: Circle, selected: seq<nat>, e: nat)
    requires e < |circle.evidence| && forall k | 0 <= k < |selected| :: selected[k] < |circle.evidence|
    ensures ContextChars(circle, selected + [e])
            == ContextChars(circle, selected) + if IsTarget(circle, e) then 0 else |circle.evidence[e].block|
  {
    assert (selected + [e])[..|selected|] == selected;
  }

  lemma ReservedNext(circle: Circle, selected: seq<nat>, e: nat)
    requires e < |circle.evidence| && forall k | 0 <= k < |selected| :: selected[k] < |circle.evidence|
    requires ReservedFirst(circle, selected)
    requires var missing := FirstMissing(circle, selected, |circle.friends|);
             missing.Some? ==> circle.evidence[e].account == circle.friends[missing.value]
    ensures ReservedFirst(circle, selected + [e])
  {
    var picked := selected + [e];
    forall k | 0 <= k < |picked|
      ensures var missing := MissingAt(circle, picked, k);
              missing.Some? ==> circle.evidence[picked[k]].account == circle.friends[missing.value]
    {
      if k < |selected| {
        assert picked[..k] == selected[..k];
      } else {
        assert picked[..k] == selected;
      }
    }
  }

  lemma {:induction false} RepresentedStays(circle: Circle, selected: seq<nat>, k: nat, l: nat, account: string)
    requires (forall m | 0 <= m < |selected| :: selected[m] < |circle.evidence|) && k <= l <= |selected|
    requires !Missing(circle.evidence, selected[..k], account)
    ensures !Missing(circle.evidence, selected[..l], account)
    decreases l - k
  {
    if k < l {
      Appends(circle.evidence, selected[..k], selected[k]);
      assert selected[..k + 1] == selected[..k] + [selected[k]];
      RepresentedStays(circle, selected, k + 1, l, account);
    }
  }

  /** Who is missing later was missing earlier. */
  lemma MissingBefore(circle: Circle, selected: seq<nat>, k: nat, l: nat)
    requires (forall m | 0 <= m < |selected| :: selected[m] < |circle.evidence|) && k <= l <= |selected|
    requires MissingAt(circle, selected, l).Some?
    ensures MissingAt(circle, selected, k).Some?
    ensures MissingAt(circle, selected, k).value <= MissingAt(circle, selected, l).value
  {
    var later := circle.friends[MissingAt(circle, selected, l).value];
    if !Missing(circle.evidence, selected[..k], later) { RepresentedStays(circle, selected, k, l, later); }
  }

  /** A pick for the first missing friend moves on to a later one. */
  lemma MissingMovesOn(circle: Circle, selected: seq<nat>, k: nat)
    requires (forall m | 0 <= m < |selected| :: selected[m] < |circle.evidence|) && ReservedFirst(circle, selected)
    requires k < |selected| && MissingAt(circle, selected, k + 1).Some?
    ensures MissingAt(circle, selected, k).Some?
    ensures MissingAt(circle, selected, k).value < MissingAt(circle, selected, k + 1).value
  {
    MissingBefore(circle, selected, k, k + 1);
    Appends(circle.evidence, selected[..k], selected[k]);
    assert selected[..k + 1] == selected[..k] + [selected[k]];
  }

  /** The first `m` picks are one for each friend who has evidence, in the order of the friends. */
  ghost predicate Reservations(circle: Circle, selected: seq<nat>, m: nat)
    requires m <= |selected| && forall l | 0 <= l < |selected| :: selected[l] < |circle.evidence|
  {
    && (forall k | 0 <= k < m ::
          && MissingAt(circle, selected, k).Some?
          && circle.evidence[selected[k]].account == circle.friends[MissingAt(circle, selected, k).value])
    && (forall k | 0 < k < m :: MissingAt(circle, selected, k - 1).value < MissingAt(circle, selected, k).value)
  }

  ghost predicate AllRepresented(circle: Circle, selected: seq<nat>)
    requires forall l | 0 <= l < |selected| :: selected[l] < |circle.evidence|
  {
    forall f | f in circle.friends :: !Missing(circle.evidence, selected, f)
  }

  lemma NobodyMissing(circle: Circle, selected: seq<nat>)
    requires forall l | 0 <= l < |selected| :: selected[l] < |circle.evidence|
    ensures FirstMissing(circle, selected, |circle.friends|).None? ==> AllRepresented(circle, selected)
  {
    forall f | f in circle.friends && FirstMissing(circle, selected, |circle.friends|).None?
      ensures !Missing(circle.evidence, selected, f)
    {
      var j :| 0 <= j < |circle.friends| && circle.friends[j] == f;
    }
  }

  lemma ReservationsGrow(circle: Circle, selected: seq<nat>, m: nat)
    requires (forall l | 0 <= l < |selected| :: selected[l] < |circle.evidence|) && ReservedFirst(circle, selected)
    requires m < |selected| && Reservations(circle, selected, m) && MissingAt(circle, selected, m).Some?
    ensures Reservations(circle, selected, m + 1)
  {
    if m > 0 { MissingMovesOn(circle, selected, m - 1); }
  }

  /**
   The picks begin with one for each friend who has evidence, in the order of the friends; not
   before all of these have one does a pick go to anybody else.
   */
  lemma ReservationsComeFirst(circle: Circle, selected: seq<nat>) returns (m: nat)
    requires (forall l | 0 <= l < |selected| :: selected[l] < |circle.evidence|) && ReservedFirst(circle, selected)
    ensures m <= |selected| && Reservations(circle, selected, m)
    ensures m < |selected| ==> AllRepresented(circle, selected[..m])
  {
    m := 0;
    while m < |selected| && MissingAt(circle, selected, m).Some?
      invariant m <= |selected| && Reservations(circle, selected, m)
    {
      ReservationsGrow(circle, selected, m);
      m := m + 1;
    }
    if m < |selected| { NobodyMissing(circle, selected[..m]); }
  }

  lemma PickIsSound(circle: Circle, budget: Budget, selected: seq<nat>, chars: nat, rejected: set<string>, missing: Option<nat>, e: nat)
    requires Sound(circle, budget, selected, chars, rejected) && e < |circle.evidence|
    requires missing == FirstMissing(circle, selected, |circle.friends|)
    requires Eligible(circle, budget, missing, selected, {}, e) && !TooBig(circle, budget, selected, chars, e)
    ensures Sound(circle, budget, selected + [e], chars + |circle.evidence[e].block|, rejected)
  {
    Appends(circle.evidence, selected, e);
    ContextAppends(circle, selected, e);
    ReservedNext(circle, selected, e);
    forall i | 0 <= i < |circle.evidence| && circle.evidence[i].id in rejected
      ensures TooBig(circle, budget, selected + [e], chars + |circle.evidence[e].block|, i)
    {
      assert TooBig(circle, budget, selected, chars, i);
    }
  }

  /** Goes down the ranked choices: the first that fits is taken, those before it are rejected for good. */
  method PickFirst(circle: Circle, budget: Budget, choices: seq<nat>, missing: Option<nat>, selected: seq<nat>, chars: nat,
                   rejected: set<string>) returns (taken: Option<nat>, refused: set<string>, ghost rank: nat)
    requires UniqueIds(circle.evidence) && Sound(circle, budget, selected, chars, rejected)
    requires missing == FirstMissing(circle, selected, |circle.friends|)
    requires forall k | 0 <= k < |choices| ::
               choices[k] < |circle.evidence| && Eligible(circle, budget, missing, selected, rejected, choices[k])
    ensures Sound(circle, budget, selected, chars, refused) && rejected <= refused && rank <= |choices|
    ensures forall l | 0 <= l < rank :: TooBig(circle, budget, selected, chars, choices[l])
    ensures taken.Some? ==>
              && rank < |choices| && choices[rank] == taken.value && !TooBig(circle, budget, selected, chars, taken.value)
              && Sound(circle, budget, selected + [taken.value], chars + |circle.evidence[taken.value].block|, refused)
    ensures taken.None? ==> forall k | 0 <= k < |choices| :: circle.evidence[choices[k]].id in refused
  {
    refused := rejected;
    for k := 0 to |choices|
      invariant Sound(circle, budget, selected, chars, refused) && rejected <= refused
      invariant forall l | 0 <= l < k :: circle.evidence[choices[l]].id in refused
      invariant forall l | 0 <= l < k :: TooBig(circle, budget, selected, chars, choices[l])
    {
      var e := choices[k];
      if TooBig(circle, budget, selected, chars, e) {
        OnlyThisOne(circle.evidence, refused, e);
        refused := refused + {circle.evidence[e].id};
      } else {
        PickIsSound(circle, budget, selected, chars, refused, missing, e);
        return Some(e), refused, k;
      }
    }
    return None, refused, |choices|;
  }

  /** Of the eligible items, those of the first missing friend if one is missing, the first ranked one that fits. */
  ghost predicate BestPick(circle: Circle, budget: Budget, ranking: Ranking, selected: seq<nat>, rejected: set<string>, e: nat)
    requires forall k | 0 <= k < |selected| :: selected[k] < |circle.evidence|
  {
    var missing := FirstMissing(circle, selected, |circle.friends|);
    var choices := Ranked(ranking, selected, Choices(circle, budget, missing, selected, rejected, |circle.evidence|));
    exists rank :: 0 <= rank < |choices| && choices[rank] == e && FirstFitting(circle, budget, selected, choices, rank)
  }

  ghost predicate FirstFitting(circle: Circle, budget: Budget, selected: seq<nat>, choices: seq<nat>, rank: nat)
    requires rank < |choices| && forall k | 0 <= k < |selected| :: selected[k] < |circle.evidence|
  {
    && (forall l | 0 <= l <= rank :: choices[l] < |circle.evidence|)
    && !TooBig(circle, budget, selected, CharsOf(circle, selected), choices[rank])
    && forall l | 0 <= l < rank :: TooBig(circle, budget, selected, CharsOf(circle, selected), choices[l])
  }

  /** Each pick was the best one at its time, and what had been rejected by then (`marks[k]`) could not fit any more. */
  ghost predicate PickedWell(circle: Circle, budget: Budget, ranking: Ranking, picked: seq<nat>, marks: seq<set<string>>) {
    && |marks| == |picked| && (forall k | 0 <= k < |picked| :: picked[k] < |circle.evidence|)
    && forall k | 0 <= k < |picked| :: PickWasBest(circle, budget, ranking, picked[..k], marks[k], picked[k])
  }

  ghost predicate PickWasBest(circle: Circle, budget: Budget, ranking: Ranking, before: seq<nat>, rejected: set<string>, e: nat)
    requires forall k | 0 <= k < |before| :: before[k] < |circle.evidence|
  {
    && BestPick(circle, budget, ranking, before, rejected, e)
    && RejectedForGood(circle, budget, before, CharsOf(circle, before), rejected)
  }

  lemma PicksGoOn(circle: Circle, budget: Budget, ranking: Ranking, picked: seq<nat>, marks: seq<set<string>>,
                  rejected: set<string>, e: nat)
    requires PickedWell(circle, budget, ranking, picked, marks) && e < |circle.evidence|
    requires PickWasBest(circle, budget, ranking, picked, rejected, e)
    ensures PickedWell(circle, budget, ranking, picked + [e], marks + [rejected])
  {
    forall k | 0 <= k < |picked + [e]|
      ensures PickWasBest(circle, budget, ranking, (picked + [e])[..k], (marks + [rejected])[k], (picked + [e])[k])
    {
      if k < |picked| {
        PickStays(circle, budget, ranking, picked, marks, rejected, e, k);
      } else {
        assert (picked + [e])[..k] == picked;
      }
    }
  }

  lemma PickStays(circle: Circle, budget: Budget, ranking: Ranking, picked: seq<nat>, marks: seq<set<string>>,
                  rejected: set<string>, e: nat, k: nat)
    requires PickedWell(circle, budget, ranking, picked, marks) && e < |circle.evidence| && k < |picked|
    ensures PickWasBest(circle, budget, ranking, (picked + [e])[..k], (marks + [rejected])[k], (picked + [e])[k])
  {
    assert (picked + [e])[..k] == picked[..k];
  }

  /** One turn of the loop: the best ranked choice that fits, or nothing is eligible any more. */
  method PickOne(circle: Circle, budget: Budget, ranking: Ranking, missing: Option<nat>, selected: seq<nat>, chars: nat,
                 rejected: set<string>) returns (taken: Option<nat>, refused: set<string>)
    requires UniqueIds(circle.evidence) && Sound(circle, budget, selected, chars, rejected)
    requires missing == FirstMissing(circle, selected, |circle.friends|)
    ensures Sound(circle, budget, selected, chars, refused)
    ensures taken.Some? ==>
              && taken.value < |circle.evidence| && BestPick(circle, budget, ranking, selected, rejected, taken.value)
              && (missing.Some? ==> circle.evidence[taken.value].account == circle.friends[missing.value])
              && Sound(circle, budget, selected + [taken.value], chars + |circle.evidence[taken.value].block|, refused)
    ensures taken.None? ==> forall i | 0 <= i < |circle.evidence| :: !Eligible(circle, budget, missing, selected, refused, i)
  {
    var eligible := Choices(circle, budget, missing, selected, rejected, |circle.evidence|);
    var choices := Ranked(ranking, selected, eligible);
    forall k | 0 <= k < |choices|
      ensures choices[k] < |circle.evidence| && Eligible(circle, budget, missing, selected, rejected, choices[k])
    {
      assert choices[k] in choices;
    }
    ghost var rank;
    taken, refused, rank := PickFirst(circle, budget, choices, missing, selected, chars, rejected);
    if taken.Some? {
      assert FirstFitting(circle, budget, selected, choices, rank);
    } else {
      forall i | 0 <= i < |circle.evidence| ensures !Eligible(circle, budget, missing, selected, refused, i) {
        if Eligible(circle, budget, missing, selected, rejected, i) { assert i in choices; }
      }
    }
  }

  /** Every unselected item still breaks a limit: rejecting for good lost nothing. */
  ghost predicate Maximal(circle: Circle, budget: Budget, selected: seq<nat>, chars: nat)
    requires forall k | 0 <= k < |selected| :: selected[k] < |circle.evidence|
  {
    forall i | 0 <= i < |circle.evidence| && i !in selected ::
      || TooBig(circle, budget, selected, chars, i)
      || Held(circle.evidence, selected, circle.evidence[i].account) == budget.perAuthor
      || SameText(circle.evidence, selected, i)
  }

  /** A missing friend of whom nothing is eligible has only items that are too big. */
  lemma MissingMeansTooBig(circle: Circle, budget: Budget, selected: seq<nat>, chars: nat, rejected: set<string>, missing: nat)
    requires Sound(circle, budget, selected, chars, rejected) && budget.perAuthor > 0
    requires FirstMissing(circle, selected, |circle.friends|) == Some(missing)
    requires forall i | 0 <= i < |circle.evidence| :: !Eligible(circle, budget, Some(missing), selected, rejected, i)
    ensures forall i | 0 <= i < |circle.evidence| && circle.evidence[i].account == circle.friends[missing] ::
              chars + |circle.evidence[i].block| > budget.maxChars
  {
    HeldNothing(circle.evidence, selected, circle.friends[missing]);
    forall i | 0 <= i < |circle.evidence| && circle.evidence[i].account == circle.friends[missing]
      ensures chars + |circle.evidence[i].block| > budget.maxChars
    {
      assert !Eligible(circle, budget, Some(missing), selected, rejected, i);
      assert i !in selected && !SameText(circle.evidence, selected, i) && IsTarget(circle, i);
      assert TooBig(circle, budget, selected, chars, i);
    }
  }

  /** Picks until nothing more is eligible; tells who is still missing then. */
  method PickAll(circle: Circle, budget: Budget, ranking: Ranking)
    returns (selected: seq<nat>, chars: nat, missing: Option<nat>, ghost rejected: set<string>, ghost marks: seq<set<string>>)
    requires UniqueIds(circle.evidence) && |circle.head| + |circle.tail| <= budget.maxChars
    ensures Sound(circle, budget, selected, chars, rejected) && PickedWell(circle, budget, ranking, selected, marks)
    ensures missing == FirstMissing(circle, selected, |circle.friends|)
    ensures forall i | 0 <= i < |circle.evidence| :: !Eligible(circle, budget, missing, selected, rejected, i)
  {
    selected, chars, missing, marks := [], |circle.head| + |circle.tail|, None, [];
    var refused: set<string> := {};
    var added := true;
    while added
      invariant Sound(circle, budget, selected, chars, refused) && PickedWell(circle, budget, ranking, selected, marks)
      invariant !added ==>
                  && missing == FirstMissing(circle, selected, |circle.friends|)
                  && forall i | 0 <= i < |circle.evidence| :: !Eligible(circle, budget, missing, selected, refused, i)
      decreases |circle.evidence| - |selected|, added
    {
      missing := FirstMissing(circle, selected, |circle.friends|);
      var taken;
      ghost var before := refused;
      taken, refused := PickOne(circle, budget, ranking, missing, selected, chars, refused);
      added := taken.Some?;
      if taken.Some? {
        PicksGoOn(circle, budget, ranking, selected, marks, before, taken.value);
        marks := marks + [before];
        chars := chars + |circle.evidence[taken.value].block|;
        selected := selected + [taken.value];
        DistinctFit(selected, |circle.evidence|);
      }
    }
    rejected := refused;
  }

  /**
   Each pick is the best one at its time, friends who are still missing first. The picks (`picked`)
   stay within all budgets. They are the result if they speak for every friend who has evidence,
   and then nothing is left out that would still fit; otherwise the friend that is named has only
   evidence that is too big for what is left.
   */
  method Sample(circle: Circle, budget: Budget, ranking: Ranking)
    returns (r: Result<seq<nat>, SelectError>, chars: nat,
             ghost picked: seq<nat>, ghost rejected: set<string>, ghost marks: seq<set<string>>)
    requires UniqueIds(circle.evidence)
    ensures r == Err(DraftTooLong) <==> |circle.head| + |circle.tail| > budget.maxChars
    ensures r != Err(DraftTooLong) ==>
              Sound(circle, budget, picked, chars, rejected) && PickedWell(circle, budget, ranking, picked, marks)
    ensures r.Ok? ==>
              && r.value == picked != [] && Maximal(circle, budget, r.value, chars)
              && AllRepresented(circle, r.value)
    ensures r.Ok? ==>
              && RenderPrompt(circle, Ids(circle.evidence, r.value)).Ok?
              && |RenderPrompt(circle, Ids(circle.evidence, r.value)).value| == chars <= budget.maxChars
    ensures r == Err(NothingFits) ==> picked == [] && Maximal(circle, budget, picked, chars)
    ensures r.Err? && r.error.Unrepresented? ==>
              && r.error.account in circle.friends && Missing(circle.evidence, picked, r.error.account)
              && (budget.perAuthor > 0 ==>
                    forall i | 0 <= i < |circle.evidence| && circle.evidence[i].account == r.error.account ::
                      chars + |circle.evidence[i].block| > budget.maxChars)
    ensures r.Err? ==> r.error == DraftTooLong || r.error == NothingFits || r.error.Unrepresented?
  {
    chars, picked, rejected, marks := |circle.head| + |circle.tail|, [], {}, [];
    if chars > budget.maxChars { return Err(DraftTooLong), chars, picked, rejected, marks; }
    var selected, missing;
    selected, chars, missing, rejected, marks := PickAll(circle, budget, ranking);
    picked := selected;
    if missing.Some? {
      if budget.perAuthor > 0 { MissingMeansTooBig(circle, budget, selected, chars, rejected, missing.value); }
      return Err(Unrepresented(circle.friends[missing.value])), chars, picked, rejected, marks;
    }
    NothingLeft(circle, budget, selected, chars, rejected);
    if selected == [] { return Err(NothingFits), chars, picked, rejected, marks; }
    NobodyMissing(circle, selected);
    NotebookLength(circle.evidence, selected);
    return Ok(selected), chars, picked, rejected, marks;
  }

  lemma NothingLeft(circle: Circle, budget: Budget, selected: seq<nat>, chars: nat, refused: set<string>)
    requires Sound(circle, budget, selected, chars, refused)
    requires forall i | 0 <= i < |circle.evidence| :: !Eligible(circle, budget, None, selected, refused, i)
    ensures Maximal(circle, budget, selected, chars)
  {
    forall i | 0 <= i < |circle.evidence| && i !in selected
      ensures TooBig(circle, budget, selected, chars, i)
              || Held(circle.evidence, selected, circle.evidence[i].account) == budget.perAuthor
              || SameText(circle.evidence, selected, i)
    {
      assert !Eligible(circle, budget, None, selected, refused, i);
      if circle.evidence[i].id in refused { assert TooBig(circle, budget, selected, chars, i); }
    }
  }
}
