/** How often the walks that validate a history look at its nodes. */
module WalkCosts {
  import opened Wrappers
  import opened History

  function Total(counts: seq<nat>): nat {
    if counts == [] then 0 else Total(counts[..|counts| - 1]) + counts[|counts| - 1]
  }

  lemma {:induction false} TotalMonotone(a: seq<nat>, b: seq<nat>)
    requires |a| == |b| && forall i | 0 <= i < |a| :: a[i] <= b[i]
    ensures Total(a) <= Total(b)
  {
    if a != [] { TotalMonotone(a[..|a| - 1], b[..|b| - 1]); }
  }

  lemma {:induction false} TotalOneMore(counts: seq<nat>, i: nat)
    requires i < |counts|
    ensures Total(counts[i := counts[i] + 1]) == Total(counts) + 1
  {
    var last := |counts| - 1;
    if i == last {
      assert counts[i := counts[i] + 1][..last] == counts[..last];
    } else {
      assert counts[i := counts[i] + 1][..last] == counts[..last][i := counts[i] + 1];
      TotalOneMore(counts[..last], i);
    }
  }

  lemma {:induction false} TotalOnes(n: nat)
    ensures Total(seq(n, _ => 1)) == n
  {
    if n > 0 {
      assert seq(n, _ => 1)[..n - 1] == seq(n - 1, _ => 1);
      TotalOnes(n - 1);
    }
  }

  /** Every node is looked at by its own walk and once for each of its children. */
  function Looks(parents: seq<Option<nat>>, n: nat): (r: seq<nat>)
    ensures |r| == n && forall i: nat | i < n :: r[i] == 1 + |ChildrenOf(parents, Some(i))|
  {
    if n == 0 then [] else Looks(parents, n - 1) + [1 + |ChildrenOf(parents, Some(n - 1))|]
  }

  lemma LooksNext(parents: seq<Option<nat>>, next: Option<nat>, n: nat)
    requires next.Some? ==> next.value < n
    ensures Total(Looks(parents + [next], n)) == Total(Looks(parents, n)) + if next.Some? then 1 else 0
  {
    var before, after := Looks(parents, n), Looks(parents + [next], n);
    forall i: nat | i < n ensures after[i] == before[i] + if next == Some(i) then 1 else 0 {
      ChildrenGrow(parents, next, Some(i));
    }
    if next.Some? {
      assert after == before[next.value := before[next.value] + 1];
      TotalOneMore(before, next.value);
    } else {
      assert after == before;
    }
  }

  /** All walks together look twice at every node that has a parent and once at every root. */
  lemma {:induction false} LooksAddUp(parents: seq<Option<nat>>, n: nat)
    requires forall i | 0 <= i < |parents| :: parents[i].Some? ==> parents[i].value < n
    ensures Total(Looks(parents, n)) + |ChildrenOf(parents, None)| == n + |parents|
    decreases |parents|
  {
    if parents == [] {
      assert Looks(parents, n) == seq(n, _ => 1);
      TotalOnes(n);
    } else {
      var front, next := parents[..|parents| - 1], parents[|parents| - 1];
      assert parents == front + [next];
      LooksAddUp(front, n);
      LooksNext(front, next, n);
      ChildrenGrow(front, next, None);
    }
  }

  ghost predicate NoSiblings<Id>(nodes: seq<Node<Id>>) {
    forall a, b {:trigger nodes[a].parent, nodes[b].parent} | 0 <= a < b < |nodes| && nodes[a].parent.Some? ::
      nodes[a].parent != nodes[b].parent
  }

  /** So the walks look at no node more than twice exactly when no two nodes name the same parent. */
  lemma AtMostTwiceWithoutSiblings<Id>(nodes: seq<Node<Id>>, parents: seq<Option<nat>>)
    requires DistinctIds(nodes) && Resolves(nodes, parents)
    ensures (forall i | 0 <= i < |nodes| :: Looks(parents, |nodes|)[i] <= 2) <==> NoSiblings(nodes)
  {
    forall a, b | 0 <= a < b < |nodes| ensures nodes[a].parent == nodes[b].parent <==> parents[a] == parents[b] {
      assert LinkedTo(nodes, a, parents[a]) && LinkedTo(nodes, b, parents[b]);
    }
    TwiceMeansNoSiblings(parents);
  }

  lemma TwiceMeansNoSiblings(parents: seq<Option<nat>>)
    requires InRange(parents)
    ensures (forall i | 0 <= i < |parents| :: Looks(parents, |parents|)[i] <= 2)
            <==> forall a, b | 0 <= a < b < |parents| && parents[a] == parents[b] :: parents[a].None?
  {
    var n := |parents|;
    forall a, b | 0 <= a < b < n && parents[a] == parents[b] && parents[a].Some?
      ensures Looks(parents, n)[parents[a].value] > 2
    {
      TwoChildren(parents, parents[a], a, b);
    }
    forall i | 0 <= i < n && Looks(parents, n)[i] > 2
      ensures exists a, b :: 0 <= a < b < n && parents[a] == parents[b] == Some(i)
    {
      var a, b := SomeTwoChildren(parents, Some(i));
    }
  }

  lemma TwoChildren(parents: seq<Option<nat>>, p: Option<nat>, a: nat, b: nat)
    requires a < b < |parents| && parents[a] == parents[b] == p
    ensures |ChildrenOf(parents, p)| >= 2
  {
    ChildrenAre(parents, p);
    assert a in ChildrenOf(parents, p) && b in ChildrenOf(parents, p);
  }

  lemma SomeTwoChildren(parents: seq<Option<nat>>, p: Option<nat>) returns (a: nat, b: nat)
    requires |ChildrenOf(parents, p)| >= 2
    ensures a < b < |parents| && parents[a] == parents[b] == p
  {
    var children := ChildrenOf(parents, p);
    ChildrenAre(parents, p);
    assert children[0] in children && children[1] in children;
    return children[0], children[1];
  }

  /** A message and `k` answers to it. */
  function Answered(k: nat): seq<Node<nat>> {
    if k == 0 then [Node(0, None)] else Answered(k - 1) + [Node(k, Some(0))]
  }

  function AnsweredParents(k: nat): seq<Option<nat>> {
    if k == 0 then [None] else AnsweredParents(k - 1) + [Some(0)]
  }

  lemma {:induction false} AnsweredShape(k: nat)
    ensures |Answered(k)| == |AnsweredParents(k)| == k + 1
    ensures forall i: nat | i <= k :: Answered(k)[i] == Node(i, if i == 0 then None else Some(0))
    ensures forall i: nat | i <= k :: AnsweredParents(k)[i] == if i == 0 then None else Some(0)
  {
    if k > 0 { AnsweredShape(k - 1); }
  }

  lemma {:induction false} AnswersCount(k: nat)
    ensures |ChildrenOf(AnsweredParents(k), Some(0))| == k && |ChildrenOf(AnsweredParents(k), None)| == 1
  {
    if k == 0 {
      ChildrenGrow([], None, Some(0));
      ChildrenGrow([], None, None);
    } else {
      AnswersCount(k - 1);
      ChildrenGrow(AnsweredParents(k - 1), Some(0), Some(0));
      ChildrenGrow(AnsweredParents(k - 1), Some(0), None);
    }
  }

  lemma AnsweredIsAcyclic(k: nat)
    ensures InRange(AnsweredParents(k)) && Acyclic(AnsweredParents(k))
  {
    AnsweredShape(k);
    RankedIsAcyclic(AnsweredParents(k), seq(k + 1, i => if i == 0 then 0 else 1));
  }

  lemma AnsweredIsAccepted(k: nat)
    ensures DistinctIds(Answered(k)) && ParentsExist(Answered(k)) && Resolves(Answered(k), AnsweredParents(k))
  {
    AnsweredShape(k);
    LinkedResolve(Answered(k), AnsweredParents(k));
  }

  /** A message with `k` answers is looked at once more than there are answers. */
  lemma AnsweredIsLookedAtOften(k: nat)
    ensures Looks(AnsweredParents(k), k + 1)[0] == k + 1 && Total(Looks(AnsweredParents(k), k + 1)) == 2 * k + 1
  {
    AnsweredShape(k);
    AnswersCount(k);
    LooksAddUp(AnsweredParents(k), k + 1);
  }

  /** Three answers: an accepted history whose first node is looked at four times. */
  lemma LookedAtFourTimes()
    ensures AnsweredParents(3) == [None, Some(0), Some(0), Some(0)]
    ensures DistinctIds(Answered(3)) && Resolves(Answered(3), AnsweredParents(3))
    ensures InRange(AnsweredParents(3)) && Acyclic(AnsweredParents(3)) && Looks(AnsweredParents(3), 4)[0] == 4
  {
    AnsweredShape(3);
    AnsweredIsAccepted(3);
    AnsweredIsAcyclic(3);
    AnsweredIsLookedAtOften(3);
  }
}
