/**
 A list of occurrences with parent references, and what it means for it to be a forest: resolved
 parents, ancestors, and a rank that falls on every step towards the root.
*/
module History {
  import opened Wrappers

  /** The identity denotes one occurrence; the parent is the caller's explicit branch relation. */
  datatype Node<Id> = Node(id: Id, parent: Option<Id>)

  datatype HistoryError = NodeBudget | DuplicateId | MissingParent | Cycle | MissingHead

  ghost predicate DistinctIds<Id>(nodes: seq<Node<Id>>) {
    forall i, j {:trigger nodes[i].id, nodes[j].id} | 0 <= i < j < |nodes| :: nodes[i].id != nodes[j].id
  }

  ghost predicate HasId<Id>(nodes: seq<Node<Id>>, id: Id) {
    exists i :: 0 <= i < |nodes| && nodes[i].id == id
  }

  ghost predicate ParentsExist<Id>(nodes: seq<Node<Id>>) {
    forall i {:trigger nodes[i].parent} | 0 <= i < |nodes| && nodes[i].parent.Some? :: HasId(nodes, nodes[i].parent.value)
  }

  ghost predicate LinkedTo<Id>(nodes: seq<Node<Id>>, i: nat, parent: Option<nat>)
    requires i < |nodes|
  {
    match nodes[i].parent
    case None => parent.None?
    case Some(id) => parent.Some? && parent.value < |nodes| && nodes[parent.value].id == id
  }

  /** `parents` points every node at the position of its parent. */
  ghost predicate Resolves<Id>(nodes: seq<Node<Id>>, parents: seq<Option<nat>>) {
    |parents| == |nodes| && forall i | 0 <= i < |nodes| :: LinkedTo(nodes, i, parents[i])
  }

  lemma LinkedResolve<Id>(nodes: seq<Node<Id>>, parents: seq<Option<nat>>)
    requires |parents| == |nodes| && forall i | 0 <= i < |nodes| :: LinkedTo(nodes, i, parents[i])
    ensures ParentsExist(nodes) && Resolves(nodes, parents)
  {
    forall i | 0 <= i < |nodes| && nodes[i].parent.Some? ensures HasId(nodes, nodes[i].parent.value) {
      assert LinkedTo(nodes, i, parents[i]);
    }
  }

  ghost predicate InRange(parents: seq<Option<nat>>) {
    forall i | 0 <= i < |parents| :: parents[i].Some? ==> parents[i].value < |parents|
  }

  /** The node `k` steps towards the root. */
  ghost function Ancestor(parents: seq<Option<nat>>, i: nat, k: nat): (r: Option<nat>)
    requires InRange(parents) && i < |parents|
    ensures r.Some? ==> r.value < |parents|
    decreases k
  {
    if k == 0 then Some(i)
    else if parents[i].None? then None
    else Ancestor(parents, parents[i].value, k - 1)
  }

  ghost predicate Acyclic(parents: seq<Option<nat>>)
    requires InRange(parents)
  {
    forall i, k: nat | 0 <= i < |parents| && k > 0 :: Ancestor(parents, i, k) != Some(i)
  }

  /** `top` is the node `below` or one of its ancestors. */
  ghost predicate Above(parents: seq<Option<nat>>, top: nat, below: nat)
    requires InRange(parents) && below < |parents|
  {
    exists k: nat :: Ancestor(parents, below, k) == Some(top)
  }

  /** Numbers that fall on every step to a parent: a certificate that there is no cycle. */
  ghost predicate Ranked(parents: seq<Option<nat>>, rank: seq<nat>) {
    && |rank| == |parents| && InRange(parents)
    && forall i | 0 <= i < |parents| && parents[i].Some? :: rank[parents[i].value] < rank[i]
  }

  lemma {:induction false} AncestorAdds(parents: seq<Option<nat>>, i: nat, j: nat, k: nat)
    requires InRange(parents) && i < |parents| && Ancestor(parents, i, j).Some?
    ensures Ancestor(parents, i, j + k) == Ancestor(parents, Ancestor(parents, i, j).value, k)
    decreases j
  {
    if j > 0 { AncestorAdds(parents, parents[i].value, j - 1, k); }
  }

  lemma {:induction false} RankFalls(parents: seq<Option<nat>>, rank: seq<nat>, i: nat, k: nat)
    requires Ranked(parents, rank) && i < |parents| && Ancestor(parents, i, k).Some?
    ensures rank[Ancestor(parents, i, k).value] + k <= rank[i]
    decreases k
  {
    if k > 0 { RankFalls(parents, rank, parents[i].value, k - 1); }
  }

  lemma RankedIsAcyclic(parents: seq<Option<nat>>, rank: seq<nat>)
    requires Ranked(parents, rank)
    ensures Acyclic(parents)
  {
    forall i, k: nat | 0 <= i < |parents| && k > 0 ensures Ancestor(parents, i, k) != Some(i) {
      if Ancestor(parents, i, k).Some? { RankFalls(parents, rank, i, k); }
    }
  }

  lemma ResolutionUnique<Id>(nodes: seq<Node<Id>>, a: seq<Option<nat>>, b: seq<Option<nat>>)
    requires DistinctIds(nodes) && Resolves(nodes, a) && Resolves(nodes, b)
    ensures a == b
  {
    forall i | 0 <= i < |nodes| ensures a[i] == b[i] {
      assert LinkedTo(nodes, i, a[i]) && LinkedTo(nodes, i, b[i]);
      if nodes[i].parent.Some? {
        var p, q := a[i].value, b[i].value;
        assert nodes[p].id == nodes[q].id;
      }
    }
  }

  /** Walking from below, the node just under `top` is a child of `top`. */
  lemma AboveSplits(parents: seq<Option<nat>>, top: nat, below: nat)
    requires InRange(parents) && below < |parents|
    ensures Above(parents, top, below) <==>
              top == below || (parents[below].Some? && Above(parents, top, parents[below].value))
  {
    if Above(parents, top, below) && top != below {
      var k: nat :| Ancestor(parents, below, k) == Some(top);
      assert k > 0;
      assert Ancestor(parents, parents[below].value, k - 1) == Some(top);
    }
    if top == below { assert Ancestor(parents, below, 0) == Some(top); }
    if parents[below].Some? && Above(parents, top, parents[below].value) {
      var k: nat :| Ancestor(parents, parents[below].value, k) == Some(top);
      assert Ancestor(parents, below, k + 1) == Some(top);
    }
  }

  // ---------- Children ----------

  /** The positions whose parent is `p`, in order; `None` collects the roots. */
  function ChildrenOf(parents: seq<Option<nat>>, p: Option<nat>): seq<nat> {
    if parents == [] then []
    else
      var last := |parents| - 1;
      ChildrenOf(parents[..last], p) + if parents[last] == p then [last] else []
  }

  ghost predicate Ascending(s: seq<nat>) {
    forall i, j | 0 <= i < j < |s| :: s[i] < s[j]
  }

  lemma {:induction false} ChildrenAre(parents: seq<Option<nat>>, p: Option<nat>)
    ensures forall c: nat :: c in ChildrenOf(parents, p) <==> c < |parents| && parents[c] == p
    ensures Ascending(ChildrenOf(parents, p))
  {
    if parents != [] {
      var last := |parents| - 1;
      var s := ChildrenOf(parents[..last], p);
      ChildrenAre(parents[..last], p);
      assert forall c: nat | c < last :: parents[..last][c] == parents[c];
      forall i | 0 <= i < |s| ensures s[i] < last { assert s[i] in s; }
      assert Ascending(s);
      if parents[last] == p {
        assert ChildrenOf(parents, p) == s + [last];
        assert Ascending(s + [last]);
      } else {
        assert ChildrenOf(parents, p) == s + [];
        assert ChildrenOf(parents, p) == s;
      }
    }
  }

  /** Who is whose child, and who is a root, of the nodes seen so far. */
  ghost predicate FamilyTables(parents: seq<Option<nat>>, children: seq<seq<nat>>, roots: seq<nat>) {
    && (forall p | 0 <= p < |children| :: children[p] == ChildrenOf(parents, Some(p)))
    && roots == ChildrenOf(parents, None)
  }

  lemma ChildrenGrow(parents: seq<Option<nat>>, next: Option<nat>, p: Option<nat>)
    ensures ChildrenOf(parents + [next], p) == ChildrenOf(parents, p) + if next == p then [|parents|] else []
  {
    assert (parents + [next])[..|parents|] == parents;
  }

  lemma FamilyGrows(parents: seq<Option<nat>>, children: seq<seq<nat>>, roots: seq<nat>, next: Option<nat>)
    requires FamilyTables(parents, children, roots) && (next.Some? ==> next.value < |children|)
    ensures FamilyTables(parents + [next],
                         if next.Some? then children[next.value := children[next.value] + [|parents|]] else children,
                         if next.None? then roots + [|parents|] else roots)
  {
    forall p | 0 <= p < |children| { ChildrenGrow(parents, next, Some(p)); }
    ChildrenGrow(parents, next, None);
  }
}
