/** The validated index over a history, and the walks that rely on it. */
module BranchIndex {
  import opened Wrappers
  import opened History
  import opened Counting
  import opened WalkCosts
  import Projection

  datatype Index<Id(==)> = Index(
    nodes: seq<Node<Id>>, byId: map<Id, nat>, children: seq<seq<nat>>, roots: seq<nat>, parents: seq<Option<nat>>)

  ghost predicate Tables<Id>(nodes: seq<Node<Id>>, byId: map<Id, nat>) {
    && (forall i | 0 <= i < |nodes| :: nodes[i].id in byId && byId[nodes[i].id] == i)
    && (forall id | id in byId :: byId[id] < |nodes| && nodes[byId[id]].id == id)
  }

  ghost predicate Valid<Id(!new)>(ix: Index<Id>) {
    && DistinctIds(ix.nodes) && ParentsExist(ix.nodes) && Tables(ix.nodes, ix.byId)
    && Resolves(ix.nodes, ix.parents)
    && |ix.children| == |ix.nodes|
    && FamilyTables(ix.parents, ix.children, ix.roots)
    && exists rank :: Ranked(ix.parents, rank)
  }

  lemma ValidIsAcyclic<Id(!new)>(ix: Index<Id>)
    requires Valid(ix)
    ensures InRange(ix.parents) && Acyclic(ix.parents)
  {
    var rank :| Ranked(ix.parents, rank);
    RankedIsAcyclic(ix.parents, rank);
  }

  // ---------- Construction ----------

  method IndexIds<Id(==)>(nodes: seq<Node<Id>>) returns (r: Result<map<Id, nat>, HistoryError>)
    ensures r.Ok? ==> DistinctIds(nodes) && Tables(nodes, r.value)
    ensures r.Err? ==> r.error == DuplicateId && !DistinctIds(nodes)
  {
    var byId: map<Id, nat> := map[];
    for index := 0 to |nodes|
      invariant DistinctIds(nodes[..index]) && Tables(nodes[..index], byId)
    {
      var id := nodes[index].id;
      if id in byId {
        assert nodes[byId[id]].id == nodes[index].id;
        return Err(DuplicateId);
      }
      byId := byId[id := index];
      assert nodes[..index + 1] == nodes[..index] + [nodes[index]];
    }
    assert nodes[..|nodes|] == nodes;
    return Ok(byId);
  }

  function Link<Id(==)>(node: Node<Id>, byId: map<Id, nat>): Result<Option<nat>, HistoryError> {
    match node.parent
    case None => Ok(None)
    case Some(id) => if id in byId then Ok(Some(byId[id])) else Err(MissingParent)
  }

  lemma LinkIsRight<Id>(nodes: seq<Node<Id>>, byId: map<Id, nat>, i: nat)
    requires Tables(nodes, byId) && i < |nodes|
    ensures match Link(nodes[i], byId)
            case Ok(parent) => LinkedTo(nodes, i, parent) && (parent.Some? ==> parent.value < |nodes|)
            case Err(_) => !ParentsExist(nodes)
  {
    if Link(nodes[i], byId).Err? { assert !HasId(nodes, nodes[i].parent.value); }
  }

  method LinkParents<Id(==)>(nodes: seq<Node<Id>>, byId: map<Id, nat>)
    returns (r: Result<(seq<Option<nat>>, seq<seq<nat>>, seq<nat>), HistoryError>)
    requires DistinctIds(nodes) && Tables(nodes, byId)
    ensures r.Ok? ==>
              && ParentsExist(nodes) && Resolves(nodes, r.value.0) && |r.value.1| == |nodes|
              && FamilyTables(r.value.0, r.value.1, r.value.2)
    ensures r.Err? ==> r.error == MissingParent && !ParentsExist(nodes)
  {
    var n := |nodes|;
    var children: seq<seq<nat>> := seq(n, _ => []);
    var parents: seq<Option<nat>> := [];
    var roots: seq<nat> := [];
    for index := 0 to n
      invariant |children| == n && |parents| == index
      invariant forall i | 0 <= i < index :: LinkedTo(nodes, i, parents[i])
      invariant FamilyTables(parents, children, roots)
    {
      var link := Link(nodes[index], byId);
      LinkIsRight(nodes, byId, index);
      if link.Err? { return Err(MissingParent); }
      FamilyGrows(parents, children, roots, link.value);
      ghost var before := parents;
      parents := parents + [link.value];
      forall i | 0 <= i <= index ensures LinkedTo(nodes, i, parents[i]) {
        if i < index { assert parents[i] == before[i]; }
      }
      if link.value.Some? {
        children := children[link.value.value := children[link.value.value] + [index]];
      } else {
        roots := roots + [index];
      }
    }
    LinkedResolve(nodes, parents);
    return Ok((parents, children, roots));
  }

  datatype Mark = Unseen | OnWalk | Validated

  function CountUnseen(marks: seq<Mark>): nat {
    if marks == [] then 0 else (if marks[0].Unseen? then 1 else 0) + CountUnseen(marks[1..])
  }

  lemma {:induction false} MarkingCounts(marks: seq<Mark>, i: nat, mark: Mark)
    requires i < |marks|
    ensures CountUnseen(marks[i := mark])
            == CountUnseen(marks) - (if marks[i].Unseen? then 1 else 0) + (if mark.Unseen? then 1 else 0)
  {
    if i == 0 {
      assert marks[0 := mark][1..] == marks[1..];
    } else {
      assert marks[i := mark][1..] == marks[1..][i - 1 := mark];
      MarkingCounts(marks[1..], i - 1, mark);
    }
  }

  /** How many children of `p` (roots, for `None`) have been marked. */
  function Marked(parents: seq<Option<nat>>, marks: seq<Mark>, p: Option<nat>): nat
    requires |marks| == |parents|
  {
    if parents == [] then 0
    else
      var last := |parents| - 1;
      Marked(parents[..last], marks[..last], p) + if parents[last] == p && !marks[last].Unseen? then 1 else 0
  }

  lemma {:induction false} MarkedOneMore(parents: seq<Option<nat>>, marks: seq<Mark>, i: nat, mark: Mark, p: Option<nat>)
    requires |marks| == |parents| && i < |marks| && !mark.Unseen?
    ensures Marked(parents, marks[i := mark], p)
            == Marked(parents, marks, p) + if marks[i].Unseen? && parents[i] == p then 1 else 0
  {
    var last := |parents| - 1;
    if i == last {
      assert marks[i := mark][..last] == marks[..last];
    } else {
      assert marks[i := mark][..last] == marks[..last][i := mark];
      MarkedOneMore(parents[..last], marks[..last], i, mark, p);
    }
  }

  /** Which nodes are marked decides the count, not how they are marked. */
  lemma {:induction false} MarkedAlike(parents: seq<Option<nat>>, marks: seq<Mark>, other: seq<Mark>, p: Option<nat>)
    requires |marks| == |other| == |parents| && forall i | 0 <= i < |marks| :: marks[i].Unseen? <==> other[i].Unseen?
    ensures Marked(parents, marks, p) == Marked(parents, other, p)
  {
    if parents != [] {
      var last := |parents| - 1;
      MarkedAlike(parents[..last], marks[..last], other[..last], p);
    }
  }

  lemma {:induction false} MarkedAtMost(parents: seq<Option<nat>>, marks: seq<Mark>, p: Option<nat>)
    requires |marks| == |parents|
    ensures Marked(parents, marks, p) <= |ChildrenOf(parents, p)|
  {
    if parents != [] { MarkedAtMost(parents[..|parents| - 1], marks[..|marks| - 1], p); }
  }

  lemma {:induction false} AllMarked(parents: seq<Option<nat>>, marks: seq<Mark>, p: Option<nat>)
    requires |marks| == |parents| && forall i | 0 <= i < |marks| :: !marks[i].Unseen?
    ensures Marked(parents, marks, p) == |ChildrenOf(parents, p)|
  {
    if parents != [] { AllMarked(parents[..|parents| - 1], marks[..|marks| - 1], p); }
  }

  lemma {:induction false} NoneMarked(parents: seq<Option<nat>>, marks: seq<Mark>, p: Option<nat>)
    requires |marks| == |parents| && forall i | 0 <= i < |marks| :: marks[i].Unseen?
    ensures Marked(parents, marks, p) == 0
  {
    if parents != [] { NoneMarked(parents[..|parents| - 1], marks[..|marks| - 1], p); }
  }

  /** How often each node was looked at once the first `started` walks have run this far. */
  ghost predicate LookedAt(parents: seq<Option<nat>>, marks: seq<Mark>, started: nat, looked: seq<nat>) {
    && |looked| == |marks| == |parents|
    && forall i: nat | i < |parents| :: looked[i] == (if i < started then 1 else 0) + Marked(parents, marks, Some(i))
  }

  lemma NothingLooked(parents: seq<Option<nat>>, marks: seq<Mark>)
    requires |marks| == |parents| && forall i | 0 <= i < |marks| :: marks[i].Unseen?
    ensures LookedAt(parents, marks, 0, seq(|parents|, _ => 0))
  {
    forall i: nat | i < |parents| { NoneMarked(parents, marks, Some(i)); }
  }

  lemma LookedAlike(parents: seq<Option<nat>>, marks: seq<Mark>, other: seq<Mark>, started: nat, looked: seq<nat>)
    requires LookedAt(parents, marks, started, looked) && |other| == |marks|
    requires forall i | 0 <= i < |marks| :: marks[i].Unseen? <==> other[i].Unseen?
    ensures LookedAt(parents, other, started, looked)
  {
    forall i: nat | i < |parents| { MarkedAlike(parents, marks, other, Some(i)); }
  }

  /** The counts never pass the final ones. */
  lemma LookedAtMost(parents: seq<Option<nat>>, marks: seq<Mark>, started: nat, looked: seq<nat>)
    requires LookedAt(parents, marks, started, looked)
    ensures forall i | 0 <= i < |parents| :: looked[i] <= Looks(parents, |parents|)[i]
  {
    var final := Looks(parents, |parents|);
    forall i: nat | i < |parents| ensures looked[i] <= final[i] { MarkedAtMost(parents, marks, Some(i)); }
  }

  lemma AllLooked(parents: seq<Option<nat>>, marks: seq<Mark>, looked: seq<nat>)
    requires LookedAt(parents, marks, |parents|, looked) && forall i | 0 <= i < |marks| :: !marks[i].Unseen?
    ensures looked == Looks(parents, |parents|)
  {
    var final := Looks(parents, |parents|);
    forall i: nat | i < |parents| ensures looked[i] == final[i] { AllMarked(parents, marks, Some(i)); }
  }

  /** Validated nodes form a set closed under parents, on which `rank` certifies the absence of cycles. */
  ghost predicate Settled(parents: seq<Option<nat>>, marks: seq<Mark>, rank: seq<nat>) {
    && |marks| == |parents| == |rank| && InRange(parents)
    && forall i | 0 <= i < |parents| && marks[i].Validated? && parents[i].Some? ::
         marks[parents[i].value].Validated? && rank[parents[i].value] < rank[i]
  }

  /** The nodes of the current walk are exactly the marked ones, each followed by its parent. */
  ghost predicate Walking(parents: seq<Option<nat>>, marks: seq<Mark>, path: seq<nat>, current: Option<nat>) {
    && |marks| == |parents|
    && (forall i | 0 <= i < |path| :: path[i] < |parents| && marks[path[i]].OnWalk?)
    && (forall i | 0 <= i < |parents| && marks[i].OnWalk? :: i in path)
    && (forall i, j | 0 <= i < j < |path| :: path[i] != path[j])
    && (forall i | 0 <= i < |path| - 1 :: parents[path[i]] == Some(path[i + 1]))
    && (path != [] ==> parents[path[|path| - 1]] == current)
    && (current.Some? ==> current.value < |parents|)
  }

  lemma WalkOn(parents: seq<Option<nat>>, marks: seq<Mark>, path: seq<nat>, index: nat)
    requires InRange(parents) && Walking(parents, marks, path, Some(index)) && marks[index].Unseen?
    ensures Walking(parents, marks[index := OnWalk], path + [index], parents[index])
  {
    forall i | 0 <= i < |parents| && marks[index := OnWalk][i].OnWalk? ensures i in path + [index] {
      assert i != index ==> i in path;
    }
  }

  lemma {:induction false} WalkIsAncestry(parents: seq<Option<nat>>, marks: seq<Mark>, path: seq<nat>, current: Option<nat>, j: nat)
    requires InRange(parents) && Walking(parents, marks, path, current) && current.Some? && j < |path|
    ensures Ancestor(parents, path[j], |path| - j) == current
    decreases |path| - j
  {
    if j + 1 < |path| { WalkIsAncestry(parents, marks, path, current, j + 1); }
  }

  lemma MeetingTheWalkIsACycle(parents: seq<Option<nat>>, marks: seq<Mark>, path: seq<nat>, index: nat)
    requires InRange(parents) && Walking(parents, marks, path, Some(index)) && marks[index].OnWalk?
    ensures !Acyclic(parents)
  {
    var j :| 0 <= j < |path| && path[j] == index;
    WalkIsAncestry(parents, marks, path, Some(index), j);
  }

  /** Marks a finished walk as validated; ranks rise from its far end back to its start. */
  method SettleWalk(parents: seq<Option<nat>>, marks: seq<Mark>, ghost rank: seq<nat>, path: seq<nat>, current: Option<nat>)
    returns (settled: seq<Mark>, ghost ranked: seq<nat>)
    requires Settled(parents, marks, rank) && Walking(parents, marks, path, current)
    requires current.Some? ==> marks[current.value].Validated?
    ensures Settled(parents, settled, ranked)
    ensures forall i | 0 <= i < |parents| :: settled[i] == if marks[i].OnWalk? then Validated else marks[i]
  {
    settled, ranked := marks, rank;
    ghost var base := if current.Some? then rank[current.value] + 1 else 0;
    for k := 0 to |path|
      invariant |settled| == |ranked| == |parents|
      invariant forall j | 0 <= j < k :: settled[path[j]].Validated? && ranked[path[j]] == base + (|path| - 1 - j)
      invariant forall j | k <= j < |path| :: settled[path[j]].OnWalk?
      invariant forall i | 0 <= i < |parents| && !marks[i].OnWalk? :: settled[i] == marks[i] && ranked[i] == rank[i]
    {
      settled := settled[path[k] := Validated];
      ranked := ranked[path[k] := base + (|path| - 1 - k)];
    }
    forall i | 0 <= i < |parents| && settled[i].Validated? && parents[i].Some?
      ensures settled[parents[i].value].Validated? && ranked[parents[i].value] < ranked[i]
    {
      if marks[i].OnWalk? {
        var k :| 0 <= k < |path| && path[k] == i;
        assert k + 1 < |path| ==> parents[i] == Some(path[k + 1]);
      }
    }
  }

  /** The counts are right but for the look that the walk is about to take. */
  ghost predicate OneLookAhead(parents: seq<Option<nat>>, marks: seq<Mark>, started: nat, looked: seq<nat>, current: Option<nat>) {
    && |looked| == |marks| == |parents|
    && forall i: nat | i < |parents| ::
         looked[i] + (if current == Some(i) then 1 else 0)
         == (if i < started then 1 else 0) + Marked(parents, marks, Some(i))
  }

  /** Follows parents from `start` until a root, a validated node, or the walk itself. */
  method Walk(parents: seq<Option<nat>>, marks: seq<Mark>, start: nat, ghost before: seq<nat>)
    returns (met: bool, walked: seq<Mark>, path: seq<nat>, current: Option<nat>, ghost looked: seq<nat>)
    requires InRange(parents) && |marks| == |parents| && start < |parents| && LookedAt(parents, marks, start, before)
    requires forall i | 0 <= i < |parents| :: !marks[i].OnWalk?
    ensures met ==> !Acyclic(parents)
    ensures !met ==>
              && Walking(parents, walked, path, current) && (current.Some? ==> walked[current.value].Validated?)
              && (if path == [] then current == Some(start) else path[0] == start)
    ensures |walked| == |parents|
    ensures forall i | 0 <= i < |parents| :: walked[i] == marks[i] || (marks[i].Unseen? && walked[i].OnWalk?)
    ensures LookedAt(parents, walked, start + 1, looked)
  {
    met, walked, path, current, looked := false, marks, [], Some(start), before;
    while current.Some?
      invariant Walking(parents, walked, path, current)
      invariant if path == [] then current == Some(start) else path[0] == start
      invariant forall i | 0 <= i < |parents| :: walked[i] == marks[i] || (marks[i].Unseen? && walked[i].OnWalk?)
      invariant OneLookAhead(parents, walked, start + 1, looked, current)
      decreases CountUnseen(walked)
    {
      var index := current.value;
      looked := looked[index := looked[index] + 1];
      match walked[index]
      case OnWalk =>
        MeetingTheWalkIsACycle(parents, walked, path, index);
        met := true;
        return;
      case Validated => return;
      case Unseen =>
        MarkingCounts(walked, index, OnWalk);
        WalkOn(parents, walked, path, index);
        forall i: nat | i < |parents| { MarkedOneMore(parents, walked, index, OnWalk, Some(i)); }
        walked := walked[index := OnWalk];
        path := path + [index];
        current := parents[index];
    }
  }

  /**
   The three-mark check: a node is looked at by its own walk and once for every child that was
   marked, so all walks together take at most two looks per node, however deep the chains are.
   */
  method CheckAcyclic(parents: seq<Option<nat>>) returns (ok: bool, ghost looked: seq<nat>, ghost rank: seq<nat>)
    requires InRange(parents)
    ensures ok <==> Acyclic(parents)
    ensures ok ==> Ranked(parents, rank) && looked == Looks(parents, |parents|)
    ensures |looked| == |parents| && forall i | 0 <= i < |parents| :: looked[i] <= Looks(parents, |parents|)[i]
  {
    var n := |parents|;
    var marks := seq(n, _ => Unseen);
    looked, rank := seq(n, _ => 0), seq(n, _ => 0);
    NothingLooked(parents, marks);
    for start := 0 to n
      invariant Settled(parents, marks, rank) && LookedAt(parents, marks, start, looked)
      invariant forall i | 0 <= i < n :: !marks[i].OnWalk? && (i < start ==> marks[i].Validated?)
    {
      var met, walked, path, current;
      met, walked, path, current, looked := Walk(parents, marks, start, looked);
      if met {
        LookedAtMost(parents, walked, start + 1, looked);
        return false, looked, rank;
      }
      marks, rank := SettleWalk(parents, walked, rank, path, current);
      LookedAlike(parents, walked, marks, start + 1, looked);
    }
    RankedIsAcyclic(parents, rank);
    AllLooked(parents, marks, looked);
    return true, looked, rank;
  }

  /**
   An index exists exactly for distinct identities, existing parents and an acyclic parent
   graph; each refusal is reported for its own cause, in this order. The walks look at a node of
   an accepted history once for itself and once for each of its children.
   */
  method New<Id(==, !new)>(nodes: seq<Node<Id>>) returns (r: Result<Index<Id>, HistoryError>, ghost looked: seq<nat>)
    ensures Total(looked) <= 2 * |nodes|
    ensures r.Ok? ==> looked == Looks(r.value.parents, |nodes|) && Total(looked) == 2 * |nodes| - |r.value.roots|
    ensures r == Err(NodeBudget) <==> |nodes| > Projection.MAX_DOCUMENT_PARTS
    ensures r == Err(DuplicateId) <==> |nodes| <= Projection.MAX_DOCUMENT_PARTS && !DistinctIds(nodes)
    ensures r == Err(MissingParent) <==>
              |nodes| <= Projection.MAX_DOCUMENT_PARTS && DistinctIds(nodes) && !ParentsExist(nodes)
    ensures r == Err(Cycle) <==>
              && |nodes| <= Projection.MAX_DOCUMENT_PARTS && DistinctIds(nodes) && ParentsExist(nodes)
              && exists parents :: Resolves(nodes, parents) && !Acyclic(parents)
    ensures r.Ok? ==> Valid(r.value) && r.value.nodes == nodes
    ensures r.Err? ==> r.error != MissingHead
  {
    looked := [];
    if |nodes| > Projection.MAX_DOCUMENT_PARTS { return Err(NodeBudget), looked; }
    var ids := IndexIds(nodes);
    if ids.Err? { return Err(DuplicateId), looked; }
    var links := LinkParents(nodes, ids.value);
    if links.Err? { return Err(MissingParent), looked; }
    var (parents, children, roots) := links.value;
    var ok;
    ghost var rank;
    ok, looked, rank := CheckAcyclic(parents);
    TotalMonotone(looked, Looks(parents, |nodes|));
    LooksAddUp(parents, |nodes|);
    forall other | Resolves(nodes, other) ensures other == parents { ResolutionUnique(nodes, other, parents); }
    if !ok { return Err(Cycle), looked; }
    return Ok(Index(nodes, ids.value, children, roots, parents)), looked;
  }

  // ---------- Walks over a validated index ----------

  /** The root-to-head line of positions: a root first, each followed by one of its children. */
  ghost predicate IsLineage(parents: seq<Option<nat>>, line: seq<nat>, head: nat) {
    && line != [] && line[|line| - 1] == head
    && (forall i | 0 <= i < |line| :: line[i] < |parents|)
    && parents[line[0]].None?
    && forall i | 0 < i < |line| :: parents[line[i]] == Some(line[i - 1])
  }

  /** The part of a lineage from some node down to the head. */
  ghost predicate IsLineageTail(parents: seq<Option<nat>>, line: seq<nat>, head: nat) {
    && line != [] && line[|line| - 1] == head
    && (forall i | 0 <= i < |line| :: line[i] < |parents|)
    && forall i | 0 < i < |line| :: parents[line[i]] == Some(line[i - 1])
  }

  lemma {:induction false} LineageAncestor(parents: seq<Option<nat>>, line: seq<nat>, head: nat, i: nat)
    requires InRange(parents) && IsLineageTail(parents, line, head) && i < |line|
    ensures Ancestor(parents, head, |line| - 1 - i) == Some(line[i])
    decreases |line|
  {
    if i < |line| - 1 {
      var rest := line[..|line| - 1];
      LineageAncestor(parents, rest, rest[|rest| - 1], i);
    }
  }

  /** A lineage names each node once, and it names exactly the nodes above its head. */
  lemma LineageIsDistinct(parents: seq<Option<nat>>, rank: seq<nat>, line: seq<nat>, head: nat)
    requires Ranked(parents, rank) && IsLineageTail(parents, line, head)
    ensures forall i, j | 0 <= i < j < |line| :: line[i] != line[j]
  {
    forall i, j | 0 <= i < j < |line| ensures line[i] != line[j] {
      var upper := line[..j + 1];
      LineageAncestor(parents, upper, line[j], i);
      RankFalls(parents, rank, line[j], j - i);
    }
  }

  lemma LineageIsAbove(parents: seq<Option<nat>>, line: seq<nat>, head: nat, top: nat)
    requires InRange(parents) && IsLineage(parents, line, head)
    ensures Above(parents, top, head) <==> top in line
  {
    if top in line {
      var i :| 0 <= i < |line| && line[i] == top;
      LineageAncestor(parents, line, head, i);
    }
    if Above(parents, top, head) {
      var k: nat :| Ancestor(parents, head, k) == Some(top);
      var n := |line| - 1;
      LineageAncestor(parents, line, head, 0);
      if k <= n {
        LineageAncestor(parents, line, head, n - k);
      } else {
        AncestorAdds(parents, head, n, k - n);
      }
    }
  }

  method Position<Id(==, !new)>(nodes: seq<Node<Id>>, byId: map<Id, nat>, id: Id) returns (r: Result<nat, HistoryError>)
    requires Tables(nodes, byId)
    ensures r.Ok? <==> HasId(nodes, id)
    ensures r.Ok? ==> r.value < |nodes| && nodes[r.value].id == id && byId[id] == r.value
    ensures r.Err? ==> r.error == MissingHead
  {
    if id !in byId {
      assert !HasId(nodes, id);
      return Err(MissingHead);
    }
    return Ok(byId[id]);
  }

  /** Follows parent identities up to a root. */
  method Climb<Id(==, !new)>(nodes: seq<Node<Id>>, byId: map<Id, nat>, start: nat,
                             ghost parents: seq<Option<nat>>, ghost rank: seq<nat>) returns (line: seq<nat>)
    requires Tables(nodes, byId) && Resolves(nodes, parents) && Ranked(parents, rank) && start < |nodes|
    ensures IsLineage(parents, line, start)
  {
    var index := start;
    line := [index];
    while nodes[index].parent.Some?
      invariant index < |nodes| && IsLineageTail(parents, line, start) && line[0] == index
      decreases rank[index]
    {
      var parent := parents[index];
      var up := Position(nodes, byId, nodes[index].parent.value);
      assert LinkedTo(nodes, index, parent);
      index := up.value;
      line := [index] + line;
    }
  }

  /** The distinct nodes from a root to the head; only an unknown head is refused. */
  method Path<Id(==, !new)>(ix: Index<Id>, head: Option<Id>) returns (r: Result<seq<nat>, HistoryError>)
    requires Valid(ix)
    ensures head.None? ==> r == Ok([])
    ensures head.Some? ==> (r.Ok? <==> HasId(ix.nodes, head.value))
    ensures r.Err? ==> r.error == MissingHead
    ensures r.Ok? && head.Some? ==> IsPathTo(ix, r.value, head.value)
  {
    if head.None? { return Ok([]); }
    ghost var rank :| Ranked(ix.parents, rank);
    var start := Position(ix.nodes, ix.byId, head.value);
    if start.Err? { return Err(MissingHead); }
    var line := Climb(ix.nodes, ix.byId, start.value, ix.parents, rank);
    LineageIsDistinct(ix.parents, rank, line, start.value);
    return Ok(line);
  }

  ghost predicate IsPathTo<Id>(ix: Index<Id>, line: seq<nat>, head: Id) {
    && line != [] && line[|line| - 1] < |ix.nodes| && ix.nodes[line[|line| - 1]].id == head
    && IsLineage(ix.parents, line, line[|line| - 1])
    && (forall i, j | 0 <= i < j < |line| :: line[i] != line[j])
  }

  /** The nodes with the same parent, or all the roots, in history order. */
  method Siblings<Id(==, !new)>(ix: Index<Id>, id: Id) returns (r: Result<seq<nat>, HistoryError>)
    requires Valid(ix)
    ensures r.Ok? <==> HasId(ix.nodes, id)
    ensures r.Ok? ==>
              exists i :: 0 <= i < |ix.nodes| && ix.nodes[i].id == id && i in r.value && Ascending(r.value)
                          && forall c: nat :: c in r.value <==> c < |ix.nodes| && ix.parents[c] == ix.parents[i]
  {
    var at := Position(ix.nodes, ix.byId, id);
    if at.Err? { return Err(MissingHead); }
    ChildrenAre(ix.parents, ix.parents[at.value]);
    if ix.nodes[at.value].parent.Some? {
      var parent := Position(ix.nodes, ix.byId, ix.nodes[at.value].parent.value);
      assert parent.Ok?;
      assert LinkedTo(ix.nodes, at.value, ix.parents[at.value]);
      return Ok(ix.children[parent.value]);
    }
    return Ok(ix.roots);
  }

  datatype Ordering = Less | Equal | Greater

  /** The last of the greatest elements, as a left-to-right fold finds it. */
  function MaxBy<T>(compare: (T, T) -> Ordering, xs: seq<T>): (best: T)
    requires xs != []
    ensures best in xs
  {
    if |xs| == 1 then xs[0]
    else
      var best := MaxBy(compare, xs[..|xs| - 1]);
      var last := xs[|xs| - 1];
      if compare(best, last) == Greater then best else last
  }

  ghost predicate TotalPreorder<T(!new)>(compare: (T, T) -> Ordering) {
    && (forall a, b :: compare(a, b) == Greater <==> compare(b, a) == Less)
    && (forall a, b, c :: compare(a, b) != Greater && compare(b, c) != Greater ==> compare(a, c) != Greater)
  }

  lemma {:induction false} MaxByIsMaximal<T(!new)>(compare: (T, T) -> Ordering, xs: seq<T>, x: T)
    requires xs != [] && TotalPreorder(compare) && x in xs
    ensures compare(x, MaxBy(compare, xs)) != Greater
  {
    if |xs| == 1 {
      assert compare(x, x) == Greater <==> compare(x, x) == Less;
    } else {
      var rest, last := xs[..|xs| - 1], xs[|xs| - 1];
      assert xs == rest + [last];
      var best := MaxBy(compare, rest);
      assert compare(last, last) == Greater <==> compare(last, last) == Less;
      assert compare(best, last) == Greater <==> compare(last, best) == Less;
      if x in rest { MaxByIsMaximal(compare, rest, x); }
    }
  }

  /** A descent from `start` that takes the preferred child at every step. */
  ghost predicate IsDescent(children: seq<seq<nat>>, compare: (nat, nat) -> Ordering, line: seq<nat>, start: nat) {
    && line != [] && line[0] == start
    && (forall i | 0 <= i < |line| :: line[i] < |children|)
    && forall i | 0 <= i < |line| - 1 :: children[line[i]] != [] && line[i + 1] == MaxBy(compare, children[line[i]])
  }

  function MaxOf(s: seq<nat>): (m: nat)
    ensures forall i | 0 <= i < |s| :: s[i] <= m
  {
    if s == [] then 0
    else
      var rest := MaxOf(s[1..]);
      assert forall i | 1 <= i < |s| :: s[i] == s[1..][i - 1];
      if s[0] > rest then s[0] else rest
  }

  method Descend(children: seq<seq<nat>>, start: nat, compare: (nat, nat) -> Ordering,
                 ghost parents: seq<Option<nat>>, ghost rank: seq<nat>) returns (index: nat, ghost line: seq<nat>)
    requires Ranked(parents, rank) && |children| == |parents| && start < |parents|
    requires forall p | 0 <= p < |children| :: children[p] == ChildrenOf(parents, Some(p))
    ensures IsDescent(children, compare, line, start) && line[|line| - 1] == index
    ensures index < |parents| && children[index] == [] && Above(parents, start, index)
  {
    index := start;
    line := [index];
    AboveSplits(parents, index, index);
    while children[index] != []
      invariant index < |parents| && IsDescent(children, compare, line, start) && line[|line| - 1] == index
      invariant Above(parents, start, index)
      decreases MaxOf(rank) - rank[index]
    {
      var next := MaxBy(compare, children[index]);
      ChildrenAre(parents, Some(index));
      AboveSplits(parents, start, next);
      assert rank[index] < rank[next];
      index := next;
      line := line + [index];
    }
  }

  /** The leaf below `start` that preferring one child at every step leads to. */
  method PreferredLeaf<Id(==, !new)>(ix: Index<Id>, start: Id, compare: (nat, nat) -> Ordering)
    returns (r: Result<nat, HistoryError>, ghost line: seq<nat>)
    requires Valid(ix)
    ensures r.Ok? <==> HasId(ix.nodes, start)
    ensures r.Ok? ==>
              && r.value < |ix.nodes| && ix.children[r.value] == []
              && line != [] && line[0] < |ix.nodes| && ix.nodes[line[0]].id == start
              && IsDescent(ix.children, compare, line, line[0]) && line[|line| - 1] == r.value
              && Above(ix.parents, line[0], r.value)
  {
    line := [];
    ghost var rank :| Ranked(ix.parents, rank);
    var at := Position(ix.nodes, ix.byId, start);
    if at.Err? { return Err(MissingHead), line; }
    var leaf;
    leaf, line := Descend(ix.children, at.value, compare, ix.parents, rank);
    return Ok(leaf), line;
  }

  ghost predicate NamesOf<Id(!new)>(nodes: seq<Node<Id>>, ids: set<Id>, positions: seq<nat>) {
    && (forall x | x in positions :: x < |nodes| && nodes[x].id in ids)
    && (forall id | id in ids :: exists x :: x in positions && x < |nodes| && nodes[x].id == id)
  }

  /** Visits everything below `s`, once each, with a stack. */
  method SweepDown<Id(==, !new)>(nodes: seq<Node<Id>>, children: seq<seq<nat>>, s: nat, ghost parents: seq<Option<nat>>)
    returns (result: set<Id>, ghost visited: seq<nat>)
    requires |nodes| == |children| == |parents| && InRange(parents) && Acyclic(parents) && s < |nodes|
    requires forall p | 0 <= p < |children| :: children[p] == ChildrenOf(parents, Some(p))
    ensures Sweep(parents, s, visited, []) && NamesOf(nodes, result, visited)
  {
    result, visited := {}, [];
    var pending := [s];
    SweepStarts(parents, s);
    while pending != []
      invariant Sweep(parents, s, visited, pending) && NamesOf(nodes, result, visited)
      decreases |nodes| - |visited|
    {
      var index := pending[|pending| - 1];
      assert pending == pending[..|pending| - 1] + [index];
      pending := pending[..|pending| - 1];
      assert Sweep(parents, s, visited, pending + [index]);
      SweepAdvances(parents, s, visited, pending, index);
      NameOneMore(nodes, result, visited, index);
      result := result + {nodes[index].id};
      visited := visited + [index];
      pending := pending + children[index];
    }
  }

  lemma SweepStarts(parents: seq<Option<nat>>, s: nat)
    requires InRange(parents) && s < |parents|
    ensures Sweep(parents, s, [], [s])
  {
    AboveSplits(parents, s, s);
    assert [] + [s] == [s];
  }

  lemma NameOneMore<Id(!new)>(nodes: seq<Node<Id>>, ids: set<Id>, positions: seq<nat>, x: nat)
    requires NamesOf(nodes, ids, positions) && x < |nodes|
    ensures NamesOf(nodes, ids + {nodes[x].id}, positions + [x])
  {
    forall id | id in ids + {nodes[x].id}
      ensures exists y :: y in positions + [x] && y < |nodes| && nodes[y].id == id
    {
      if id in ids && id != nodes[x].id {
        var y :| y in positions && y < |nodes| && nodes[y].id == id;
        assert y in positions + [x];
      } else {
        assert x in positions + [x];
      }
    }
  }

  /** Exactly the nodes whose path contains `start`; the ghost list shows that each is visited once. */
  method Descendants<Id(==, !new)>(ix: Index<Id>, start: Id)
    returns (r: Result<set<Id>, HistoryError>, ghost s: nat, ghost visited: seq<nat>)
    requires Valid(ix)
    ensures r.Ok? <==> HasId(ix.nodes, start)
    ensures r.Ok? ==>
              && s < |ix.nodes| && ix.nodes[s].id == start
              && NamesOf(ix.nodes, r.value, visited)
              && (forall x: nat | x < |ix.nodes| :: x in visited <==> Above(ix.parents, s, x))
              && (forall x | 0 <= x < |ix.nodes| :: ix.nodes[x].id in r.value <==> Above(ix.parents, s, x))
              && (forall i, j | 0 <= i < j < |visited| :: visited[i] != visited[j])
  {
    s, visited := 0, [];
    var at := Position(ix.nodes, ix.byId, start);
    if at.Err? { return Err(MissingHead), s, visited; }
    s := at.value;
    ValidIsAcyclic(ix);
    var result;
    result, visited := SweepDown(ix.nodes, ix.children, at.value, ix.parents);
    SweptExactly(ix.parents, s, visited);
    forall x | 0 <= x < |ix.nodes| ensures ix.nodes[x].id in result <==> x in visited {
      if ix.nodes[x].id in result {
        var y :| y in visited && y < |ix.nodes| && ix.nodes[y].id == ix.nodes[x].id;
        assert x == y;
      }
    }
    return Ok(result), s, visited;
  }

  lemma SweptExactly(parents: seq<Option<nat>>, s: nat, visited: seq<nat>)
    requires Sweep(parents, s, visited, [])
    ensures forall x: nat | x < |parents| :: x in visited <==> Above(parents, s, x)
    ensures forall i, j | 0 <= i < j < |visited| :: visited[i] != visited[j]
  {
    assert visited + [] == visited;
    forall x: nat | x < |parents| ensures x in visited <==> Above(parents, s, x) {
      if Above(parents, s, x) {
        var k: nat :| Ancestor(parents, x, k) == Some(s);
        SweptAll(parents, s, visited, x, k);
      }
    }
  }

  /** Invariant of the sweep: what is visited or waiting is below `s`, once each, and closed upwards and downwards. */
  ghost predicate Sweep(parents: seq<Option<nat>>, s: nat, visited: seq<nat>, pending: seq<nat>) {
    var all := visited + pending;
    && InRange(parents) && s < |parents| && s in all
    && (forall i | 0 <= i < |all| :: all[i] < |parents| && Above(parents, s, all[i]))
    && (forall i, j | 0 <= i < j < |all| :: all[i] != all[j])
    && (forall x | x in all && x != s :: parents[x].Some? && parents[x].value in visited)
    && (forall c | 0 <= c < |parents| && parents[c].Some? && parents[c].value in visited :: c in all)
  }

  lemma ChildAboveIsACycle(parents: seq<Option<nat>>, s: nat, index: nat)
    requires InRange(parents) && s < |parents| && index < |parents|
    requires Above(parents, s, index) && parents[s] == Some(index)
    ensures !Acyclic(parents)
  {
    var k: nat :| Ancestor(parents, index, k) == Some(s);
    assert Ancestor(parents, s, k + 1) == Some(s);
  }

  /** The children of the node being visited were not met before: they are below it, and nothing is below itself. */
  lemma ChildrenAreNew(parents: seq<Option<nat>>, s: nat, visited: seq<nat>, pending: seq<nat>, index: nat, c: nat)
    requires Sweep(parents, s, visited, pending + [index]) && Acyclic(parents)
    requires c < |parents| && parents[c] == Some(index)
    ensures c !in visited + (pending + [index]) && Above(parents, s, c)
  {
    var was := visited + (pending + [index]);
    assert was[|was| - 1] == index;
    forall i | 0 <= i < |visited| ensures visited[i] != index { assert was[i] == visited[i]; }
    AboveSplits(parents, s, c);
    if c == s { ChildAboveIsACycle(parents, s, index); }
  }

  lemma SweepStep(parents: seq<Option<nat>>, s: nat, visited: seq<nat>, pending: seq<nat>, index: nat)
    requires Sweep(parents, s, visited, pending + [index]) && Acyclic(parents)
    ensures Sweep(parents, s, visited + [index], pending + ChildrenOf(parents, Some(index)))
  {
    var children := ChildrenOf(parents, Some(index));
    ChildrenAre(parents, Some(index));
    var was := visited + (pending + [index]);
    var all := (visited + [index]) + (pending + children);
    forall c | c in children ensures c !in was && Above(parents, s, c) {
      ChildrenAreNew(parents, s, visited, pending, index, c);
    }
    assert forall x :: x in all <==> x in was || x in children;
    forall i | 0 <= i < |all| ensures all[i] < |parents| && Above(parents, s, all[i]) {
      assert all[i] in all;
      if all[i] !in children {
        var k :| 0 <= k < |was| && was[k] == all[i];
      }
    }
    forall i, j | 0 <= i < j < |all| ensures all[i] != all[j] {
      SweepOrder(visited, pending, children, index, i, j);
    }
  }

  lemma SweepAdvances(parents: seq<Option<nat>>, s: nat, visited: seq<nat>, pending: seq<nat>, index: nat)
    requires Sweep(parents, s, visited, pending + [index]) && Acyclic(parents)
    ensures index < |parents| && |visited| < |parents|
    ensures Sweep(parents, s, visited + [index], pending + ChildrenOf(parents, Some(index)))
  {
    var was := visited + (pending + [index]);
    assert was[|was| - 1] == index;
    SweepStep(parents, s, visited, pending, index);
    SweepRoom(parents, s, visited + [index], pending + ChildrenOf(parents, Some(index)));
  }

  lemma SweepOrder(visited: seq<nat>, pending: seq<nat>, children: seq<nat>, index: nat, i: nat, j: nat)
    requires var was := visited + (pending + [index]);
             && (forall a, b | 0 <= a < b < |was| :: was[a] != was[b])
             && (forall a, b | 0 <= a < b < |children| :: children[a] != children[b])
             && forall c | c in children :: c !in was
    requires i < j < |visited| + 1 + |pending| + |children|
    ensures var all := (visited + [index]) + (pending + children); all[i] != all[j]
  {
    var was := visited + (pending + [index]);
    var all := (visited + [index]) + (pending + children);
    var v, p := |visited|, |pending|;
    var back := (k: int) => if k < v then k else if k == v then v + p else k - 1;
    assert forall k | 0 <= k < v + 1 + p :: all[k] == was[back(k)];
    assert forall k | v + 1 + p <= k < |all| :: all[k] == children[k - v - 1 - p];
    if j < v + 1 + p {
      assert back(i) != back(j);
    } else if i < v + 1 + p {
      assert all[i] == was[back(i)] && all[j] in children;
    }
  }

  lemma SweepRoom(parents: seq<Option<nat>>, s: nat, visited: seq<nat>, pending: seq<nat>)
    requires Sweep(parents, s, visited, pending)
    ensures |visited| <= |parents|
  {
    forall i, j | 0 <= i < j < |visited| ensures visited[i] != visited[j] {
      assert (visited + pending)[i] == visited[i] && (visited + pending)[j] == visited[j];
    }
    forall i | 0 <= i < |visited| ensures visited[i] < |parents| {
      assert (visited + pending)[i] == visited[i];
    }
    DistinctFit(visited, |parents|);
  }

  lemma {:induction false} SweptAll(parents: seq<Option<nat>>, s: nat, visited: seq<nat>, x: nat, k: nat)
    requires Sweep(parents, s, visited, []) && x < |parents| && Ancestor(parents, x, k) == Some(s)
    ensures x in visited
    decreases k
  {
    assert visited + [] == visited;
    if k > 0 { SweptAll(parents, s, visited, parents[x].value, k - 1); }
  }
}
