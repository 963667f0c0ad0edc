/**
 The bounded scan for model files, over two queues. A report says what was found, what was cut off
 and what went wrong; each of these has its cause in the file system.
*/
module Discovery {
  import opened Wrappers
  import opened FileTree

  datatype Origin = UserSelected | HuggingFaceCache

  datatype Item = Item(path: Path, depth: nat)

  datatype Model = Model(selected: Path, resolved: Path, origin: Origin)

  function Paths(items: seq<Item>): set<Path> {
    set i | 0 <= i < |items| :: items[i].path
  }

  lemma PathsJoin(a: seq<Item>, b: seq<Item>)
    ensures Paths(a + b) == Paths(a) + Paths(b)
  {
    forall x | x in Paths(a) + Paths(b) ensures x in Paths(a + b) {
      if x in Paths(a) {
        var i :| 0 <= i < |a| && a[i].path == x;
        assert (a + b)[i].path == x;
      } else {
        var i :| 0 <= i < |b| && b[i].path == x;
        assert (a + b)[|a| + i].path == x;
      }
    }
  }

  lemma PathsOfOne(item: Item)
    ensures Paths([item]) == {item.path}
  {
    assert [item][0] == item;
  }

  /** The canonical paths of the models found through this origin. */
  function ResolvedBy(models: seq<Model>, origin: Origin): set<Path> {
    set i | 0 <= i < |models| && models[i].origin == origin :: models[i].resolved
  }

  function Resolved(models: seq<Model>): set<Path> {
    set i | 0 <= i < |models| :: models[i].resolved
  }

  function RootsOf(origin: Origin, user: seq<Path>, cache: seq<Path>): seq<Path> {
    if origin.UserSelected? then user else cache
  }

  /** Each canonical path at most once, and every model is a model file reached from the roots of its origin. */
  ghost predicate GoodModels(fs: FileSystem, user: seq<Path>, cache: seq<Path>, models: seq<Model>) {
    && (forall i, j | 0 <= i < j < |models| :: models[i].resolved != models[j].resolved)
    && (forall i | 0 <= i < |models| :: GoodModel(fs, user, cache, models[i]))
  }

  ghost predicate GoodModel(fs: FileSystem, user: seq<Path>, cache: seq<Path>, m: Model) {
    && IsModel(fs, m.selected) && m.resolved == Identity(fs, m.selected)
    && exists n :: Reached(fs, RootsOf(m.origin, user, cache), m.selected, n)
  }

  ghost predicate GoodItems(fs: FileSystem, roots: seq<Path>, items: seq<Item>) {
    forall i | 0 <= i < |items| :: Reached(fs, roots, items[i].path, items[i].depth)
  }

  predicate Ascends(paths: seq<Path>) {
    forall i, j | 0 <= i < j < |paths| :: paths[i] <= paths[j]
  }

  function Insert(p: Path, sorted: seq<Path>): (r: seq<Path>)
    ensures |r| == |sorted| + 1 && forall x :: x in r <==> x == p || x in sorted
  {
    if sorted == [] || p <= sorted[0] then [p] + sorted else [sorted[0]] + Insert(p, sorted[1..])
  }

  function Sorted(paths: seq<Path>): (r: seq<Path>)
    ensures |r| == |paths| && forall x :: x in r <==> x in paths
  {
    if paths == [] then [] else Insert(paths[0], Sorted(paths[1..]))
  }

  lemma {:induction false} InsertAscends(p: Path, sorted: seq<Path>)
    requires Ascends(sorted)
    ensures Ascends(Insert(p, sorted))
  {
    if sorted != [] && p > sorted[0] {
      var rest := Insert(p, sorted[1..]);
      InsertAscends(p, sorted[1..]);
      forall j | 0 <= j < |rest| ensures sorted[0] <= rest[j] { assert rest[j] in rest; }
    }
  }

  lemma {:induction false} SortedAscends(paths: seq<Path>)
    ensures Ascends(Sorted(paths))
  {
    if paths != [] {
      SortedAscends(paths[1..]);
      InsertAscends(paths[0], Sorted(paths[1..]));
    }
  }

  // ---------- Roots ----------

  /** Each path once, in the order in which they come first. */
  function Distinct(paths: seq<Path>): (r: seq<Path>)
    ensures forall x :: x in r <==> x in paths
    ensures forall i, j | 0 <= i < j < |r| :: r[i] != r[j]
  {
    if paths == [] then []
    else
      var front, last := Distinct(paths[..|paths| - 1]), paths[|paths| - 1];
      assert forall x :: x in paths <==> x in paths[..|paths| - 1] || x == last;
      if last in front then front else front + [last]
  }

  lemma DistinctNext(paths: seq<Path>, k: nat)
    requires k < |paths|
    ensures Distinct(paths[..k + 1])
            == if paths[k] in Distinct(paths[..k]) then Distinct(paths[..k]) else Distinct(paths[..k]) + [paths[k]]
  {
    assert paths[..k + 1][..k] == paths[..k];
  }

  lemma {:induction false} DistinctGrows(paths: seq<Path>, k: nat)
    requires k <= |paths|
    ensures Distinct(paths[..k]) <= Distinct(paths)
    decreases |paths| - k
  {
    if k < |paths| {
      DistinctNext(paths, k);
      DistinctGrows(paths, k + 1);
    } else {
      assert paths[..k] == paths;
    }
  }

  /** What stands at `i` comes first at `k`; everything before that stands before `i`. */
  lemma {:induction false} DistinctInOrder(paths: seq<Path>, i: nat) returns (k: nat)
    requires i < |Distinct(paths)|
    ensures k < |paths| && paths[k] == Distinct(paths)[i]
    ensures forall l | 0 <= l < k :: paths[l] in Distinct(paths)[..i]
    decreases |paths|
  {
    var front := paths[..|paths| - 1];
    if i < |Distinct(front)| {
      k := DistinctInOrder(front, i);
      assert Distinct(paths)[..i] == Distinct(front)[..i];
      forall l | 0 <= l < k ensures paths[l] in Distinct(paths)[..i] { assert paths[l] == front[l]; }
    } else {
      k := |paths| - 1;
      assert Distinct(paths)[..i] == Distinct(front);
      forall l | 0 <= l < k ensures paths[l] in Distinct(paths)[..i] { assert front[l] in front; }
    }
  }

  /** The roots that fit. */
  function Admitted(roots: seq<Path>, remaining: nat): (paths: seq<Path>)
    ensures |paths| <= remaining
  {
    if |Distinct(roots)| <= remaining then Distinct(roots) else Distinct(roots)[..remaining]
  }

  lemma RootsCut(roots: seq<Path>, k: nat, remaining: nat)
    requires k < |roots| && roots[k] !in Distinct(roots[..k]) && |Distinct(roots[..k])| == remaining
    ensures |Distinct(roots)| > remaining && Admitted(roots, remaining) == Distinct(roots[..k])
  {
    DistinctNext(roots, k);
    DistinctGrows(roots, k + 1);
  }

  function At(paths: seq<Path>, depth: nat): (items: seq<Item>)
    ensures |items| == |paths| && forall i | 0 <= i < |items| :: items[i] == Item(paths[i], depth)
  {
    seq(|paths|, i requires 0 <= i < |paths| => Item(paths[i], depth))
  }

  lemma AtNext(paths: seq<Path>, p: Path, depth: nat)
    ensures At(paths + [p], depth) == At(paths, depth) + [Item(p, depth)]
  {}

  lemma PathsAt(paths: seq<Path>, depth: nat)
    ensures forall x :: x in Paths(At(paths, depth)) <==> x in paths
  {
    forall x | x in paths ensures x in Paths(At(paths, depth)) {
      var i :| 0 <= i < |paths| && paths[i] == x;
      assert At(paths, depth)[i].path == x;
    }
  }

  lemma ChildrenReached(fs: FileSystem, roots: seq<Path>, p: Path, n: nat, children: seq<Path>)
    requires Reached(fs, roots, p, n) && IsDirectory(fs, p) && forall c | c in children :: ChildOf(fs, p, c)
    ensures GoodItems(fs, roots, At(children, n + 1))
  {
    forall i | 0 <= i < |children| ensures Reached(fs, roots, children[i], n + 1) { assert children[i] in children; }
  }

  // ---------- Causes ----------

  ghost predicate ReachedFrom(fs: FileSystem, user: seq<Path>, cache: seq<Path>, p: Path, n: nat) {
    Reached(fs, user, p, n) || Reached(fs, cache, p, n)
  }

  /** What a warning about a path at depth `n` can be about. */
  ghost predicate Troubled(fs: FileSystem, maxDepth: nat, p: Path, n: nat) {
    || p !in fs
    || (fs[p].kind == Directory && (n >= maxDepth || fs[p].entries.None? || None in fs[p].entries.value))
    || (fs[p].kind == Symlink && (fs[p].target.None? || fs[p].target == Some(Directory)))
    || (IsModel(fs, p) && fs[p].canonical.None?)
  }

  function RootCount(user: seq<Path>, cache: seq<Path>): nat {
    |Distinct(user)| + |Distinct(cache)|
  }

  /** How many entries these directories list. */
  function EntryTotal(fs: FileSystem, listed: seq<Path>): nat {
    if listed == [] then 0
    else
      var d := listed[|listed| - 1];
      EntryTotal(fs, listed[..|listed| - 1]) + if d in fs && fs[d].entries.Some? then |fs[d].entries.value| else 0
  }

  /** Directories that were reached above the depth limit, none of them twice under any name. */
  ghost predicate Listing(fs: FileSystem, user: seq<Path>, cache: seq<Path>, maxDepth: nat, listed: seq<Path>) {
    && (forall i | 0 <= i < |listed| ::
          IsDirectory(fs, listed[i]) && exists n: nat :: n < maxDepth && ReachedFrom(fs, user, cache, listed[i], n))
    && (forall i, j | 0 <= i < j < |listed| :: Identity(fs, listed[i]) != Identity(fs, listed[j]))
  }

  ghost predicate TooDeep(fs: FileSystem, user: seq<Path>, cache: seq<Path>, maxDepth: nat) {
    exists p: Path, n: nat :: ReachedFrom(fs, user, cache, p, n) && IsDirectory(fs, p) && n >= maxDepth
  }

  /** Every warning and every cut has a cause: trouble at a reached path, depth, or more entries than allowed. */
  ghost predicate Explained(fs: FileSystem, user: seq<Path>, cache: seq<Path>, maxEntries: nat, maxDepth: nat,
                            listed: seq<Path>, warnings: seq<Path>, truncated: bool)
  {
    && Listing(fs, user, cache, maxDepth, listed)
    && (forall w | w in warnings :: exists n: nat :: ReachedFrom(fs, user, cache, w, n) && Troubled(fs, maxDepth, w, n))
    && (truncated ==> RootCount(user, cache) + EntryTotal(fs, listed) > maxEntries || TooDeep(fs, user, cache, maxDepth))
  }

  /** Until the budget is exceeded, what was counted is what was listed. */
  ghost predicate Counted(fs: FileSystem, user: seq<Path>, cache: seq<Path>, maxEntries: nat, listed: seq<Path>, visited: nat) {
    || visited == RootCount(user, cache) + EntryTotal(fs, listed)
    || RootCount(user, cache) + EntryTotal(fs, listed) > maxEntries
  }

  /** Every directory that was listed counts as visited, and every report so far has its cause. */
  ghost predicate AccountsFor(fs: FileSystem, user: seq<Path>, cache: seq<Path>, maxEntries: nat, maxDepth: nat,
                              listed: seq<Path>, warnings: seq<Path>, truncated: bool, visitedEntries: nat, visited: set<Path>)
  {
    && visitedEntries <= maxEntries
    && Explained(fs, user, cache, maxEntries, maxDepth, listed, warnings, truncated)
    && Counted(fs, user, cache, maxEntries, listed, visitedEntries)
    && forall d | d in listed :: Identity(fs, d) in visited
  }

  lemma ExplainsWarning(fs: FileSystem, user: seq<Path>, cache: seq<Path>, maxEntries: nat, maxDepth: nat, listed: seq<Path>,
                        warnings: seq<Path>, truncated: bool, more: seq<Path>, p: Path, n: nat)
    requires Explained(fs, user, cache, maxEntries, maxDepth, listed, warnings, truncated)
    requires ReachedFrom(fs, user, cache, p, n) && Troubled(fs, maxDepth, p, n)
    requires forall w | w in more :: w in warnings || w == p
    ensures Explained(fs, user, cache, maxEntries, maxDepth, listed, more, truncated)
  {}

  lemma DepthExplained(fs: FileSystem, user: seq<Path>, cache: seq<Path>, maxEntries: nat, maxDepth: nat, listed: seq<Path>,
                       warnings: seq<Path>, truncated: bool, p: Path, n: nat)
    requires Explained(fs, user, cache, maxEntries, maxDepth, listed, warnings, truncated)
    requires ReachedFrom(fs, user, cache, p, n) && IsDirectory(fs, p) && n >= maxDepth
    ensures Explained(fs, user, cache, maxEntries, maxDepth, listed, warnings + [p], true)
  {
    ExplainsWarning(fs, user, cache, maxEntries, maxDepth, listed, warnings, truncated, warnings + [p], p, n);
  }

  lemma ExplainsListing(fs: FileSystem, user: seq<Path>, cache: seq<Path>, maxEntries: nat, maxDepth: nat, listed: seq<Path>,
                        warnings: seq<Path>, truncated: bool, visited: nat, p: Path, n: nat, cut: bool, visited': nat)
    requires Explained(fs, user, cache, maxEntries, maxDepth, listed, warnings, truncated)
    requires Counted(fs, user, cache, maxEntries, listed, visited) && visited <= maxEntries
    requires IsDirectory(fs, p) && n < maxDepth && ReachedFrom(fs, user, cache, p, n) && fs[p].entries.Some?
    requires forall d | d in listed :: Identity(fs, d) != Identity(fs, p)
    requires cut == (truncated || |fs[p].entries.value| > maxEntries - visited)
    requires |fs[p].entries.value| <= maxEntries - visited ==> visited' == visited + |fs[p].entries.value|
    ensures Explained(fs, user, cache, maxEntries, maxDepth, listed + [p], warnings, cut)
    ensures Counted(fs, user, cache, maxEntries, listed + [p], visited')
  {
    var all := listed + [p];
    assert all[..|listed|] == listed && all[|listed|] == p;
    assert EntryTotal(fs, all) == EntryTotal(fs, listed) + |fs[p].entries.value|;
  }

  lemma ListingExplained(fs: FileSystem, user: seq<Path>, cache: seq<Path>, maxEntries: nat, maxDepth: nat, listed: seq<Path>,
                         warnings: seq<Path>, truncated: bool, visited: nat, p: Path, n: nat,
                         noted: seq<Path>, cut: bool, visited': nat)
    requires Explained(fs, user, cache, maxEntries, maxDepth, listed, warnings, truncated)
    requires Counted(fs, user, cache, maxEntries, listed, visited) && visited <= maxEntries
    requires IsDirectory(fs, p) && n < maxDepth && ReachedFrom(fs, user, cache, p, n) && fs[p].entries.Some?
    requires forall d | d in listed :: Identity(fs, d) != Identity(fs, p)
    requires cut == (truncated || |fs[p].entries.value| > maxEntries - visited)
    requires |fs[p].entries.value| <= maxEntries - visited ==> visited' == visited + |fs[p].entries.value|
    requires forall w | w in noted :: w in warnings || (w == p && None in fs[p].entries.value)
    ensures Explained(fs, user, cache, maxEntries, maxDepth, listed + [p], noted, cut)
    ensures Counted(fs, user, cache, maxEntries, listed + [p], visited')
  {
    ExplainsListing(fs, user, cache, maxEntries, maxDepth, listed, warnings, truncated, visited, p, n, cut, visited');
    if None in fs[p].entries.value {
      ExplainsWarning(fs, user, cache, maxEntries, maxDepth, listed + [p], warnings, cut, noted, p, n);
    }
  }

  class Scan {
    const fs: FileSystem
    const maxEntries: nat
    const maxDepth: nat
    var models: seq<Model>
    var warnings: seq<Path>
    var visitedEntries: nat
    var truncated: bool
    var visitedDirectories: set<Path>
    /** The directories whose entries were read. */
    ghost var listed: seq<Path>

    constructor (fs: FileSystem, maxEntries: nat, maxDepth: nat)
      ensures this.fs == fs && this.maxEntries == maxEntries && this.maxDepth == maxDepth
      ensures models == [] && warnings == [] && visitedEntries == 0 && !truncated && visitedDirectories == {} && listed == []
    {
      this.fs, this.maxEntries, this.maxDepth := fs, maxEntries, maxDepth;
      models, warnings, visitedEntries, truncated, visitedDirectories, listed := [], [], 0, false, {}, [];
    }

    /** Nothing was cut off and nothing went wrong so far. */
    predicate Clean()
      reads this
    {
      !truncated && warnings == []
    }

    ghost predicate Accounted(user: seq<Path>, cache: seq<Path>)
      reads this
    {
      AccountsFor(fs, user, cache, maxEntries, maxDepth, listed, warnings, truncated, visitedEntries, visitedDirectories)
    }

    /** Roots in the caller's order, each once, up to the number that is left. */
    method EnqueueRoots(roots: seq<Path>, remaining: nat) returns (pending: seq<Item>)
      modifies this`truncated
      ensures pending == At(Admitted(roots, remaining), 0)
      ensures truncated == (old(truncated) || |Distinct(roots)| > remaining)
    {
      pending := [];
      var seen: set<Path> := {};
      for k := 0 to |roots|
        invariant pending == At(Distinct(roots[..k]), 0) && |pending| <= remaining && truncated == old(truncated)
        invariant forall x :: x in seen <==> x in Distinct(roots[..k])
      {
        DistinctNext(roots, k);
        if roots[k] !in seen {
          if |pending| == remaining {
            RootsCut(roots, k, remaining);
            truncated := true;
            return;
          }
          AtNext(Distinct(roots[..k]), roots[k], 0);
          seen := seen + {roots[k]};
          pending := pending + [Item(roots[k], 0)];
        }
      }
      assert roots[..|roots|] == roots;
    }

    method InspectFile(p: Path, origin: Origin)
      requires p in fs
      modifies this`models, this`warnings
      ensures models == if fs[p].gguf && Identity(fs, p) !in Resolved(old(models))
                        then old(models) + [Model(p, Identity(fs, p), origin)] else old(models)
      ensures warnings == if fs[p].gguf && fs[p].canonical.None? then old(warnings) + [p] else old(warnings)
    {
      if !fs[p].gguf { return; }
      if fs[p].canonical.None? { warnings := warnings + [p]; }
      if Identity(fs, p) !in Resolved(models) { models := models + [Model(p, Identity(fs, p), origin)]; }
    }

    method InspectSymlink(p: Path, origin: Origin)
      requires p in fs && fs[p].kind == Symlink
      modifies this`models, this`warnings
      ensures models == if IsModel(fs, p) && Identity(fs, p) !in Resolved(old(models))
                        then old(models) + [Model(p, Identity(fs, p), origin)] else old(models)
      ensures warnings == if fs[p].target.None? || fs[p].target == Some(Directory) || (IsModel(fs, p) && fs[p].canonical.None?)
                          then old(warnings) + [p] else old(warnings)
    {
      if fs[p].target.None? || fs[p].target == Some(Directory) {
        warnings := warnings + [p];
      } else if fs[p].target == Some(File) {
        InspectFile(p, origin);
      }
    }

    /** At most as many entries as the budget still allows; one more is noticed and cut off. */
    method BoundedDirectoryChildren(p: Path) returns (children: seq<Path>)
      requires p in fs && fs[p].entries.Some? && visitedEntries <= maxEntries
      modifies this`warnings, this`visitedEntries, this`truncated
      ensures old(visitedEntries) <= visitedEntries <= maxEntries && |children| <= visitedEntries - old(visitedEntries)
      ensures Ascends(children) && forall c | c in children :: ChildOf(fs, p, c)
      ensures Clean() ==> old(Clean()) && forall c | ChildOf(fs, p, c) :: c in children
      ensures truncated == (old(truncated) || |fs[p].entries.value| > maxEntries - old(visitedEntries))
      ensures |fs[p].entries.value| <= maxEntries - old(visitedEntries) ==>
                visitedEntries == old(visitedEntries) + |fs[p].entries.value|
      ensures forall w | w in warnings :: w in old(warnings) || (w == p && None in fs[p].entries.value)
    {
      var entries := fs[p].entries.value;
      var remaining := maxEntries - visitedEntries;
      children := [];
      var index := 0;
      while index < |entries|
        invariant index <= |entries| && index <= remaining && truncated == old(truncated)
        invariant visitedEntries == old(visitedEntries) + index && |children| <= index
        invariant forall c | c in children :: Some(c) in entries
        invariant forall w | w in warnings :: w in old(warnings) || (w == p && None in entries)
        invariant warnings == [] ==> old(warnings) == [] && forall i | 0 <= i < index :: entries[i].Some? && entries[i].value in children
      {
        if index == remaining {
          truncated := true;
          break;
        }
        visitedEntries := visitedEntries + 1;
        if entries[index].Some? { children := children + [entries[index].value]; } else { warnings := warnings + [p]; }
        index := index + 1;
      }
      SortedAscends(children);
      children := Sorted(children);
    }

    /** A directory below the depth limit is listed once, whatever name it is reached by. */
    method InspectDirectory(item: Item, origin: Origin, ghost user: seq<Path>, ghost cache: seq<Path>) returns (more: seq<Item>)
      requires visitedEntries <= maxEntries && IsDirectory(fs, item.path)
      requires Reached(fs, RootsOf(origin, user, cache), item.path, item.depth) && Accounted(user, cache)
      modifies this`warnings, this`visitedEntries, this`truncated, this`visitedDirectories, this`listed
      ensures Accounted(user, cache)
      ensures old(visitedEntries) <= visitedEntries <= maxEntries && |more| <= visitedEntries - old(visitedEntries)
      ensures GoodItems(fs, RootsOf(origin, user, cache), more)
      ensures old(visitedDirectories) <= visitedDirectories <= old(visitedDirectories) + {Identity(fs, item.path)}
      ensures Clean() ==> old(Clean()) && Identity(fs, item.path) in visitedDirectories
      ensures Clean() && visitedDirectories != old(visitedDirectories) ==>
                fs[item.path].entries.Some? && forall c | ChildOf(fs, item.path, c) :: c in Paths(more)
    {
      var p := item.path;
      more := [];
      if item.depth >= maxDepth {
        DepthExplained(fs, user, cache, maxEntries, maxDepth, listed, warnings, truncated, p, item.depth);
        truncated := true;
        warnings := warnings + [p];
        return;
      }
      if Identity(fs, p) in visitedDirectories { return; }
      visitedDirectories := visitedDirectories + {Identity(fs, p)};
      if fs[p].entries.None? {
        ExplainsWarning(fs, user, cache, maxEntries, maxDepth, listed, warnings, truncated, warnings + [p], p, item.depth);
        warnings := warnings + [p];
        return;
      }
      more := ListChildren(item, origin, user, cache, old(visitedDirectories));
    }

    /** What is listed under `item` waits one level deeper. */
    method Inspect(item: Item, origin: Origin, ghost user: seq<Path>, ghost cache: seq<Path>) returns (more: seq<Item>)
      requires visitedEntries <= maxEntries && GoodModels(fs, user, cache, models)
      requires Reached(fs, RootsOf(origin, user, cache), item.path, item.depth) && Accounted(user, cache)
      modifies this
      ensures Accounted(user, cache) && MoreGoodModels(fs, user, cache, old(models), models, origin)
      ensures old(visitedEntries) <= visitedEntries <= maxEntries && |more| <= visitedEntries - old(visitedEntries)
      ensures GoodItems(fs, RootsOf(origin, user, cache), more)
      ensures old(visitedDirectories) <= visitedDirectories
      ensures Clean() ==> old(Clean()) && DealtWith(fs, item, more, old(visitedDirectories), visitedDirectories, models)
    {
      var p := item.path;
      more := [];
      if p !in fs {
        ExplainsWarning(fs, user, cache, maxEntries, maxDepth, listed, warnings, truncated, warnings + [p], p, item.depth);
        warnings := warnings + [p];
        return;
      }
      match fs[p].kind
      case Symlink =>
        InspectSymlink(p, origin);
        FileDealtWith(fs, user, cache, maxEntries, maxDepth, listed, old(warnings), truncated, visitedEntries,
                      visitedDirectories, item, origin, old(models), models, warnings);
      case File =>
        InspectFile(p, origin);
        FileDealtWith(fs, user, cache, maxEntries, maxDepth, listed, old(warnings), truncated, visitedEntries,
                      visitedDirectories, item, origin, old(models), models, warnings);
      case Other =>
      case Directory =>
        more := InspectDirectory(item, origin, user, cache);
    }

    /** Reads a directory that was not visited before (`before` is what was). */
    method ListChildren(item: Item, origin: Origin, ghost user: seq<Path>, ghost cache: seq<Path>, ghost before: set<Path>)
      returns (more: seq<Item>)
      requires visitedEntries <= maxEntries && Accounted(user, cache) && item.depth < maxDepth
      requires IsDirectory(fs, item.path) && fs[item.path].entries.Some?
      requires Reached(fs, RootsOf(origin, user, cache), item.path, item.depth)
      requires Identity(fs, item.path) in visitedDirectories && Identity(fs, item.path) !in before
      requires forall d | d in listed :: Identity(fs, d) in before
      modifies this`warnings, this`visitedEntries, this`truncated, this`listed
      ensures Accounted(user, cache)
      ensures old(visitedEntries) <= visitedEntries <= maxEntries && |more| <= visitedEntries - old(visitedEntries)
      ensures GoodItems(fs, RootsOf(origin, user, cache), more)
      ensures Clean() ==> old(Clean()) && forall c | ChildOf(fs, item.path, c) :: c in Paths(more)
    {
      ghost var visited, cut, noted := visitedEntries, truncated, warnings;
      var children := BoundedDirectoryChildren(item.path);
      ListingExplained(fs, user, cache, maxEntries, maxDepth, listed, noted, cut, visited, item.path, item.depth,
                       warnings, truncated, visitedEntries);
      ghost var all := listed + [item.path];
      forall d | d in all ensures Identity(fs, d) in visitedDirectories { assert d in listed || d == item.path; }
      listed := all;
      more := At(children, item.depth + 1);
      ChildrenReached(fs, RootsOf(origin, user, cache), item.path, item.depth, children);
      PathsAt(children, item.depth + 1);
    }

    /** What holds between two items of the queues. */
    ghost predicate Ready(user: seq<Path>, cache: seq<Path>, userPending: seq<Item>, cachePending: seq<Item>, survey: Survey)
      reads this
    {
      && Accounted(user, cache)
      && OnTheWay(fs, user, cache, survey, userPending, cachePending, models, visitedDirectories, Clean())
    }

    /** Queues the roots of both origins, the user's first. */
    method Start(user: seq<Path>, cache: seq<Path>)
      returns (userPending: seq<Item>, cachePending: seq<Item>, ghost survey: Survey)
      requires models == [] && warnings == [] && visitedEntries == 0 && !truncated && visitedDirectories == {} && listed == []
      modifies this`truncated, this`visitedEntries
      ensures Ready(user, cache, userPending, cachePending, survey)
    {
      userPending := EnqueueRoots(user, maxEntries);
      cachePending := EnqueueRoots(cache, maxEntries - |userPending|);
      visitedEntries := |userPending| + |cachePending|;
      survey := Survey({}, {}, {}, false);
      RootsAccounted(fs, user, cache, maxEntries, maxDepth, userPending, cachePending, truncated, visitedEntries, survey,
                     models, warnings, listed, visitedDirectories);
    }

    method NextOfUser(userPending: seq<Item>, ghost cachePending: seq<Item>, ghost user: seq<Path>, ghost cache: seq<Path>,
                      ghost survey: Survey) returns (pending: seq<Item>, ghost next: Survey)
      requires userPending != [] && Ready(user, cache, userPending, cachePending, survey)
      modifies this
      ensures Ready(user, cache, pending, cachePending, next) && old(visitedEntries) <= visitedEntries
      ensures |pending| < |userPending| + (visitedEntries - old(visitedEntries))
    {
      var item, rest := userPending[0], userPending[1..];
      var more := Inspect(item, UserSelected, user, cache);
      QueueSplits(userPending, fs, user, more);
      MoreModels(old(models), models, UserSelected);
      if Clean() {
        UserStep(fs, user, cache, survey, item, rest, more, cachePending, old(models), models, old(visitedDirectories), visitedDirectories);
      }
      pending := rest + more;
      next := Survey(survey.done + {item.path}, survey.userDone + {item.path}, visitedDirectories, false);
    }

    method NextOfCache(cachePending: seq<Item>, ghost user: seq<Path>, ghost cache: seq<Path>, ghost survey: Survey)
      returns (pending: seq<Item>, ghost next: Survey)
      requires cachePending != [] && Ready(user, cache, [], cachePending, survey)
      modifies this
      ensures Ready(user, cache, [], pending, next) && old(visitedEntries) <= visitedEntries
      ensures |pending| < |cachePending| + (visitedEntries - old(visitedEntries))
    {
      var item, rest := cachePending[0], cachePending[1..];
      var more := Inspect(item, HuggingFaceCache, user, cache);
      QueueSplits(cachePending, fs, cache, more);
      if Clean() {
        CacheStep(fs, user, cache, survey, item, rest, more, old(models), models, old(visitedDirectories), visitedDirectories);
      }
      pending := rest + more;
      next := survey.(done := survey.done + {item.path}, cacheStarted := true);
    }
  }

  ghost predicate MoreGoodModels(fs: FileSystem, user: seq<Path>, cache: seq<Path>, before: seq<Model>, after: seq<Model>, origin: Origin) {
    && GoodModels(fs, user, cache, after) && before <= after
    && forall i | |before| <= i < |after| :: after[i].origin == origin
  }

  lemma ModelsGrow(fs: FileSystem, user: seq<Path>, cache: seq<Path>, before: seq<Model>, after: seq<Model>,
                   p: Path, origin: Origin, n: nat)
    requires GoodModels(fs, user, cache, before)
    requires Reached(fs, RootsOf(origin, user, cache), p, n)
    requires after == if IsModel(fs, p) && Identity(fs, p) !in Resolved(before)
                      then before + [Model(p, Identity(fs, p), origin)] else before
    ensures MoreGoodModels(fs, user, cache, before, after, origin)
    ensures IsModel(fs, p) ==> Identity(fs, p) in Resolved(after)
  {
    if after != before {
      assert Reached(fs, RootsOf(origin, user, cache), p, n);
      assert GoodModel(fs, user, cache, Model(p, Identity(fs, p), origin));
      assert after[|before|].resolved == Identity(fs, p);
      forall i | 0 <= i < |before| ensures before[i].resolved != Identity(fs, p) { assert before[i].resolved in Resolved(before); }
    }
  }

  /** A file or a symbolic link: its model is there, and its warnings are about itself. */
  lemma FileDealtWith(fs: FileSystem, user: seq<Path>, cache: seq<Path>, maxEntries: nat, maxDepth: nat, listed: seq<Path>,
                      noted: seq<Path>, truncated: bool, counted: nat, visited: set<Path>, item: Item, origin: Origin,
                      before: seq<Model>, after: seq<Model>, warnings: seq<Path>)
    requires AccountsFor(fs, user, cache, maxEntries, maxDepth, listed, noted, truncated, counted, visited)
    requires GoodModels(fs, user, cache, before) && Reached(fs, RootsOf(origin, user, cache), item.path, item.depth)
    requires item.path in fs && fs[item.path].kind != Directory
    requires after == if IsModel(fs, item.path) && Identity(fs, item.path) !in Resolved(before)
                      then before + [Model(item.path, Identity(fs, item.path), origin)] else before
    requires warnings == noted || (warnings == noted + [item.path] && Troubled(fs, maxDepth, item.path, item.depth))
    ensures AccountsFor(fs, user, cache, maxEntries, maxDepth, listed, warnings, truncated, counted, visited)
    ensures MoreGoodModels(fs, user, cache, before, after, origin) && DealtWith(fs, item, [], visited, visited, after)
  {
    ModelsGrow(fs, user, cache, before, after, item.path, origin, item.depth);
    if warnings != noted {
      ExplainsWarning(fs, user, cache, maxEntries, maxDepth, listed, noted, truncated, warnings, item.path, item.depth);
    }
  }

  datatype Report = Report(models: seq<Model>, warnings: seq<Path>, visitedEntries: nat, truncated: bool)

  datatype DiscoveryError = ZeroEntryLimit

  /** Every reachable model is there under its canonical path, and what a user root reaches is there as the user's. */
  ghost predicate Complete(fs: FileSystem, user: seq<Path>, cache: seq<Path>, models: seq<Model>) {
    && (forall p, n: nat | Reached(fs, user, p, n) && IsModel(fs, p) :: Identity(fs, p) in ResolvedBy(models, UserSelected))
    && (forall p, n: nat | Reached(fs, cache, p, n) && IsModel(fs, p) :: Identity(fs, p) in Resolved(models))
  }

  lemma QueueStep(item: Item, rest: seq<Item>, more: seq<Item>, other: set<Path>)
    ensures Paths([item] + rest) + other <= Paths(rest + more) + other + {item.path}
    ensures Paths(more) <= Paths(rest + more)
  {
    PathsJoin([item], rest);
    PathsJoin(rest, more);
    PathsOfOne(item);
  }

  lemma MoreModels(before: seq<Model>, after: seq<Model>, origin: Origin)
    requires before <= after && forall i | |before| <= i < |after| :: after[i].origin == origin
    ensures Resolved(before) <= Resolved(after) && ResolvedBy(before, UserSelected) <= ResolvedBy(after, UserSelected)
    ensures origin == HuggingFaceCache ==> ResolvedBy(before, UserSelected) == ResolvedBy(after, UserSelected)
    ensures origin == UserSelected && Resolved(before) == ResolvedBy(before, UserSelected) ==>
              Resolved(after) == ResolvedBy(after, UserSelected)
  {
    forall x | x in Resolved(before) ensures x in Resolved(after) {
      var i :| 0 <= i < |before| && before[i].resolved == x;
      assert after[i].resolved == x;
    }
    forall x | x in ResolvedBy(before, UserSelected) ensures x in ResolvedBy(after, UserSelected) {
      var i :| 0 <= i < |before| && before[i].origin == UserSelected && before[i].resolved == x;
      assert after[i].origin == UserSelected && after[i].resolved == x;
    }
    if origin == HuggingFaceCache {
      forall x | x in ResolvedBy(after, UserSelected) ensures x in ResolvedBy(before, UserSelected) {
        var i :| 0 <= i < |after| && after[i].origin == UserSelected && after[i].resolved == x;
        assert i < |before|;
      }
    } else if Resolved(before) == ResolvedBy(before, UserSelected) {
      forall x | x in Resolved(after) ensures x in ResolvedBy(after, UserSelected) {
        var i :| 0 <= i < |after| && after[i].resolved == x;
        if i < |before| { assert before[i].resolved in Resolved(before); }
      }
    }
  }

  lemma ExploredMeansComplete(fs: FileSystem, user: seq<Path>, cache: seq<Path>, models: seq<Model>, done: set<Path>,
                              visited: set<Path>, userDone: set<Path>, userVisited: set<Path>)
    requires Coherent(fs) && Explored(fs, user, userDone, {}, userVisited, ResolvedBy(models, UserSelected))
    requires Explored(fs, cache, done, {}, visited, Resolved(models))
    ensures Complete(fs, user, cache, models)
  {
    forall p, n: nat | Reached(fs, user, p, n) && IsModel(fs, p) ensures Identity(fs, p) in ResolvedBy(models, UserSelected) {
      var q := ExploredIsComplete(fs, user, userDone, userVisited, ResolvedBy(models, UserSelected), p, n);
    }
    forall p, n: nat | Reached(fs, cache, p, n) && IsModel(fs, p) ensures Identity(fs, p) in Resolved(models) {
      var q := ExploredIsComplete(fs, cache, done, visited, Resolved(models), p, n);
    }
  }

  // ---------- The whole scan ----------

  /**
   What the proof remembers: what was dealt with, for both origins and for the user's alone, and
   which directories the user's roots led to before the cache had its turn.
   */
  datatype Survey = Survey(done: set<Path>, userDone: set<Path>, userVisited: set<Path>, cacheStarted: bool)

  ghost predicate Phased(s: Survey, userPending: seq<Item>, models: seq<Model>, visited: set<Path>) {
    if s.cacheStarted then userPending == [] else s.userVisited == visited && Resolved(models) == ResolvedBy(models, UserSelected)
  }

  ghost predicate Surveyed(fs: FileSystem, user: seq<Path>, cache: seq<Path>, s: Survey, userPending: seq<Item>,
                           cachePending: seq<Item>, models: seq<Model>, visited: set<Path>)
  {
    && Explored(fs, user, s.userDone, Paths(userPending), s.userVisited, ResolvedBy(models, UserSelected))
    && Explored(fs, cache, s.done, Paths(cachePending) + Paths(userPending), visited, Resolved(models))
  }

  ghost predicate OnTheWay(fs: FileSystem, user: seq<Path>, cache: seq<Path>, s: Survey, userPending: seq<Item>,
                           cachePending: seq<Item>, models: seq<Model>, visited: set<Path>, clean: bool)
  {
    && GoodModels(fs, user, cache, models) && GoodItems(fs, user, userPending) && GoodItems(fs, cache, cachePending)
    && Phased(s, userPending, models, visited)
    && (clean ==> Surveyed(fs, user, cache, s, userPending, cachePending, models, visited))
  }

  /** What dealing with one item has to show for the survey to go on. */
  ghost predicate DealtWith(fs: FileSystem, item: Item, more: seq<Item>, visited: set<Path>, visited': set<Path>, models': seq<Model>) {
    && visited <= visited' <= visited + {Identity(fs, item.path)}
    && SettledPath(fs, item.path, visited', Resolved(models'))
    && (visited' != visited ==>
          IsDirectory(fs, item.path) && fs[item.path].entries.Some? && forall c | ChildOf(fs, item.path, c) :: c in Paths(more))
  }

  lemma UserStep(fs: FileSystem, user: seq<Path>, cache: seq<Path>, s: Survey, item: Item, rest: seq<Item>, more: seq<Item>,
                 cachePending: seq<Item>, models: seq<Model>, models': seq<Model>, visited: set<Path>, visited': set<Path>)
    requires Phased(s, [item] + rest, models, visited)
    requires Surveyed(fs, user, cache, s, [item] + rest, cachePending, models, visited)
    requires models <= models' && forall i | |models| <= i < |models'| :: models'[i].origin == UserSelected
    requires DealtWith(fs, item, more, visited, visited', models')
    ensures Surveyed(fs, user, cache, Survey(s.done + {item.path}, s.userDone + {item.path}, visited', false), rest + more,
                     cachePending, models', visited')
  {
    MoreModels(models, models', UserSelected);
    QueueStep(item, rest, more, {});
    QueueStep(item, rest, more, Paths(cachePending));
    ExploredStep(fs, user, s.userDone, Paths([item] + rest), s.userVisited, ResolvedBy(models, UserSelected), item.path,
                 Paths(rest + more), visited', ResolvedBy(models', UserSelected));
    ExploredStep(fs, cache, s.done, Paths(cachePending) + Paths([item] + rest), visited, Resolved(models), item.path,
                 Paths(cachePending) + Paths(rest + more), visited', Resolved(models'));
  }

  lemma CacheStep(fs: FileSystem, user: seq<Path>, cache: seq<Path>, s: Survey, item: Item, rest: seq<Item>, more: seq<Item>,
                  models: seq<Model>, models': seq<Model>, visited: set<Path>, visited': set<Path>)
    requires Surveyed(fs, user, cache, s, [], [item] + rest, models, visited)
    requires models <= models' && forall i | |models| <= i < |models'| :: models'[i].origin == HuggingFaceCache
    requires DealtWith(fs, item, more, visited, visited', models')
    ensures Surveyed(fs, user, cache, s.(done := s.done + {item.path}, cacheStarted := true), [], rest + more, models', visited')
  {
    MoreModels(models, models', HuggingFaceCache);
    QueueStep(item, rest, more, {});
    assert Paths([]) == {};
    ExploredStep(fs, cache, s.done, Paths([item] + rest) + Paths([]), visited, Resolved(models), item.path,
                 Paths(rest + more) + Paths([]), visited', Resolved(models'));
  }

  lemma RootsReached(fs: FileSystem, roots: seq<Path>, remaining: nat)
    ensures GoodItems(fs, roots, At(Admitted(roots, remaining), 0))
  {
    var paths := Admitted(roots, remaining);
    forall i | 0 <= i < |paths| ensures paths[i] in roots { assert paths[i] in Distinct(roots); }
  }

  /** Before anything is inspected, the roots are pending, and they are cut off only if they are too many. */
  lemma RootsAccounted(fs: FileSystem, user: seq<Path>, cache: seq<Path>, maxEntries: nat, maxDepth: nat,
                       userPending: seq<Item>, cachePending: seq<Item>, cut: bool, counted: nat, survey: Survey,
                       models: seq<Model>, warnings: seq<Path>, listed: seq<Path>, visited: set<Path>)
    requires models == [] && warnings == [] && listed == [] && visited == {} && survey == Survey({}, {}, {}, false)
    requires userPending == At(Admitted(user, maxEntries), 0)
    requires cachePending == At(Admitted(cache, maxEntries - |userPending|), 0)
    requires cut == (|Distinct(user)| > maxEntries || |Distinct(cache)| > maxEntries - |userPending|)
    requires counted == |userPending| + |cachePending|
    ensures AccountsFor(fs, user, cache, maxEntries, maxDepth, listed, warnings, cut, counted, visited)
    ensures OnTheWay(fs, user, cache, survey, userPending, cachePending, models, visited, !cut && warnings == [])
  {
    RootsReached(fs, user, maxEntries);
    RootsReached(fs, cache, maxEntries - |userPending|);
    if !cut { NothingSurveyed(fs, user, cache); }
  }

  lemma NothingSurveyed(fs: FileSystem, user: seq<Path>, cache: seq<Path>)
    ensures Surveyed(fs, user, cache, Survey({}, {}, {}, false), At(Distinct(user), 0), At(Distinct(cache), 0), [], {})
  {
    PathsAt(Distinct(user), 0);
    PathsAt(Distinct(cache), 0);
  }

  lemma QueueSplits(queue: seq<Item>, fs: FileSystem, roots: seq<Path>, more: seq<Item>)
    requires queue != [] && GoodItems(fs, roots, queue) && GoodItems(fs, roots, more)
    ensures queue == [queue[0]] + queue[1..] && GoodItems(fs, roots, queue[1..] + more)
  {}

  /** What no caller's tree should have, if the report is to be clean: trouble within reach, or too much to list. */
  ghost predicate Tame(fs: FileSystem, user: seq<Path>, cache: seq<Path>, maxEntries: nat, maxDepth: nat) {
    && (forall p, n: nat | ReachedFrom(fs, user, cache, p, n) :: !Troubled(fs, maxDepth, p, n))
    && (forall listed | Listing(fs, user, cache, maxDepth, listed) ::
          RootCount(user, cache) + EntryTotal(fs, listed) <= maxEntries)
  }

  lemma SomeElement(s: seq<Path>)
    ensures s != [] ==> exists x :: x in s
  {
    if s != [] { assert s[0] in s; }
  }

  lemma TameIsClean(fs: FileSystem, user: seq<Path>, cache: seq<Path>, maxEntries: nat, maxDepth: nat, listed: seq<Path>,
                    warnings: seq<Path>, truncated: bool)
    requires Explained(fs, user, cache, maxEntries, maxDepth, listed, warnings, truncated)
    requires Tame(fs, user, cache, maxEntries, maxDepth)
    ensures !truncated && warnings == []
  {
    SomeElement(warnings);
    assert !TooDeep(fs, user, cache, maxDepth);
  }

  /**
   What a report is held to. Each cut and each warning has its cause, so a tame tree gives a clean
   report; and a clean report holds every reachable model once, as the user's wherever it can.
   */
  ghost predicate Faithful(fs: FileSystem, user: seq<Path>, cache: seq<Path>, maxEntries: nat, maxDepth: nat,
                           report: Report, listed: seq<Path>)
  {
    && report.visitedEntries <= maxEntries && GoodModels(fs, user, cache, report.models)
    && (!report.truncated && report.warnings == [] && Coherent(fs) ==> Complete(fs, user, cache, report.models))
    && Explained(fs, user, cache, maxEntries, maxDepth, listed, report.warnings, report.truncated)
    && (Tame(fs, user, cache, maxEntries, maxDepth) ==> !report.truncated && report.warnings == [])
  }

  lemma ReportIsFaithful(fs: FileSystem, user: seq<Path>, cache: seq<Path>, maxEntries: nat, maxDepth: nat,
                         report: Report, listed: seq<Path>, survey: Survey, visited: set<Path>)
    requires report.visitedEntries <= maxEntries && GoodModels(fs, user, cache, report.models)
    requires Explained(fs, user, cache, maxEntries, maxDepth, listed, report.warnings, report.truncated)
    requires !report.truncated && report.warnings == [] ==> Surveyed(fs, user, cache, survey, [], [], report.models, visited)
    ensures Faithful(fs, user, cache, maxEntries, maxDepth, report, listed)
  {
    if !report.truncated && report.warnings == [] && Coherent(fs) {
      assert Paths([]) + Paths([]) == Paths([]) == {};
      ExploredMeansComplete(fs, user, cache, report.models, survey.done, visited, survey.userDone, survey.userVisited);
    }
    if Tame(fs, user, cache, maxEntries, maxDepth) {
      TameIsClean(fs, user, cache, maxEntries, maxDepth, listed, report.warnings, report.truncated);
    }
  }

  /** The scan stays within its budget and ends on any file system; user roots are scanned before cache roots. */
  method DiscoverGgufModels(fs: FileSystem, user: seq<Path>, cache: seq<Path>, maxEntries: nat, maxDepth: nat)
    returns (r: Result<Report, DiscoveryError>, ghost listed: seq<Path>)
    ensures r.Err? <==> maxEntries == 0
    ensures r.Ok? ==> Faithful(fs, user, cache, maxEntries, maxDepth, r.value, listed)
  {
    listed := [];
    if maxEntries == 0 { return Err(ZeroEntryLimit), listed; }
    var scan := new Scan(fs, maxEntries, maxDepth);
    var userPending, cachePending;
    ghost var survey;
    userPending, cachePending, survey := scan.Start(user, cache);
    while userPending != [] || cachePending != []
      invariant fresh(scan) && scan.fs == fs && scan.maxEntries == maxEntries && scan.maxDepth == maxDepth
      invariant scan.Ready(user, cache, userPending, cachePending, survey)
      decreases maxEntries - scan.visitedEntries, |userPending| + |cachePending|
    {
      if userPending != [] {
        userPending, survey := scan.NextOfUser(userPending, cachePending, user, cache, survey);
      } else {
        cachePending, survey := scan.NextOfCache(cachePending, user, cache, survey);
      }
    }
    listed := scan.listed;
    var report := Report(scan.models, scan.warnings, scan.visitedEntries, scan.truncated);
    ReportIsFaithful(fs, user, cache, maxEntries, maxDepth, report, listed, survey, scan.visitedDirectories);
    return Ok(report), listed;
  }
}
