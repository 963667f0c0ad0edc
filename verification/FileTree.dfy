/** What a bounded scan is meant to find. */
module FileTree {
  import opened Wrappers

  /** A path, as its rank in the order of paths. */
  type Path = nat

  datatype Kind = Directory | File | Symlink | Other

  /**
   What the calls on one path answer: its own kind, the kind behind a symbolic link, its canonical
   path, its directory entries (each may fail to read), and whether its extension is `gguf`.
   */
  datatype Node = Node(kind: Kind, target: Option<Kind>, canonical: Option<Path>,
                       entries: Option<seq<Option<Path>>>, gguf: bool)

  /** A path without a node cannot be inspected. */
  type FileSystem = map<Path, Node>

  predicate IsDirectory(fs: FileSystem, p: Path) {
    p in fs && fs[p].kind == Directory
  }

  /** A model file, directly or behind a symbolic link to a file. */
  predicate IsModel(fs: FileSystem, p: Path) {
    p in fs && fs[p].gguf && (fs[p].kind == File || (fs[p].kind == Symlink && fs[p].target == Some(File)))
  }

  /** What deduplication goes by: the canonical path, or the path itself where there is none. */
  function Identity(fs: FileSystem, p: Path): Path {
    if p in fs && fs[p].canonical.Some? then fs[p].canonical.value else p
  }

  ghost predicate ChildOf(fs: FileSystem, d: Path, c: Path) {
    d in fs && fs[d].entries.Some? && Some(c) in fs[d].entries.value
  }

  /** Reached from the roots over `n` real directories. */
  ghost predicate Reached(fs: FileSystem, roots: seq<Path>, p: Path, n: nat)
    decreases n
  {
    if n == 0 then p in roots
    else exists d :: Reached(fs, roots, d, n - 1) && IsDirectory(fs, d) && ChildOf(fs, d, p)
  }

  /** Two paths that name the same thing. */
  ghost predicate Same(fs: FileSystem, p: Path, q: Path) {
    && p in fs && q in fs && Identity(fs, p) == Identity(fs, q)
    && fs[p].kind == fs[q].kind && IsModel(fs, p) == IsModel(fs, q)
  }

  /** What directory `e` lists as `c`, directory `d` lists under some name, if the two are the same directory. */
  ghost predicate CoherentAt(fs: FileSystem, d: Path, e: Path, c: Path) {
    IsDirectory(fs, d) && IsDirectory(fs, e) && Identity(fs, d) == Identity(fs, e) && ChildOf(fs, e, c)
    && fs[d].entries.Some? && c in fs ==>
      exists c' :: ChildOf(fs, d, c') && Same(fs, c, c')
  }

  ghost predicate Coherent(fs: FileSystem) {
    forall d, e, c {:trigger CoherentAt(fs, d, e, c)} :: CoherentAt(fs, d, e, c)
  }

  // ---------- What has been seen so far ----------

  /** Nothing is left to do for this path itself. */
  ghost predicate SettledPath(fs: FileSystem, p: Path, visited: set<Path>, resolved: set<Path>) {
    && p in fs
    && (fs[p].kind == Directory ==> Identity(fs, p) in visited)
    && (IsModel(fs, p) ==> Identity(fs, p) in resolved)
  }

  ghost predicate Listed(fs: FileSystem, d: Path, done: set<Path>, pending: set<Path>) {
    d in done && IsDirectory(fs, d) && fs[d].entries.Some? && forall c | ChildOf(fs, d, c) :: c in done || c in pending
  }

  ghost predicate Explored(fs: FileSystem, roots: seq<Path>, done: set<Path>, pending: set<Path>,
                           visited: set<Path>, resolved: set<Path>)
  {
    && (forall r | r in roots :: r in done || r in pending)
    && (forall p | p in done :: SettledPath(fs, p, visited, resolved))
    && (forall k | k in visited :: exists d :: Identity(fs, d) == k && Listed(fs, d, done, pending))
  }

  /** One pending path is dealt with; what it adds is pending. */
  lemma ExploredStep(fs: FileSystem, roots: seq<Path>, done: set<Path>, pending: set<Path>, visited: set<Path>,
                     resolved: set<Path>, p: Path, pending': set<Path>, visited': set<Path>, resolved': set<Path>)
    requires Explored(fs, roots, done, pending, visited, resolved) && pending <= pending' + {p}
    requires visited <= visited' <= visited + {Identity(fs, p)} && resolved <= resolved'
    requires SettledPath(fs, p, visited', resolved')
    requires visited' != visited ==>
               IsDirectory(fs, p) && fs[p].entries.Some? && forall c | ChildOf(fs, p, c) :: c in pending'
    ensures Explored(fs, roots, done + {p}, pending', visited', resolved')
  {
    forall k | k in visited' ensures exists d :: Identity(fs, d) == k && Listed(fs, d, done + {p}, pending') {
      if k in visited {
        var d :| Identity(fs, d) == k && Listed(fs, d, done, pending);
        assert Listed(fs, d, done + {p}, pending');
      } else {
        assert Listed(fs, p, done + {p}, pending');
      }
    }
  }

  /** When nothing is pending, everything reachable has been seen under some name. */
  lemma {:induction false} ExploredIsComplete(fs: FileSystem, roots: seq<Path>, done: set<Path>, visited: set<Path>,
                                              resolved: set<Path>, p: Path, n: nat) returns (q: Path)
    requires Coherent(fs) && Explored(fs, roots, done, {}, visited, resolved) && Reached(fs, roots, p, n)
    requires p in fs
    ensures q in done && Same(fs, p, q)
    ensures IsModel(fs, p) ==> Identity(fs, p) in resolved
    decreases n
  {
    if n == 0 {
      q := p;
    } else {
      var d :| Reached(fs, roots, d, n - 1) && IsDirectory(fs, d) && ChildOf(fs, d, p);
      var d' := ExploredIsComplete(fs, roots, done, visited, resolved, d, n - 1);
      assert SettledPath(fs, d', visited, resolved) && Identity(fs, d) in visited;
      var e :| Identity(fs, e) == Identity(fs, d) && Listed(fs, e, done, {});
      assert CoherentAt(fs, e, d, p);
      q :| ChildOf(fs, e, q) && Same(fs, p, q);
    }
    assert SettledPath(fs, q, visited, resolved);
  }
}
