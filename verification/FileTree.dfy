/** The directory tree made from the file map: children are linked to their parents in
    whatever order the map is visited, then sorted. */
module FileTree {
  import opened Ordering
  import opened LayerOverlay

  datatype Tree = Tree(path: Path, node: Node, children: seq<Tree>)

  function Name(p: Path): string {
    if p == [] then "/" else p[|p| - 1]
  }

  predicate IsDirectory(fs: Files, p: Path) {
    p in fs && fs[p].kind == Dir
  }

  /** Directories first, then by name. */
  predicate ListedBefore(fs: Files, p: Path, q: Path) {
    || (IsDirectory(fs, p) && !IsDirectory(fs, q))
    || (IsDirectory(fs, p) == IsDirectory(fs, q) && StringLe(Name(p), Name(q)))
  }

  function ListOrder(fs: Files): (Path, Path) -> bool {
    (p, q) => ListedBefore(fs, p, q)
  }

  lemma ListOrderIsPreorder(fs: Files)
    ensures Preorder(ListOrder(fs))
  {
    var le := ListOrder(fs);
    forall x, y ensures le(x, y) || le(y, x) {
      StringLeTotal(Name(x), Name(y));
    }
    forall x, y, z | le(x, y) && le(y, z) ensures le(x, z) {
      if StringLe(Name(x), Name(y)) && StringLe(Name(y), Name(z)) {
        StringLeTransitive(Name(x), Name(y), Name(z));
      }
    }
  }

  ghost predicate ChildOf(fs: Files, d: Path, p: Path) {
    IsDirectory(fs, d) && p in fs && p != [] && Parent(p) == d
  }

  function PathsOf(ts: seq<Tree>): seq<Path> {
    seq(|ts|, i requires 0 <= i < |ts| => ts[i].path)
  }

  /** A listing of the directory `d`: its entries, each once, in order. */
  ghost predicate Listing(fs: Files, d: Path, ps: seq<Path>) {
    && Distinct(ps) && Sorted(ps, ListOrder(fs))
    && forall p :: p in ps <==> ChildOf(fs, d, p)
  }

  ghost predicate IsTree(fs: Files, t: Tree) {
    && t.path in fs && t.node == fs[t.path]
    && Listing(fs, t.path, PathsOf(t.children))
    && forall c :: c in t.children ==> IsTree(fs, c)
  }

  lemma ListingUnique(fs: Files, d: Path, ps: seq<Path>, qs: seq<Path>)
    requires Listing(fs, d, ps) && Listing(fs, d, qs)
    ensures ps == qs
  {
    DistinctSame(ps, qs);
    var le := ListOrder(fs);
    forall p, q | p in ps && q in ps && le(p, q) && le(q, p) ensures p == q {
      StringLeAntisymmetric(Name(p), Name(q));
      assert p == Parent(p) + [Name(p)] && q == Parent(q) + [Name(q)];
    }
    SortedUnique(ps, qs, le);
  }

  /** There is one tree for a map, whatever order its entries are visited in. */
  lemma {:induction false} TreeUnique(fs: Files, t: Tree, u: Tree)
    requires IsTree(fs, t) && IsTree(fs, u) && t.path == u.path
    ensures t == u
  {
    ListingUnique(fs, t.path, PathsOf(t.children), PathsOf(u.children));
    assert |PathsOf(t.children)| == |t.children| && |PathsOf(u.children)| == |u.children|;
    forall i | 0 <= i < |t.children| ensures t.children[i] == u.children[i] {
      assert PathsOf(t.children)[i] == PathsOf(u.children)[i];
      TreeUnique(fs, t.children[i], u.children[i]);
    }
  }

  // The entries a tree shows.

  ghost function Shown(t: Tree): multiset<Path> {
    multiset{t.path} + ShownIn(t.children)
  }

  ghost function ShownIn(ts: seq<Tree>): multiset<Path> {
    if ts == [] then multiset{} else Shown(ts[0]) + ShownIn(ts[1..])
  }

  /** `p` is an entry at or below `d`, and everything from `d` down to its parent is a directory. */
  ghost predicate Reachable(fs: Files, d: Path, p: Path) {
    && p in fs && Within(d, p)
    && forall q :: Within(d, q) && Within(q, p) && q != p ==> IsDirectory(fs, q)
  }

  lemma OneAtDepth(p: Path, depth: nat)
    ensures forall q, r: Path :: Within(q, p) && Within(r, p) && |q| == |r| == depth ==> q == r
  {
    forall q: Path, r: Path | Within(q, p) && Within(r, p) && |q| == |r| == depth ensures q == r {
      assert q == p[..depth] == r;
    }
  }

  lemma {:induction false} ForestShows(fs: Files, ts: seq<Tree>, depth: nat, p: Path)
    requires forall t :: t in ts ==> IsTree(fs, t) && |t.path| == depth
    requires Distinct(PathsOf(ts))
    ensures ShownIn(ts)[p] == if exists t :: t in ts && Reachable(fs, t.path, p) then 1 else 0
    decreases ts, 0
  {
    if ts != [] {
      var rest := ts[1..];
      assert PathsOf(rest) == PathsOf(ts)[1..];
      TreeShows(fs, ts[0], p);
      ForestShows(fs, rest, depth, p);
      assert forall t :: t in ts <==> t == ts[0] || t in rest;
      if Reachable(fs, ts[0].path, p) {
        forall t | t in rest ensures t.path != ts[0].path {
          var i :| 0 <= i < |rest| && rest[i] == t;
          assert PathsOf(ts)[i + 1] == t.path && PathsOf(ts)[0] == ts[0].path;
        }
        assert forall t :: t in rest ==> !Within(t.path, p) by {
          OneAtDepth(p, depth);
        }
      }
    }
  }

  lemma ChildrenAreChildren(fs: Files, t: Tree, c: Tree)
    requires IsTree(fs, t) && c in t.children
    ensures ChildOf(fs, t.path, c.path) && |c.path| == |t.path| + 1
  {
    assert |PathsOf(t.children)| == |t.children|;
    var i :| 0 <= i < |t.children| && t.children[i] == c;
    assert PathsOf(t.children)[i] in PathsOf(t.children);
  }

  lemma ReachableFromChild(fs: Files, d: Path, c: Path, p: Path)
    requires ChildOf(fs, d, c) && Reachable(fs, c, p)
    ensures Reachable(fs, d, p)
  {
    assert Within(d, c);
    forall q | Within(d, q) && Within(q, p) && q != p ensures IsDirectory(fs, q) {
      if |q| == |d| {
        assert q == d;
      } else {
        assert q[..|c|] == p[..|c|] == c;
        assert Within(c, q);
      }
    }
  }

  lemma ReachableThroughChild(fs: Files, d: Path, p: Path) returns (c: Path)
    requires p != d && Reachable(fs, d, p)
    ensures ChildOf(fs, d, c) && Reachable(fs, c, p)
  {
    c := p[..|d| + 1];
    assert Within(c, p) && Within(d, c) && Within(d, d) && Parent(c) == d;
    assert c == p || IsDirectory(fs, c);
    forall q | Within(c, q) && Within(q, p) && q != p ensures IsDirectory(fs, q) {
      assert Within(d, q);
    }
  }

  /** Main result: the tree shows every reachable entry exactly once, and nothing else. */
  lemma {:induction false} TreeShows(fs: Files, t: Tree, p: Path)
    requires IsTree(fs, t)
    ensures Shown(t)[p] == if Reachable(fs, t.path, p) then 1 else 0
    decreases t, 1
  {
    hide Reachable, ChildOf;
    var d := t.path;
    forall c | c in t.children ensures ChildOf(fs, d, c.path) && |c.path| == |d| + 1 {
      ChildrenAreChildren(fs, t, c);
    }
    ForestShows(fs, t.children, |d| + 1, p);
    forall c | c in t.children && Reachable(fs, c.path, p) ensures Reachable(fs, d, p) {
      ReachableFromChild(fs, d, c.path, p);
    }
    if p == d {
      ReachesItself(fs, t);
    } else if Reachable(fs, d, p) {
      var c := ReachableThroughChild(fs, d, p);
      assert c in PathsOf(t.children);
    }
  }

  lemma ReachesItself(fs: Files, t: Tree)
    requires IsTree(fs, t)
    ensures Reachable(fs, t.path, t.path)
    ensures forall c :: c in t.children ==> !Reachable(fs, c.path, t.path)
  {
    forall c | c in t.children ensures !Within(c.path, t.path) {
      ChildrenAreChildren(fs, t, c);
    }
    assert forall q :: Within(t.path, q) && Within(q, t.path) ==> q == t.path;
  }

  // The builder.

  /** Links every entry to its parent, visiting the map in any order. */
  method LinkChildren(fs: Files) returns (kids: map<Path, seq<Path>>)
    ensures forall d :: d in kids <==> IsDirectory(fs, d)
    ensures forall d :: d in kids ==> Distinct(kids[d]) && forall p :: p in kids[d] <==> ChildOf(fs, d, p)
  {
    kids := map d | d in fs && fs[d].kind == Dir :: [];
    var todo := fs.Keys;
    while todo != {}
      invariant todo <= fs.Keys
      invariant forall d :: d in kids <==> IsDirectory(fs, d)
      invariant forall d :: d in kids ==> Distinct(kids[d])
      invariant forall d, p :: d in kids ==> (p in kids[d] <==> p !in todo && ChildOf(fs, d, p))
      decreases todo
    {
      var p :| p in todo;
      if p != [] {
        var parent := Parent(p);
        if parent in fs && fs[parent].kind == Dir {
          var found := p in kids[parent];
          if !found {
            kids := kids[parent := kids[parent] + [p]];
          }
        }
      }
      todo := todo - {p};
    }
  }

  ghost function Below(fs: Files, p: Path): set<Path> {
    set q | q in fs && Within(p, q) && q != p
  }

  /** Sorts the children of a node, then those of each child. */
  method SortFileTree(fs: Files, kids: map<Path, seq<Path>>, p: Path) returns (t: Tree)
    requires forall d :: d in kids <==> IsDirectory(fs, d)
    requires forall d :: d in kids ==> Distinct(kids[d]) && forall q :: q in kids[d] <==> ChildOf(fs, d, q)
    requires p in fs
    ensures IsTree(fs, t) && t.path == p
    decreases Below(fs, p)
  {
    if p !in kids {
      t := Tree(p, fs[p], []);
      return;
    }
    var names := Sort(kids[p], ListOrder(fs));
    SortedListing(fs, p, kids[p]);
    var children: seq<Tree> := [];
    for i := 0 to |names|
      invariant |children| == i
      invariant forall k :: 0 <= k < i ==> children[k].path == names[k] && IsTree(fs, children[k])
    {
      assert ChildOf(fs, p, names[i]);
      assert names[i] in Below(fs, p) && names[i] !in Below(fs, names[i]);
      assert Below(fs, names[i]) <= Below(fs, p);
      var c := SortFileTree(fs, kids, names[i]);
      children := children + [c];
    }
    assert PathsOf(children) == names;
    t := Tree(p, fs[p], children);
  }

  lemma SortedListing(fs: Files, d: Path, ps: seq<Path>)
    requires Distinct(ps) && forall p :: p in ps <==> ChildOf(fs, d, p)
    ensures Listing(fs, d, Sort(ps, ListOrder(fs)))
  {
    var le := ListOrder(fs);
    ListOrderIsPreorder(fs);
    SortKeeps(ps, le);
    SortSorted(ps, le);
    forall x ensures multiset(Sort(ps, le))[x] <= 1 {
      DistinctCounts(ps, x);
    }
    CountsDistinct(Sort(ps, le));
  }

  lemma {:induction false} FoldRoot(es: seq<Entry>)
    ensures [] in Fold(es) ==> Fold(es)[[]] == ROOT_NODE
  {
    if es != [] {
      var n := |es| - 1;
      FoldRoot(es[..n]);
      FoldClosed(es[..n]);
      if IsWrite(es[n]) {
        WithParentsAdds(Fold(es[..n]), es[n].path);
      }
    }
  }

  /** The tree of the entries read. The root object outlives its map entry: should a whiteout
      have deleted the entry, nothing can be linked to it and the tree is empty. */
  ghost predicate IsBuilt(es: seq<Entry>, root: Tree) {
    && root.path == [] && root.node == ROOT_NODE
    && if [] in Fold(es) then IsTree(Fold(es), root) else root.children == []
  }

  /** The builder: the tree of the entries before the file-count limit, their number and size. */
  method BuildFilesystemTree(layers: seq<seq<Entry>>, limit: nat) returns (root: Tree, totalFiles: nat, totalSize: nat)
    ensures var all := Concat(layers);
      && Read(all, limit) <= |all|
      && var read := all[..Read(all, limit)];
         IsBuilt(read, root) && totalFiles == Writes(read) <= limit && totalSize == TotalSize(read)
  {
    var fileMap: FileMap;
    fileMap, totalFiles, totalSize := BuildFileMap(layers, limit);
    var fs := fileMap.nodes;
    ReadBound(Concat(layers), limit);
    FoldRoot(Concat(layers)[..Read(Concat(layers), limit)]);
    var kids := LinkChildren(fs);
    if [] in fs {
      root := SortFileTree(fs, kids, []);
    } else {
      root := Tree([], ROOT_NODE, []);
    }
  }

  /** The two results together: a path is shown in the built tree exactly when some entry
      wrote it or a path below it and no later whiteout removed it, and all its proper
      ancestors are directories of the map; and then it is shown once. */
  lemma BuiltTreeShows(es: seq<Entry>, root: Tree, p: Path)
    requires IsTree(Fold(es), root) && root.path == []
    ensures Shown(root)[p] <= 1
    ensures Shown(root)[p] == 1 <==>
            Present(es, p) && forall q :: Within(q, p) && q != p ==> IsDirectory(Fold(es), q)
  {
    TreeShows(Fold(es), root, p);
    FoldContents(es, p);
    assert forall q :: Within([], q);
  }

  // The tree and the single-file reader.

  /** The tree has a node for `p` that is a file or a link. */
  ghost predicate HasFile(t: Tree, p: Path) {
    (t.path == p && t.node.kind != Dir) || exists c :: c in t.children && HasFile(c, p)
  }

  lemma {:induction false} HasFileIff(fs: Files, t: Tree, p: Path)
    requires IsTree(fs, t)
    ensures HasFile(t, p) <==> Reachable(fs, t.path, p) && fs[p].kind != Dir
  {
    forall c | c in t.children ensures HasFile(c, p) <==> Reachable(fs, c.path, p) && fs[p].kind != Dir {
      HasFileIff(fs, c, p);
    }
    if c :| c in t.children && HasFile(c, p) {
      ChildrenAreChildren(fs, t, c);
      ReachableFromChild(fs, t.path, c.path, p);
    }
    if p != t.path && Reachable(fs, t.path, p) {
      var d := ReachableThroughChild(fs, t.path, p);
      assert d in PathsOf(t.children);
      var i :| 0 <= i < |t.children| && PathsOf(t.children)[i] == d;
      assert t.children[i] in t.children && t.children[i].path == d;
    }
    if p == t.path {
      assert Reachable(fs, p, p) by { ReachesItself(fs, t); }
    }
  }

  /** Something above the target keeps the tree from showing it: a file or link in a directory's
      place, under which older entries stay in the map, or a whiteout that took the root entry. */
  ghost predicate Hidden(es: seq<Entry>, p: Path) {
    || (exists q, k :: q != [] && q != p && Within(q, p) && HoldsFile(es, q, k))
    || (exists j :: 0 <= j < |es| && Whites(es[j], []))
  }

  ghost predicate Held(es: seq<Entry>, p: Path) {
    exists k :: HoldsFile(es, p, k)
  }

  lemma AncestorsAreDirectories(es: seq<Entry>, p: Path)
    requires p != [] && p in Fold(es)
    ensures Hidden(es, p) <==> !forall q :: Within(q, p) && q != p ==> IsDirectory(Fold(es), q)
  {
    FoldContents(es, []);
    FoldRoot(es);
    FoldClosed(es);
    forall q | q != [] && q != p && Within(q, p)
      ensures IsDirectory(Fold(es), q) <==> !exists k :: HoldsFile(es, q, k)
    {
      FoldFile(es, q);
    }
    hide Fold, HoldsFile;
    assert Within([], p) && [] != p;
  }

  /** The tree has the target as a file exactly when the map does and nothing above hides it. */
  lemma BuiltHasFileIff(es: seq<Entry>, root: Tree, p: Path)
    requires p != [] && IsBuilt(es, root)
    ensures HasFile(root, p) <==> Held(es, p) && !Hidden(es, p)
  {
    FoldFile(es, p);
    FoldContents(es, []);
    if [] in Fold(es) {
      HasFileIff(Fold(es), root, p);
      if p in Fold(es) {
        AncestorsAreDirectories(es, p);
      }
      hide Fold, HoldsFile, Hidden;
      assert forall q: Path :: Within([], q);
    } else {
      hide Fold, HoldsFile;
      assert Hidden(es, p);
    }
  }

  /** What separates the tree of the first `n` entries from the reader of them all. */
  ghost predicate SeparatedFromTree(es: seq<Entry>, n: nat, p: Path)
    requires n <= |es|
  {
    var built := es[..n];
    || (exists j :: LastTouch(es, n, p, j) && WritesFile(es[j], p) && (Hidden(built, p) || !Held(built, p)))
    || (exists j :: LastTouch(es, n, p, j) && Deletes(es[j], p) && Held(built, p) && !Hidden(built, p))
    || (UntouchedFrom(es, n, p) && (Shadowed(built, p) || (Held(built, p) && Hidden(built, p))))
  }

  /** Main result: reader and tree agree on a target, for any layers, unless the last entry past
      the file-count limit to touch it writes it and the tree does not show it, or whites it out and
      the tree does; or none touches it there and what was read shadows it, or holds it where
      something above hides it. In those cases they do not. */
  lemma ReaderAgreesWithTreeIff(all: seq<Entry>, limit: nat, root: Tree, p: Path)
    requires p != [] && Read(all, limit) <= |all| && IsBuilt(all[..Read(all, limit)], root)
    ensures (HasFile(root, p) <==> ReadFold(all, p).Content?) <==> !SeparatedFromTree(all, Read(all, limit), p)
  {
    hide Fold, ReadFold, HasFile, IsBuilt, Hidden, Shadowed, HoldsFile;
    var n := Read(all, limit);
    BuiltHasFileIff(all[..n], root, p);
    ReaderAgreesIff(all, limit, p);
    PrefixHolds(all[..n], p);
    SomeLastTouch(all, n, p);
    if j :| LastTouch(all, n, p, j) {
      OneLastTouch(all, n, p, j);
      ReaderFinds(all, p);
      LatestAfterTouch(all, n, p, j);
    } else {
      ShadowedIsNotHeld(all[..n], p);
    }
  }

  lemma ShadowedIsNotHeld(es: seq<Entry>, p: Path)
    ensures Shadowed(es, p) ==> !Held(es, p)
  {
    if k :| HoldsFile(es, p, k) {
      assert Latest(es, p, k);
    }
  }

  /** A link that a later layer puts in a directory's place: the file below it is in the map and
      found by the reader, and no tree shows it. */
  lemma LinkOverDirectory(root: Tree) returns (es: seq<Entry>)
    ensures !SeparatedAt(es, |es|, ["a", "b"]) && Held(es, ["a", "b"]) && ReadFold(es, ["a", "b"]).Content?
    ensures IsBuilt(es, root) ==> !HasFile(root, ["a", "b"])
  {
    var dir := Entry(["a"], Dir, 0, 0, "", "", []);
    var file := Entry(["a", "b"], File, 0, 0, "", "", []);
    var link := Entry(["a"], Symlink, 0, 0, "", "/c", []);
    es := [dir, file, link];
    var p: Path := ["a", "b"];
    assert es[..|es|] == es;
    assert HoldsFile(es, p, 1) && HoldsFile(es, ["a"], 2);
    assert Latest(es, p, 1);
    ReaderFinds(es, p);
    FoldFile(es, p);
    assert Within(["a"], p);
    assert Hidden(es, p);
    if IsBuilt(es, root) {
      BuiltHasFileIff(es, root, p);
    }
    SameEntriesAgreeIff(es, p);
    hide Fold, ReadFold;
  }
}
