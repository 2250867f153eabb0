/** The image file system as a flat map from paths to nodes, folded over the layers of an
    image from the bottom up: writes, implied parent directories and whiteouts. */
module LayerOverlay {
  import opened Ordering

  /** A cleaned absolute path; the empty list is the root. */
  type Path = seq<string>

  datatype Kind = Dir | Symlink | File

  /** One header of a layer's tar archive, with the bytes that follow it. */
  datatype Entry = Entry(path: Path, kind: Kind, size: nat, mode: nat, modTime: string, link: string, content: seq<bv8>)

  datatype Node = Node(kind: Kind, size: nat, mode: nat, modTime: string, link: string)

  type Files = map<Path, Node>

  const ROOT_NODE := Node(Dir, 0, 0, "", "")
  const IMPLIED_DIR := Node(Dir, 0, 0, "", "")
  const WHITEOUT_PREFIX := ".wh."

  function Parent(p: Path): Path
    requires p != []
  {
    p[..|p| - 1]
  }

  /** `p` is `top` or lies below it. */
  predicate Within(top: Path, p: Path) {
    top <= p
  }

  predicate IsWhiteout(p: Path) {
    p != [] && WHITEOUT_PREFIX <= p[|p| - 1]
  }

  /** What a whiteout deletes: its own directory joined with the rest of its name, cleaned. An
      empty rest or "." is the directory itself and ".." is the directory above it. */
  function Target(p: Path): Path
    requires IsWhiteout(p)
  {
    var dir, after := Parent(p), p[|p| - 1][|WHITEOUT_PREFIX|..];
    if after == "" || after == "." then dir
    else if after == ".." then (if dir == [] then [] else Parent(dir))
    else dir + [after]
  }

  predicate IsWrite(e: Entry) {
    !IsWhiteout(e.path) && e.path != []
  }

  function NodeOf(e: Entry): Node {
    Node(e.kind, e.size, e.mode, e.modTime, if e.kind == Symlink then e.link else "")
  }

  /** Deleting `t` takes the subtree of `t` with it. The root is different: its subtree is
      looked up by the prefix "//", which no path has, so only the root entry goes. */
  predicate Removes(t: Path, p: Path) {
    if t == [] then p == [] else Within(t, p)
  }

  // The fold, step by step.

  function WithParents(fs: Files, p: Path): Files
    decreases |p|
  {
    if |p| <= 1 || Parent(p) in fs then fs else WithParents(fs[Parent(p) := IMPLIED_DIR], Parent(p))
  }

  function Deleted(fs: Files, t: Path): Files {
    map p | p in fs && !Removes(t, p) :: fs[p]
  }

  function Step(fs: Files, e: Entry): Files {
    if IsWhiteout(e.path) then Deleted(fs, Target(e.path))
    else if e.path == [] then fs
    else WithParents(fs, e.path)[e.path := NodeOf(e)]
  }

  function Fold(es: seq<Entry>): Files {
    if es == [] then map[[] := ROOT_NODE] else Step(Fold(es[..|es| - 1]), es[|es| - 1])
  }

  function Concat(layers: seq<seq<Entry>>): seq<Entry> {
    if layers == [] then [] else Concat(layers[..|layers| - 1]) + layers[|layers| - 1]
  }

  function Writes(es: seq<Entry>): nat {
    if es == [] then 0 else Writes(es[..|es| - 1]) + if IsWrite(es[|es| - 1]) then 1 else 0
  }

  function TotalSize(es: seq<Entry>): nat {
    if es == [] then 0
    else
      var e := es[|es| - 1];
      TotalSize(es[..|es| - 1]) + if IsWrite(e) && e.kind == File then e.size else 0
  }

  /** How many entries are read before the file-count limit stops the build: all up to and
      including the write that reaches the limit. A whiteout after it is not read. */
  function Read(es: seq<Entry>, limit: nat): nat {
    if es == [] then 0
    else
      var n := |es| - 1;
      var before := Read(es[..n], limit);
      if before == n && Writes(es[..n]) < limit then n + 1 else before
  }

  lemma {:induction false} ReadBound(es: seq<Entry>, limit: nat)
    ensures Read(es, limit) <= |es|
    ensures Writes(es[..Read(es, limit)]) <= limit
  {
    if es != [] {
      var n := |es| - 1;
      ReadBound(es[..n], limit);
      assert es[..n][..Read(es[..n], limit)] == es[..Read(es[..n], limit)];
      assert es[..n + 1] == es;
    }
  }

  /** Nothing is left unread exactly when the limit is not reached before the last entry. */
  lemma {:induction false} AllReadIff(es: seq<Entry>, limit: nat)
    requires es != []
    ensures Read(es, limit) == |es| <==> Writes(es[..|es| - 1]) < limit
  {
    var n := |es| - 1;
    ReadBound(es[..n], limit);
    if n > 0 && Writes(es[..n]) < limit {
      assert Writes(es[..n][..n - 1]) <= Writes(es[..n]);
      AllReadIff(es[..n], limit);
    }
  }

  // What one header does.

  /** A whiteout deletes the entry it names, with what is below it; its siblings stay. A rest that is
      empty or "." names the whiteout's own directory, and ".." the one above. */
  lemma WhiteoutDeletes(fs: Files, e: Entry, dir: Path, name: string)
    requires e.path == dir + [".wh." + name]
    ensures name !in {"", ".", ".."} ==> forall p :: p in Step(fs, e) <==> p in fs && !(dir + [name] <= p)
    ensures name in {"", "."} && dir != [] ==> forall p :: p in Step(fs, e) <==> p in fs && !(dir <= p)
    ensures name == ".." && |dir| > 1 ==> forall p :: p in Step(fs, e) <==> p in fs && !(dir[..|dir| - 1] <= p)
    // whiteouts that name the root
    ensures (name in {"", "."} && dir == []) || (name == ".." && |dir| <= 1) ==>
              forall p :: p in Step(fs, e) <==> p in fs && p != []
    ensures forall p :: p in Step(fs, e) ==> Step(fs, e)[p] == fs[p]
  {
    WhiteoutNames(e.path, dir, name);
  }

  lemma WhiteoutNames(p: Path, dir: Path, name: string)
    requires p == dir + [".wh." + name]
    ensures IsWhiteout(p) && Parent(p) == dir && p[|p| - 1][|WHITEOUT_PREFIX|..] == name
  {
  }

  /** Any other header below the root puts its node at its path and directories above it, and leaves
      the other entries. */
  lemma WriteAdds(fs: Files, e: Entry)
    requires ParentClosed(fs)
    requires e.path != [] && !(".wh." <= e.path[|e.path| - 1])
    ensures forall p :: p in Step(fs, e) <==> p in fs || (p != [] && p <= e.path)
    ensures var node := Step(fs, e)[e.path];
            && node.kind == e.kind && node.size == e.size && node.mode == e.mode && node.modTime == e.modTime
            && node.link == (if e.kind == Symlink then e.link else "")
    ensures forall p :: p in Step(fs, e) && p != e.path ==>
              if p in fs then Step(fs, e)[p] == fs[p] else Step(fs, e)[p].kind == Dir
  {
    WithParentsAdds(fs, e.path);
  }

  // What the fold amounts to.

  /** Every ancestor of an entry, below the root, is an entry too. */
  ghost predicate ParentClosed(fs: Files) {
    forall p, q :: p in fs && Within(q, p) && q != [] ==> q in fs
  }

  /** Closed except at and below `p`: what holds while the parents of `p` are being added. */
  ghost predicate ClosedAway(fs: Files, p: Path) {
    forall r, q :: r in fs && !Within(p, r) && Within(q, r) && q != [] ==> q in fs
  }

  /** Creating the missing parents adds the proper ancestors of `p` and changes no entry,
      although the walk stops at the first parent that exists. */
  lemma {:induction false} WithParentsAdds(fs: Files, p: Path)
    requires ClosedAway(fs, p)
    ensures var fs' := WithParents(fs, p);
            && (forall q :: q in fs' <==> q in fs || (q != [] && q != p && Within(q, p)))
            && (forall q :: q in fs' ==> fs'[q] == if q in fs then fs[q] else IMPLIED_DIR)
    decreases |p|
  {
    if |p| > 1 {
      var d := Parent(p);
      assert Within(d, d) && !Within(p, d);
      assert forall q :: Within(q, p) && q != p <==> Within(q, d);
      if d !in fs {
        assert forall r :: Within(p, r) ==> Within(d, r);
        WithParentsAdds(fs[d := IMPLIED_DIR], d);
      }
    } else {
      assert forall q :: Within(q, p) && q != p ==> q == [];
    }
  }

  /** Every step keeps the map closed under parents, for writes, parent creation and deletes. */
  lemma StepClosed(fs: Files, e: Entry)
    requires ParentClosed(fs)
    ensures ParentClosed(Step(fs, e))
  {
    if IsWhiteout(e.path) {
      var t := Target(e.path);
      forall p, q | p in Deleted(fs, t) && Within(q, p) && q != [] ensures q in Deleted(fs, t) {
        assert Within(t, q) ==> Within(t, p);
      }
    } else if e.path != [] {
      WithParentsAdds(fs, e.path);
      var fs' := Step(fs, e);
      forall p, q | p in fs' && Within(q, p) && q != [] ensures q in fs' {
        assert Within(p, e.path) ==> Within(q, e.path);
      }
    }
  }

  lemma {:induction false} FoldClosed(es: seq<Entry>)
    ensures ParentClosed(Fold(es))
  {
    if es != [] {
      FoldClosed(es[..|es| - 1]);
      StepClosed(Fold(es[..|es| - 1]), es[|es| - 1]);
    }
  }

  /** Entry `k` wrote `p` or something below it, and nothing after it removed `p`. */
  ghost predicate Survives(es: seq<Entry>, p: Path, k: int) {
    && 0 <= k < |es| && IsWrite(es[k]) && Within(p, es[k].path)
    && forall j :: k < j < |es| ==> !Whites(es[j], p)
  }

  predicate Whites(e: Entry, p: Path) {
    IsWhiteout(e.path) && Removes(Target(e.path), p)
  }

  /** The root is there unless a whiteout named it; any other path is there exactly when some
      entry wrote it or a path below it and no later whiteout named it or an ancestor. */
  ghost predicate Present(es: seq<Entry>, p: Path) {
    if p == [] then forall j :: 0 <= j < |es| ==> !Whites(es[j], p)
    else exists k :: Survives(es, p, k)
  }

  lemma SurvivesSnoc(es: seq<Entry>, e: Entry, p: Path)
    requires p != []
    ensures Present(es + [e], p) <==>
            if IsWhiteout(e.path) then !Whites(e, p) && Present(es, p)
            else (IsWrite(e) && Within(p, e.path)) || Present(es, p)
  {
    var es' := es + [e];
    if k :| Survives(es, p, k) {
      assert Whites(e, p) || Survives(es', p, k);
    }
    if k :| Survives(es', p, k) {
      assert es'[|es|] == e;
      if k < |es| {
        assert forall j :: 0 <= j < |es| ==> es'[j] == es[j];
        assert Survives(es, p, k);
      }
    }
    if IsWrite(e) && Within(p, e.path) {
      assert Survives(es', p, |es|);
    }
  }

  /** Main result: what is in the file map after any sequence of entries. */
  lemma {:induction false} FoldContents(es: seq<Entry>, p: Path)
    ensures p in Fold(es) <==> Present(es, p)
  {
    if es != [] {
      var n := |es| - 1;
      var e := es[n];
      FoldContents(es[..n], p);
      FoldClosed(es[..n]);
      assert es == es[..n] + [e];
      if p != [] {
        SurvivesSnoc(es[..n], e, p);
      }
      if IsWrite(e) {
        WithParentsAdds(Fold(es[..n]), e.path);
      }
    }
  }

  // Which node a path holds.

  /** Entry `k` wrote the file or link `p` itself and nothing since has overwritten or removed it. */
  ghost predicate HoldsFile(es: seq<Entry>, p: Path, k: int) {
    && 0 <= k < |es| && WritesFile(es[k], p)
    && forall j :: k < j < |es| ==> !Overwrites(es[j], p) && !Whites(es[j], p)
  }

  predicate Overwrites(e: Entry, p: Path) {
    IsWrite(e) && e.path == p
  }

  predicate WritesFile(e: Entry, p: Path) {
    Overwrites(e, p) && e.kind != Dir
  }

  lemma HoldsSnoc(es: seq<Entry>, e: Entry, p: Path, k: int)
    ensures HoldsFile(es + [e], p, k) <==>
            if k == |es| then WritesFile(e, p) else HoldsFile(es, p, k) && !Overwrites(e, p) && !Whites(e, p)
  {
    var es' := es + [e];
    assert es'[|es|] == e && forall j :: 0 <= j < |es| ==> es'[j] == es[j];
  }

  /** A path holds a file or a link exactly when the last entry to touch it wrote one, and
      then its node is that entry's. */
  lemma {:induction false} FoldFile(es: seq<Entry>, p: Path)
    requires p != []
    ensures p in Fold(es) && Fold(es)[p].kind != Dir <==> exists k :: HoldsFile(es, p, k)
    ensures forall k :: HoldsFile(es, p, k) ==> p in Fold(es) && Fold(es)[p] == NodeOf(es[k])
  {
    if es != [] {
      var n := |es| - 1;
      var init, e := es[..n], es[n];
      assert es == init + [e];
      FoldFile(init, p);
      FoldClosed(init);
      if IsWrite(e) {
        WithParentsAdds(Fold(init), e.path);
      }
      forall k ensures HoldsFile(es, p, k) <==>
                       if k == n then WritesFile(e, p)
                       else HoldsFile(init, p, k) && !Overwrites(e, p) && !Whites(e, p)
      {
        HoldsSnoc(init, e, p, k);
      }
      if p in Fold(es) && Fold(es)[p].kind != Dir {
        if WritesFile(e, p) {
          assert HoldsFile(es, p, n);
        } else {
          var k :| HoldsFile(init, p, k);
          assert HoldsFile(es, p, k);
        }
      }
    }
  }

  // The single-file reader over the same layers.

  datatype Found = Missing | Content(entry: Entry)

  function ReadStep(r: Found, e: Entry, target: Path): Found {
    if IsWhiteout(e.path) then (if Target(e.path) == target then Missing else r)
    else if e.path == target && e.kind != Dir then Content(e)
    else r
  }

  function ReadFold(es: seq<Entry>, target: Path): Found {
    if es == [] then Missing else ReadStep(ReadFold(es[..|es| - 1], target), es[|es| - 1], target)
  }

  /** The reader forgets a target exactly at a whiteout that names it. */
  lemma WhiteoutForgets(r: Found, e: Entry, dir: Path, name: string, target: Path)
    requires e.path == dir + [".wh." + name]
    ensures name !in {"", ".", ".."} ==> ReadStep(r, e, target) == if target == dir + [name] then Missing else r
    ensures name in {"", "."} ==> ReadStep(r, e, target) == if target == dir then Missing else r
    ensures name == ".." ==>
              ReadStep(r, e, target) == if target == (if dir == [] then [] else dir[..|dir| - 1]) then Missing else r
  {
    WhiteoutNames(e.path, dir, name);
  }

  /** Any other header is the target's content exactly when it is a file or link at its path. */
  lemma WriteIsFound(r: Found, e: Entry, target: Path)
    requires e.path == [] || !(".wh." <= e.path[|e.path| - 1])
    ensures ReadStep(r, e, target) == if e.path == target && e.kind != Dir then Content(e) else r
  {
  }

  predicate Deletes(e: Entry, target: Path) {
    IsWhiteout(e.path) && Target(e.path) == target
  }

  /** Entry `k` is the last file or link entry for the target, and no later whiteout names it. */
  ghost predicate Latest(es: seq<Entry>, target: Path, k: int) {
    && 0 <= k < |es| && WritesFile(es[k], target)
    && forall j :: k < j < |es| ==> !WritesFile(es[j], target) && !Deletes(es[j], target)
  }

  lemma LatestSnoc(es: seq<Entry>, e: Entry, p: Path, k: int)
    ensures Latest(es + [e], p, k) <==>
            if k == |es| then WritesFile(e, p) else Latest(es, p, k) && !WritesFile(e, p) && !Deletes(e, p)
  {
    var es' := es + [e];
    assert es'[|es|] == e && forall j :: 0 <= j < |es| ==> es'[j] == es[j];
  }

  lemma {:induction false} ReaderFinds(es: seq<Entry>, p: Path)
    requires p != []
    ensures ReadFold(es, p).Content? <==> exists k :: Latest(es, p, k)
    ensures forall k :: Latest(es, p, k) ==> ReadFold(es, p) == Content(es[k])
  {
    if es != [] {
      var n := |es| - 1;
      var init, e := es[..n], es[n];
      assert es == init + [e];
      ReaderFinds(init, p);
      forall k ensures Latest(es, p, k) <==>
                       if k == n then WritesFile(e, p) else Latest(init, p, k) && !WritesFile(e, p) && !Deletes(e, p) {
        LatestSnoc(init, e, p, k);
      }
      if ReadFold(es, p).Content? {
        if WritesFile(e, p) {
          assert Latest(es, p, n);
        } else {
          var k :| Latest(init, p, k);
          assert Latest(es, p, k);
        }
      }
    }
  }

  /** After the file entry the reader settles on, the layers turn the target into a directory
      or delete one of its proper ancestors: the two things the reader does not look at. */
  ghost predicate Shadowed(es: seq<Entry>, p: Path) {
    exists k, j :: Latest(es, p, k) && k < j < |es| && Shadows(es[j], p)
  }

  predicate Shadows(e: Entry, p: Path) {
    || (Overwrites(e, p) && e.kind == Dir)
    || (IsWhiteout(e.path) && Target(e.path) != [] && Target(e.path) != p && Within(Target(e.path), p))
  }

  /** What the file map says of a target, as the reader would put it. */
  ghost predicate MapHoldsFile(es: seq<Entry>, p: Path) {
    p in Fold(es) && Fold(es)[p].kind != Dir
  }

  /** Reader and map of the same entries agree exactly on the targets these do not shadow. */
  lemma SameEntriesAgreeIff(es: seq<Entry>, p: Path)
    requires p != []
    ensures (MapHoldsFile(es, p) <==> ReadFold(es, p).Content?) <==> !Shadowed(es, p)
  {
    ReaderFinds(es, p);
    FoldFile(es, p);
    if MapHoldsFile(es, p) {
      var k :| HoldsFile(es, p, k);
      assert Latest(es, p, k);
      forall k', j | Latest(es, p, k') && k' < j < |es| ensures !Shadows(es[j], p) {
        assert k' == k;
      }
    } else if k :| Latest(es, p, k) {
      assert !HoldsFile(es, p, k);
      var j :| k < j < |es| && (Overwrites(es[j], p) || Whites(es[j], p));
      assert Shadows(es[j], p);
    }
  }

  // The builder stops at the limit; the reader does not.

  /** The reader reacts to the entry: it writes the target as a file or link, or whites it out. */
  predicate Touches(e: Entry, p: Path) {
    WritesFile(e, p) || Deletes(e, p)
  }

  ghost predicate UntouchedFrom(es: seq<Entry>, n: nat, p: Path) {
    forall j :: n <= j < |es| ==> !Touches(es[j], p)
  }

  /** Entry `j` is the last from `n` on that the reader reacts to. */
  ghost predicate LastTouch(es: seq<Entry>, n: nat, p: Path, j: int) {
    && n <= j < |es| && Touches(es[j], p)
    && UntouchedFrom(es, j + 1, p)
  }

  lemma SomeLastTouch(es: seq<Entry>, n: nat, p: Path)
    ensures UntouchedFrom(es, n, p) || exists j :: LastTouch(es, n, p, j)
  {
    var j := |es|;
    while n < j && !Touches(es[j - 1], p)
      invariant n <= |es| ==> n <= j <= |es|
      invariant n > |es| ==> j == |es|
      invariant UntouchedFrom(es, j, p)
    {
      j := j - 1;
    }
    if n < j {
      assert LastTouch(es, n, p, j - 1);
    }
  }

  lemma LatestAfterTouch(es: seq<Entry>, n: nat, p: Path, j: int)
    requires LastTouch(es, n, p, j)
    ensures (exists k :: Latest(es, p, k)) <==> WritesFile(es[j], p)
    ensures forall k :: Latest(es, p, k) ==> k == j
  {
    if WritesFile(es[j], p) {
      assert Latest(es, p, j);
    }
    forall k | Latest(es, p, k) ensures k == j && WritesFile(es[j], p) {
      assert Touches(es[k], p);
    }
  }

  lemma LatestUntouched(es: seq<Entry>, n: nat, p: Path, k: int)
    requires n <= |es| && UntouchedFrom(es, n, p)
    ensures Latest(es, p, k) <==> Latest(es[..n], p, k)
  {
    assert forall j :: 0 <= j < n ==> es[..n][j] == es[j];
    if Latest(es, p, k) {
      assert Touches(es[k], p);
    }
  }

  /** What separates map and reader when only the first `n` entries were built: a target written
      after them that they do not hold, one they hold that is whited out after them, or one left
      alone after them that they shadow. */
  ghost predicate SeparatedAt(es: seq<Entry>, n: nat, p: Path)
    requires n <= |es|
  {
    || (exists j :: LastTouch(es, n, p, j) && WritesFile(es[j], p) && forall k :: !HoldsFile(es[..n], p, k))
    || (exists j, k :: LastTouch(es, n, p, j) && Deletes(es[j], p) && HoldsFile(es[..n], p, k))
    || (UntouchedFrom(es, n, p) && Shadowed(es[..n], p))
  }

  lemma PrefixAgreesIff(es: seq<Entry>, n: nat, p: Path)
    requires p != [] && n <= |es|
    ensures (MapHoldsFile(es[..n], p) <==> ReadFold(es, p).Content?) <==> !SeparatedAt(es, n, p)
  {
    hide MapHoldsFile, ReadFold, HoldsFile, Latest, Shadowed;
    ReaderFinds(es, p);
    SomeLastTouch(es, n, p);
    PrefixHolds(es[..n], p);
    if j :| LastTouch(es, n, p, j) {
      LatestAfterTouch(es, n, p, j);
      OneLastTouch(es, n, p, j);
    } else {
      SameEntriesAgreeIff(es[..n], p);
      ReaderFinds(es[..n], p);
      forall k ensures Latest(es, p, k) <==> Latest(es[..n], p, k) {
        LatestUntouched(es, n, p, k);
      }
    }
  }

  lemma PrefixHolds(es: seq<Entry>, p: Path)
    requires p != []
    ensures MapHoldsFile(es, p) <==> exists k :: HoldsFile(es, p, k)
  {
    FoldFile(es, p);
  }

  lemma OneLastTouch(es: seq<Entry>, n: nat, p: Path, j: int)
    requires LastTouch(es, n, p, j)
    ensures !UntouchedFrom(es, n, p) && !(WritesFile(es[j], p) && Deletes(es[j], p))
    ensures forall i :: LastTouch(es, n, p, i) ==> i == j
  {
  }

  /** The reader finds a target exactly when the map the builder made of the same layers, up to the
      file-count limit, holds it as a file, unless the entries separate the two; and then they do
      not. What a caller sees of the map is the tree, which may show less. */
  lemma ReaderAgreesIff(all: seq<Entry>, limit: nat, p: Path)
    requires p != []
    ensures var n := Read(all, limit);
      n <= |all| && ((MapHoldsFile(all[..n], p) <==> ReadFold(all, p).Content?) <==> !SeparatedAt(all, n, p))
  {
    hide Fold, ReadFold, MapHoldsFile, SeparatedAt;
    ReadBound(all, limit);
    PrefixAgreesIff(all, Read(all, limit), p);
  }

  /** While the limit is not reached before the last entry, shadowing is all that matters. */
  lemma ReaderAgreesBelowLimitIff(all: seq<Entry>, limit: nat, p: Path)
    requires p != [] && (all == [] || Writes(all[..|all| - 1]) < limit)
    ensures Read(all, limit) <= |all|
    ensures (MapHoldsFile(all[..Read(all, limit)], p) <==> ReadFold(all, p).Content?) <==> !Shadowed(all, p)
  {
    hide Fold, ReadFold, MapHoldsFile, Shadowed;
    ReadBound(all, limit);
    if all != [] {
      AllReadIff(all, limit);
    }
    assert all[..Read(all, limit)] == all;
    SameEntriesAgreeIff(all, p);
  }

  /** The limit alone can separate the two: the entry after it is found and not in the map. */
  lemma WrittenPastTheLimit() returns (all: seq<Entry>)
    ensures !Shadowed(all, ["b"]) && Read(all, 1) == 1
    ensures ReadFold(all, ["b"]).Content? && !MapHoldsFile(all[..1], ["b"])
  {
    var a := Entry(["a"], File, 0, 0, "", "", []);
    var b := a.(path := ["b"]);
    all := [a, b];
    assert all[..1] == [a] && [a][..0] == [];
    assert Writes([]) == 0 && Writes([a]) == 1;
    assert Read([], 1) == 0;
    assert Read([a], 1) == 1;
    forall k ensures !HoldsFile([a], ["b"], k) {
      assert k == 0 ==> [a][k] == a;
    }
    FoldFile([a], ["b"]);
  }

  /** Where the map holds a file, its node and the reader's bytes are of one entry exactly when the
      reader reacts to nothing the builder did not read. */
  lemma ReaderContentMatchesNode(all: seq<Entry>, limit: nat, p: Path)
    requires p != [] && Read(all, limit) <= |all| && MapHoldsFile(all[..Read(all, limit)], p)
    ensures var n := Read(all, limit); var built := all[..n];
      && (UntouchedFrom(all, n, p) <==> exists k :: HoldsFile(built, p, k) && Latest(all, p, k))
      && (UntouchedFrom(all, n, p) ==> ReadFold(all, p).Content? && Fold(built)[p] == NodeOf(ReadFold(all, p).entry))
  {
    var n := Read(all, limit);
    var built := all[..n];
    FoldFile(built, p);
    ReaderFinds(all, p);
    hide Fold, ReadFold;
    var k :| HoldsFile(built, p, k);
    assert Latest(built, p, k);
    if UntouchedFrom(all, n, p) {
      LatestUntouched(all, n, p, k);
    } else {
      SomeLastTouch(all, n, p);
      var j :| LastTouch(all, n, p, j);
      LatestAfterTouch(all, n, p, j);
    }
  }

  // The builder and the reader as they run.

  /** The map of paths the builder writes to and deletes from. */
  class FileMap {
    var nodes: Files

    constructor ()
      ensures nodes == Fold([])
    {
      nodes := map[[] := ROOT_NODE];
    }

    method EnsureParentDirs(p: Path)
      modifies this
      ensures nodes == WithParents(old(nodes), p)
      decreases |p|
    {
      if |p| <= 1 {
        return;
      }
      var dir := Parent(p);
      if dir !in nodes {
        nodes := nodes[dir := IMPLIED_DIR];
        EnsureParentDirs(dir);
      }
    }

    /** Visits the keys in any order, deleting while it goes. */
    method DeleteFromTree(t: Path)
      modifies this
      ensures nodes == Deleted(old(nodes), t)
    {
      nodes := nodes - {t};
      var todo := nodes.Keys;
      while todo != {}
        invariant todo <= nodes.Keys <= old(nodes).Keys
        invariant forall p :: p in nodes ==> nodes[p] == old(nodes)[p] && p != t && (p in todo || !Removes(t, p))
        invariant forall p :: p in old(nodes) && !Removes(t, p) ==> p in nodes
        decreases todo
      {
        var p :| p in todo;
        todo := todo - {p};
        if t != [] && Within(t, p) {
          nodes := nodes - {p};
        }
      }
    }
  }

  /** One header of a layer. */
  method ApplyEntry(fileMap: FileMap, e: Entry, totalFiles: nat, totalSize: nat) returns (files: nat, size: nat)
    modifies fileMap
    ensures fileMap.nodes == Step(old(fileMap.nodes), e)
    ensures files == totalFiles + if IsWrite(e) then 1 else 0
    ensures size == totalSize + if IsWrite(e) && e.kind == File then e.size else 0
  {
    files, size := totalFiles, totalSize;
    if IsWhiteout(e.path) {
      fileMap.DeleteFromTree(Target(e.path));
      return;
    }
    if e.path == [] {
      return;
    }
    if e.kind == File {
      size := size + e.size;
    }
    fileMap.EnsureParentDirs(e.path);
    fileMap.nodes := fileMap.nodes[e.path := NodeOf(e)];
    files := files + 1;
  }

  /** Folds the layers, bottom to top, until the file-count limit is reached. */
  method BuildFileMap(layers: seq<seq<Entry>>, limit: nat) returns (fileMap: FileMap, totalFiles: nat, totalSize: nat)
    ensures fresh(fileMap)
    ensures var all := Concat(layers);
            && Read(all, limit) <= |all|
            && var read := all[..Read(all, limit)];
            && fileMap.nodes == Fold(read) && totalFiles == Writes(read) && totalSize == TotalSize(read)
  {
    hide Fold, Read, Writes, TotalSize, Step;
    fileMap := new FileMap();
    ReadNothing(limit);
    totalFiles, totalSize := 0, 0;
    for l := 0 to |layers|
      invariant fresh(fileMap)
      invariant ReadState(Concat(layers[..l]), limit, fileMap.nodes, totalFiles, totalSize)
    {
      var layer := layers[l];
      ghost var below := Concat(layers[..l]);
      assert layers[..l + 1][..l] == layers[..l];
      assert below + layer[..0] == below;
      var k := 0;
      while k < |layer|
        invariant 0 <= k <= |layer| && fresh(fileMap)
        invariant ReadState(below + layer[..k], limit, fileMap.nodes, totalFiles, totalSize)
      {
        if totalFiles >= limit {
          ReadStopped(below, layer, k, limit, fileMap.nodes, totalFiles, totalSize);
          break;
        }
        var e := layer[k];
        ReadOne(below + layer[..k], e, limit, fileMap.nodes, totalFiles, totalSize);
        assert below + layer[..k + 1] == below + layer[..k] + [e];
        k := k + 1;
        totalFiles, totalSize := ApplyEntry(fileMap, e, totalFiles, totalSize);
      }
      assert k == |layer| ==> layer[..k] == layer;
    }
    assert layers[..|layers|] == layers;
  }

  ghost predicate ReadState(es: seq<Entry>, limit: nat, nodes: Files, totalFiles: nat, totalSize: nat) {
    && Read(es, limit) <= |es|
    && var read := es[..Read(es, limit)];
    && nodes == Fold(read) && totalFiles == Writes(read) && totalSize == TotalSize(read)
    && (totalFiles < limit ==> Read(es, limit) == |es|)
  }

  lemma ReadNothing(limit: nat)
    ensures ReadState([], limit, Fold([]), 0, 0)
  {
  }

  lemma ReadOne(es: seq<Entry>, e: Entry, limit: nat, nodes: Files, totalFiles: nat, totalSize: nat)
    requires ReadState(es, limit, nodes, totalFiles, totalSize) && totalFiles < limit
    ensures ReadState(es + [e], limit, Step(nodes, e), totalFiles + (if IsWrite(e) then 1 else 0),
                      totalSize + if IsWrite(e) && e.kind == File then e.size else 0)
  {
    assert es[..|es|] == es;
    assert (es + [e])[..|es|] == es;
    assert (es + [e])[..|es| + 1] == es + [e];
  }

  lemma {:induction false} ReadStopped(es: seq<Entry>, more: seq<Entry>, k: nat, limit: nat, nodes: Files,
      totalFiles: nat, totalSize: nat)
    requires k <= |more| && totalFiles >= limit
    requires ReadState(es + more[..k], limit, nodes, totalFiles, totalSize)
    ensures ReadState(es + more, limit, nodes, totalFiles, totalSize)
    decreases |more| - k
  {
    if k == |more| {
      assert more[..k] == more;
    } else {
      var now, next := es + more[..k], es + more[..k + 1];
      assert next == now + [more[k]] && next[..|now|] == now;
      var n := Read(now, limit);
      assert now[..n] == next[..n];
      assert n == |now| ==> now[..n] == now;
      ReadStopped(es, more, k + 1, limit, nodes, totalFiles, totalSize);
    }
  }

  /** Reads one file from the layers; no limit applies. */
  method ReadFile(layers: seq<seq<Entry>>, target: Path) returns (r: Option<(seq<bv8>, string)>)
    ensures r == match ReadFold(Concat(layers), target)
                 case Missing => None
                 case Content(e) => Some((e.content, if target == [] then "/" else target[|target| - 1]))
  {
    var deleted := false;
    var content: Option<seq<bv8>> := None;
    var filename := "";
    for l := 0 to |layers|
      invariant Reading(ReadFold(Concat(layers[..l]), target), target, deleted, content, filename)
    {
      var layer := layers[l];
      ghost var below := Concat(layers[..l]);
      assert layers[..l + 1][..l] == layers[..l];
      assert below + layer[..0] == below;
      for k := 0 to |layer|
        invariant Reading(ReadFold(below + layer[..k], target), target, deleted, content, filename)
      {
        var e := layer[k];
        assert (below + layer[..k + 1])[..|below| + k] == below + layer[..k];
        if IsWhiteout(e.path) {
          if Target(e.path) == target {
            deleted, content, filename := true, None, "";
          }
        } else if e.path == target && e.kind != Dir {
          deleted, content := false, Some(e.content);
          filename := if e.path == [] then "/" else e.path[|e.path| - 1];
        }
      }
      assert layer[..|layer|] == layer;
    }
    assert layers[..|layers|] == layers;
    r := if deleted || content.None? then None else Some((content.value, filename));
  }

  ghost predicate Reading(found: Found, target: Path, deleted: bool, content: Option<seq<bv8>>, filename: string) {
    match found
    case Missing => content.None?
    case Content(e) => !deleted && content == Some(e.content) && filename == if target == [] then "/"
        else target[|target| - 1]
  }
}
