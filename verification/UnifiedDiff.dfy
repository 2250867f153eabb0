/** The unified-diff emitter. Hunks are kept as data; rendering them as text is left out. */
module UnifiedDiff {
  import opened Lcs

  const CONTEXT_LINES: nat := 3

  datatype Line<T> = Context(text: T) | Removed(text: T) | Added(text: T)

  /** The header counts lines from one; `len1` and `len2` are the lengths of the two ranges. */
  datatype Hunk<T> = Hunk(start1: nat, len1: nat, start2: nat, len2: nat, lines: seq<Line<T>>)

  // What the lines of a hunk say about the two files.

  function OldSide<T>(lines: seq<Line<T>>): seq<T> {
    if lines == [] then []
    else
      var n := |lines| - 1;
      OldSide(lines[..n]) + if lines[n].Added? then [] else [lines[n].text]
  }

  function NewSide<T>(lines: seq<Line<T>>): seq<T> {
    if lines == [] then []
    else
      var n := |lines| - 1;
      NewSide(lines[..n]) + if lines[n].Removed? then [] else [lines[n].text]
  }

  function Removals<T>(lines: seq<Line<T>>): seq<T> {
    if lines == [] then []
    else
      var n := |lines| - 1;
      Removals(lines[..n]) + if lines[n].Removed? then [lines[n].text] else []
  }

  function Additions<T>(lines: seq<Line<T>>): seq<T> {
    if lines == [] then []
    else
      var n := |lines| - 1;
      Additions(lines[..n]) + if lines[n].Added? then [lines[n].text] else []
  }

  function AllRemovals<T>(hunks: seq<Hunk<T>>): seq<T> {
    if hunks == [] then []
    else AllRemovals(hunks[..|hunks| - 1]) + Removals(hunks[|hunks| - 1].lines)
  }

  function AllAdditions<T>(hunks: seq<Hunk<T>>): seq<T> {
    if hunks == [] then []
    else AllAdditions(hunks[..|hunks| - 1]) + Additions(hunks[|hunks| - 1].lines)
  }

  /** `w` is `u` and `v` merged, each in its own order: deleting `u` from `w` leaves `v`. */
  ghost predicate Shuffle<T>(w: seq<T>, u: seq<T>, v: seq<T>) {
    if w == [] then u == [] && v == []
    else
      var n := |w| - 1;
      || (u != [] && u[|u| - 1] == w[n] && Shuffle(w[..n], u[..|u| - 1], v))
      || (v != [] && v[|v| - 1] == w[n] && Shuffle(w[..n], u, v[..|v| - 1]))
  }

  lemma {:induction false} ShuffleLength<T>(w: seq<T>, u: seq<T>, v: seq<T>)
    requires Shuffle(w, u, v)
    ensures |w| == |u| + |v|
  {
    if w != [] {
      var n := |w| - 1;
      if u != [] && u[|u| - 1] == w[n] && Shuffle(w[..n], u[..|u| - 1], v) {
        ShuffleLength(w[..n], u[..|u| - 1], v);
      } else {
        ShuffleLength(w[..n], u, v[..|v| - 1]);
      }
    }
  }

  // The meaning of a list of hunks: a patch.

  /** The header's ranges are exactly the two sides of the hunk. */
  ghost predicate Exact<T>(a: seq<T>, b: seq<T>, h: Hunk<T>) {
    && 1 <= h.start1 && h.start1 - 1 + h.len1 <= |a|
    && 1 <= h.start2 && h.start2 - 1 + h.len2 <= |b|
    && OldSide(h.lines) == a[h.start1 - 1..h.start1 - 1 + h.len1]
    && NewSide(h.lines) == b[h.start2 - 1..h.start2 - 1 + h.len2]
  }

  /** Where the last hunk ends in the old and in the new file, counted from zero. */
  ghost function End1<T>(hunks: seq<Hunk<T>>): int {
    if hunks == [] then 0 else hunks[|hunks| - 1].start1 - 1 + hunks[|hunks| - 1].len1
  }

  ghost function End2<T>(hunks: seq<Hunk<T>>): int {
    if hunks == [] then 0 else hunks[|hunks| - 1].start2 - 1 + hunks[|hunks| - 1].len2
  }

  ghost predicate AllContext<T>(lines: seq<Line<T>>) {
    forall k :: 0 <= k < |lines| ==> lines[k].Context?
  }

  /** `h` continues a diff that has reached old line `end1` and new line `end2`: either
      unchanged lines separate them, the same in both files, or `h` repeats at most three
      closing context lines of its predecessor. */
  ghost predicate Follows<T>(a: seq<T>, b: seq<T>, end1: int, end2: int, h: Hunk<T>) {
    && Exact(a, b, h)
    && 0 <= end1 && 0 <= end2
    && h.start1 - 1 - end1 == h.start2 - 1 - end2
    && if end1 <= h.start1 - 1 then a[end1..h.start1 - 1] == b[end2..h.start2 - 1]
       else Repeats(h.lines, end1 - (h.start1 - 1))
  }

  ghost predicate Repeats<T>(lines: seq<Line<T>>, k: nat) {
    k <= CONTEXT_LINES && k <= |lines| && AllContext(lines[..k])
  }

  ghost predicate Aligned<T>(a: seq<T>, b: seq<T>, hunks: seq<Hunk<T>>) {
    hunks == [] ||
    (var n := |hunks| - 1;
     Aligned(a, b, hunks[..n]) && Follows(a, b, End1(hunks[..n]), End2(hunks[..n]), hunks[n]))
  }

  /** The diff as a whole: aligned hunks, and nothing but common lines after the last. */
  ghost predicate IsDiff<T>(a: seq<T>, b: seq<T>, hunks: seq<Hunk<T>>) {
    && Aligned(a, b, hunks)
    && 0 <= End1(hunks) <= |a| && 0 <= End2(hunks) <= |b|
    && a[End1(hunks)..] == b[End2(hunks)..]
  }

  /** What the hunks say the new file is, up to the end of the last one: copy the old file up to
      the hunk, then write the hunk's new side. Consecutive hunks may overlap in up to three context
      lines, which patch tools do not merge; here shared lines are written once. */
  ghost function Patched<T>(a: seq<T>, hunks: seq<Hunk<T>>): seq<T> {
    if hunks == [] then []
    else
      var before := hunks[..|hunks| - 1];
      PatchOne(Patched(a, before), a, End1(before), hunks[|hunks| - 1])
  }

  ghost function PatchOne<T>(done: seq<T>, a: seq<T>, from: int, h: Hunk<T>): seq<T> {
    var to := h.start1 - 1;
    if 0 <= from <= to <= |a| then done + a[from..to] + NewSide(h.lines)
    else if 0 <= from - to <= |h.lines| then done + NewSide(h.lines[from - to..])
    else []
  }

  ghost function ApplyPatch<T>(a: seq<T>, hunks: seq<Hunk<T>>): seq<T> {
    if 0 <= End1(hunks) <= |a| then Patched(a, hunks) + a[End1(hunks)..] else []
  }

  lemma {:induction false} NewSideSplit<T>(lines: seq<Line<T>>, k: nat)
    requires k <= |lines| && AllContext(lines[..k])
    ensures |NewSide(lines)| >= k && NewSide(lines)[k..] == NewSide(lines[k..])
  {
    if |lines| > k {
      var n := |lines| - 1;
      assert lines[..n][..k] == lines[..k];
      assert lines[k..][..n - k] == lines[..n][k..];
      NewSideSplit(lines[..n], k);
    } else if k > 0 {
      assert lines[..k - 1][..k - 1] == lines[..k - 1];
      assert lines[..k] == lines;
      NewSideSplit(lines[..k - 1], k - 1);
    }
  }

  lemma {:induction false} PatchedIsPrefix<T>(a: seq<T>, b: seq<T>, hunks: seq<Hunk<T>>)
    requires Aligned(a, b, hunks)
    ensures 0 <= End1(hunks) <= |a| && 0 <= End2(hunks) <= |b|
    ensures Patched(a, hunks) == b[..End2(hunks)]
  {
    if hunks != [] {
      var n := |hunks| - 1;
      PatchedIsPrefix(a, b, hunks[..n]);
      PatchOneIsPrefix(a, b, End1(hunks[..n]), End2(hunks[..n]), hunks[n]);
    }
  }

  lemma PatchOneIsPrefix<T>(a: seq<T>, b: seq<T>, from: int, from2: int, h: Hunk<T>)
    requires Follows(a, b, from, from2, h)
    requires from <= |a| && from2 <= |b|
    ensures PatchOne(b[..from2], a, from, h) == b[..h.start2 - 1 + h.len2]
  {
    var to, to2 := h.start1 - 1, h.start2 - 1;
    if from <= to {
      Paste(b, from2, to2, to2 + h.len2, a[from..to], NewSide(h.lines));
    } else {
      NewSideSplit(h.lines, from - to);
      Reslice(b, to2, from2, to2 + h.len2);
      Paste(b, from2, from2, to2 + h.len2, [], NewSide(h.lines[from - to..]));
    }
  }

  lemma Paste<T>(s: seq<T>, i: nat, j: nat, k: nat, x: seq<T>, y: seq<T>)
    requires i <= j <= k <= |s| && x == s[i..j] && y == s[j..k]
    ensures s[..i] + x + y == s[..k]
  {
  }

  lemma Reslice<T>(s: seq<T>, i: nat, j: nat, k: nat)
    requires i <= j <= k <= |s|
    ensures s[i..k][j - i..] == s[j..k]
    ensures s[i..k][..j - i] == s[i..j]
  {
  }

  /** Main result: the emitted diff is a patch from the old file to the new one. */
  lemma PatchYieldsNew<T>(a: seq<T>, b: seq<T>, hunks: seq<Hunk<T>>)
    requires IsDiff(a, b, hunks)
    ensures ApplyPatch(a, hunks) == b
  {
    PatchedIsPrefix(a, b, hunks);
  }

  // The same diff read backwards.

  function FlipLine<T>(l: Line<T>): Line<T> {
    match l
    case Context(t) => Context(t)
    case Removed(t) => Added(t)
    case Added(t) => Removed(t)
  }

  function FlipLines<T>(lines: seq<Line<T>>): seq<Line<T>> {
    seq(|lines|, k requires 0 <= k < |lines| => FlipLine(lines[k]))
  }

  function Flip<T>(h: Hunk<T>): Hunk<T> {
    Hunk(h.start2, h.len2, h.start1, h.len1, FlipLines(h.lines))
  }

  function FlipAll<T>(hunks: seq<Hunk<T>>): seq<Hunk<T>> {
    seq(|hunks|, k requires 0 <= k < |hunks| => Flip(hunks[k]))
  }

  lemma {:induction false} FlipSides<T>(lines: seq<Line<T>>)
    ensures OldSide(FlipLines(lines)) == NewSide(lines)
    ensures NewSide(FlipLines(lines)) == OldSide(lines)
  {
    if lines != [] {
      var n := |lines| - 1;
      assert FlipLines(lines)[..n] == FlipLines(lines[..n]);
      FlipSides(lines[..n]);
    }
  }

  lemma FlipFollows<T>(a: seq<T>, b: seq<T>, end1: int, end2: int, h: Hunk<T>)
    requires Follows(a, b, end1, end2, h)
    ensures Follows(b, a, end2, end1, Flip(h))
  {
    FlipSides(h.lines);
  }

  lemma {:induction false} FlipAligned<T>(a: seq<T>, b: seq<T>, hunks: seq<Hunk<T>>)
    requires Aligned(a, b, hunks)
    ensures Aligned(b, a, FlipAll(hunks))
    ensures End1(FlipAll(hunks)) == End2(hunks) && End2(FlipAll(hunks)) == End1(hunks)
  {
    if hunks != [] {
      var n := |hunks| - 1;
      assert FlipAll(hunks)[..n] == FlipAll(hunks[..n]);
      FlipAligned(a, b, hunks[..n]);
      FlipFollows(a, b, End1(hunks[..n]), End2(hunks[..n]), hunks[n]);
    }
  }

  /** The diff is reversible: with its signs flipped it takes the new file back to the old. */
  lemma FlippedPatchYieldsOld<T>(a: seq<T>, b: seq<T>, hunks: seq<Hunk<T>>)
    requires IsDiff(a, b, hunks)
    ensures ApplyPatch(b, FlipAll(hunks)) == a
  {
    FlipAligned(a, b, hunks);
    PatchYieldsNew(b, a, FlipAll(hunks));
  }

  // The emitter.

  ghost predicate HasChange<T>(lines: seq<Line<T>>) {
    Removals(lines) != [] || Additions(lines) != []
  }

  lemma HunkMeansChange<T>(hunks: seq<Hunk<T>>)
    requires forall h :: h in hunks ==> HasChange(h.lines)
    ensures hunks != [] ==> AllRemovals(hunks) + AllAdditions(hunks) != []
  {
    if hunks != [] {
      assert HasChange(hunks[|hunks| - 1].lines);
    }
  }

  /** The last `k` lines read from both files are the same. */
  ghost predicate SameTail<T>(a: seq<T>, b: seq<T>, i: nat, j: nat, k: nat) {
    k <= i <= |a| && k <= j <= |b| && a[i - k..i] == b[j - k..j]
  }

  /** The context lines that open a hunk at old line `i`: at most three, all from the old file. */
  method LeadingContext<T>(a: seq<T>, i: nat) returns (lines: seq<Line<T>>)
    requires i <= |a|
    ensures Opening(a, i, lines)
  {
    lines := [];
    var first := if i < CONTEXT_LINES then 0 else i - CONTEXT_LINES;
    for k := first to i
      invariant |lines| == k - first && AllContext(lines)
      invariant OldSide(lines) == NewSide(lines) == a[first..k]
      invariant Removals(lines) == Additions(lines) == []
    {
      ghost var was := lines;
      lines := lines + [Context(a[k])];
      assert lines[..|was|] == was;
    }
  }

  /** What one more line does to an open hunk. */
  function Grow<T>(h: Hunk<T>, l: Line<T>): Hunk<T> {
    Hunk(h.start1, h.len1 + (if l.Added? then 0 else 1), h.start2, h.len2 + (if l.Removed? then 0 else 1),
        h.lines + [l])
  }

  /** `l` is the next line of the files it comes from, at old line `i` and new line `j`. */
  ghost predicate NextLine<T>(a: seq<T>, b: seq<T>, i: int, j: int, l: Line<T>) {
    && (!l.Added? ==> 0 <= i < |a| && a[i] == l.text)
    && (!l.Removed? ==> 0 <= j < |b| && b[j] == l.text)
  }

  lemma GrowFollows<T>(a: seq<T>, b: seq<T>, end1: int, end2: int, h: Hunk<T>, l: Line<T>)
    requires Follows(a, b, end1, end2, h)
    requires NextLine(a, b, h.start1 - 1 + h.len1, h.start2 - 1 + h.len2, l)
    ensures Follows(a, b, end1, end2, Grow(h, l))
  {
    var h' := Grow(h, l);
    assert h'.lines[..|h.lines|] == h.lines;
    if end1 > h.start1 - 1 {
      assert h'.lines[..end1 - (h.start1 - 1)] == h.lines[..end1 - (h.start1 - 1)];
    }
  }

  lemma GrowChanges<T>(lines: seq<Line<T>>, l: Line<T>)
    ensures Removals(lines + [l]) == if l.Removed? then Removals(lines) + [l.text] else Removals(lines)
    ensures Additions(lines + [l]) == if l.Added? then Additions(lines) + [l.text] else Additions(lines)
    ensures !l.Context? || HasChange(lines) ==> HasChange(lines + [l])
  {
    assert (lines + [l])[..|lines|] == lines;
  }

  /** No hunk is open: only common lines have been read since `end1` and `end2`, and at
      least three of them unless the files have agreed from the start. */
  ghost predicate Closed<T>(a: seq<T>, b: seq<T>, end1: int, end2: int, i: nat, j: nat) {
    && i <= |a| && j <= |b|
    && 0 <= end1 <= i && 0 <= end2 <= j
    && a[end1..i] == b[end2..j]
    && (end1 == end2 == 0 || SameTail(a, b, i, j, CONTEXT_LINES))
  }

  lemma ClosedTail<T>(a: seq<T>, b: seq<T>, end1: int, end2: int, i: nat, j: nat, k: nat)
    requires Closed(a, b, end1, end2, i, j)
    requires k <= i && k <= CONTEXT_LINES
    ensures SameTail(a, b, i, j, k)
  {
    assert |a[end1..i]| == |b[end2..j]|;
    if end1 == end2 == 0 {
      Reslice(a, 0, i - k, i);
      Reslice(b, 0, j - k, j);
    } else {
      Reslice(a, i - CONTEXT_LINES, i - k, i);
      Reslice(b, j - CONTEXT_LINES, j - k, j);
    }
  }

  lemma ClosedGap<T>(a: seq<T>, b: seq<T>, end1: int, end2: int, i: nat, j: nat, k: nat)
    requires Closed(a, b, end1, end2, i, j)
    ensures i - end1 == j - end2
    ensures end1 <= i - k ==> a[end1..i - k] == b[end2..j - k]
  {
    assert |a[end1..i]| == |b[end2..j]|;
    if end1 <= i - k {
      Reslice(a, end1, i - k, i);
      Reslice(b, end2, j - k, j);
    }
  }

  ghost predicate Opening<T>(a: seq<T>, i: nat, lines: seq<Line<T>>) {
    && i <= |a| && |lines| == (if i < CONTEXT_LINES then i else CONTEXT_LINES)
    && AllContext(lines) && OldSide(lines) == NewSide(lines) == a[i - |lines|..i]
    && Removals(lines) == Additions(lines) == []
  }

  /** Leading context is copied from the old file only, yet it is exact for both files. */
  lemma OpenFollows<T>(a: seq<T>, b: seq<T>, end1: int, end2: int, i: nat, j: nat, lines: seq<Line<T>>)
    requires Closed(a, b, end1, end2, i, j) && Opening(a, i, lines)
    ensures |lines| == if j < CONTEXT_LINES then j else CONTEXT_LINES
    ensures Follows(a, b, end1, end2, Hunk(i - |lines| + 1, |lines|, j - |lines| + 1, |lines|, lines))
  {
    ClosedTail(a, b, end1, end2, i, j, |lines|);
    ClosedGap(a, b, end1, end2, i, j, |lines|);
  }

  /** A hunk is open: it follows what was written, reaches lines `i` and `j`, and ends in
      `pending` common lines. */
  ghost predicate Open<T>(a: seq<T>, b: seq<T>, end1: int, end2: int, h: Hunk<T>, i: nat, j: nat, pending: nat) {
    && Follows(a, b, end1, end2, h)
    && h.start1 - 1 + h.len1 == i && h.start2 - 1 + h.len2 == j
    && SameTail(a, b, i, j, pending)
  }

  lemma SameTailStep<T>(a: seq<T>, b: seq<T>, i: nat, j: nat, k: nat)
    requires SameTail(a, b, i, j, k) && i < |a| && j < |b| && a[i] == b[j]
    ensures SameTail(a, b, i + 1, j + 1, k + 1)
    ensures k > 0 ==> SameTail(a, b, i + 1, j + 1, k)
  {
    assert a[i - k..i + 1] == a[i - k..i] + [a[i]];
    assert b[j - k..j + 1] == b[j - k..j] + [b[j]];
    if k > 0 {
      Reslice(a, i - k, i + 1 - k, i + 1);
      Reslice(b, j - k, j + 1 - k, j + 1);
    }
  }

  lemma ClosedStep<T>(a: seq<T>, b: seq<T>, end1: int, end2: int, i: nat, j: nat)
    requires Closed(a, b, end1, end2, i, j) && i < |a| && j < |b| && a[i] == b[j]
    ensures Closed(a, b, end1, end2, i + 1, j + 1)
  {
    assert a[end1..i + 1] == a[end1..i] + [a[i]];
    assert b[end2..j + 1] == b[end2..j] + [b[j]];
    if end1 != 0 || end2 != 0 {
      SameTailStep(a, b, i, j, CONTEXT_LINES);
    }
  }

  lemma OpenStep<T>(a: seq<T>, b: seq<T>, end1: int, end2: int, h: Hunk<T>, i: nat, j: nat, pending: nat, l: Line<T>)
    requires Open(a, b, end1, end2, h, i, j, pending) && NextLine(a, b, i, j, l)
    ensures Open(a, b, end1, end2, Grow(h, l), if l.Added? then i else i + 1, if l.Removed? then j else j + 1,
                 if l.Context? then pending + 1 else 0)
  {
    GrowFollows(a, b, end1, end2, h, l);
    if l.Context? {
      SameTailStep(a, b, i, j, pending);
    }
  }

  /** After four common lines the hunk is closed, with enough of them to open the next. */
  lemma FlushClosed<T>(a: seq<T>, b: seq<T>, end1: int, end2: int, h: Hunk<T>, i: nat, j: nat)
    requires Open(a, b, end1, end2, h, i, j, CONTEXT_LINES + 1)
    ensures Closed(a, b, i, j, i, j)
  {
    Reslice(a, i - 4, i - 3, i);
    Reslice(b, j - 4, j - 3, j);
  }

  lemma FlushAligned<T>(a: seq<T>, b: seq<T>, before: seq<Hunk<T>>, h: Hunk<T>)
    requires Aligned(a, b, before) && Follows(a, b, End1(before), End2(before), h)
    ensures Aligned(a, b, before + [h])
    ensures AllRemovals(before + [h]) == AllRemovals(before) + Removals(h.lines)
    ensures AllAdditions(before + [h]) == AllAdditions(before) + Additions(h.lines)
  {
    assert (before + [h])[..|before|] == before;
  }

  /** Where the emitter stands: `before` are the hunks written, `h` the one being collected
      (without lines when none is), `pending` the common lines since the last change. */
  ghost predicate Standing<T>(a: seq<T>, b: seq<T>, before: seq<Hunk<T>>, h: Hunk<T>, i: nat, j: nat, pending: nat) {
    && Aligned(a, b, before)
    && if h.lines == [] then
         h.len1 == h.len2 == 0 && pending == 0 && Closed(a, b, End1(before), End2(before), i, j)
       else
         pending <= CONTEXT_LINES && HasChange(h.lines) && Open(a, b, End1(before), End2(before), h, i, j, pending)
  }

  ghost predicate Changes<T>(before: seq<Hunk<T>>) {
    forall h :: h in before ==> HasChange(h.lines)
  }

  /** The lines read so far are the changed ones merged with the common ones. */
  ghost predicate Accounted<T>(a: seq<T>, b: seq<T>, before: seq<Hunk<T>>, h: Hunk<T>, i: nat, j: nat, common: seq<T>) {
    && i <= |a| && j <= |b|
    && Shuffle(a[..i], AllRemovals(before) + Removals(h.lines), common)
    && Shuffle(b[..j], AllAdditions(before) + Additions(h.lines), common)
  }

  lemma ShuffleChange<T>(w: seq<T>, u0: seq<T>, u1: seq<T>, v: seq<T>, x: T)
    requires Shuffle(w, u0 + u1, v)
    ensures Shuffle(w + [x], u0 + (u1 + [x]), v)
  {
    var u := u0 + (u1 + [x]);
    assert (w + [x])[..|w|] == w;
    assert u[..|u| - 1] == u0 + u1;
  }

  lemma ShuffleCommon<T>(w: seq<T>, u: seq<T>, v: seq<T>, x: T)
    requires Shuffle(w, u, v)
    ensures Shuffle(w + [x], u, v + [x])
  {
    assert (w + [x])[..|w|] == w;
    assert (v + [x])[..|v|] == v;
  }

  lemma AccountChange<T>(a: seq<T>, b: seq<T>, before: seq<Hunk<T>>, h: Hunk<T>, i: nat, j: nat, common: seq<T>,
                         h': Hunk<T>, l: Line<T>)
    requires Accounted(a, b, before, h, i, j, common) && NextLine(a, b, i, j, l) && !l.Context?
    requires Opened(a, h, i, j, h')
    ensures Accounted(a, b, before, Grow(h', l), if l.Added? then i else i + 1, if l.Removed? then j else j + 1, common)
  {
    GrowChanges(h'.lines, l);
    if l.Removed? {
      assert a[..i + 1] == a[..i] + [a[i]];
      ShuffleChange(a[..i], AllRemovals(before), Removals(h.lines), common, a[i]);
    } else {
      assert b[..j + 1] == b[..j] + [b[j]];
      ShuffleChange(b[..j], AllAdditions(before), Additions(h.lines), common, b[j]);
    }
  }

  lemma AccountCommon<T>(a: seq<T>, b: seq<T>, before: seq<Hunk<T>>, h: Hunk<T>, i: nat, j: nat, common: seq<T>)
    requires i < |a| && j < |b| && a[i] == b[j]
    requires Accounted(a, b, before, h, i, j, common)
    ensures Accounted(a, b, before, h, i + 1, j + 1, common + [a[i]])
    ensures Accounted(a, b, before, Grow(h, Context(a[i])), i + 1, j + 1, common + [a[i]])
  {
    GrowChanges(h.lines, Context(a[i]));
    assert a[..i + 1] == a[..i] + [a[i]] && b[..j + 1] == b[..j] + [b[j]];
    ShuffleCommon(a[..i], AllRemovals(before) + Removals(h.lines), common, a[i]);
    ShuffleCommon(b[..j], AllAdditions(before) + Additions(h.lines), common, b[j]);
  }

  lemma AccountFlush<T>(a: seq<T>, b: seq<T>, before: seq<Hunk<T>>, h: Hunk<T>, h': Hunk<T>, i: nat, j: nat,
      common: seq<T>)
    requires Accounted(a, b, before, h, i, j, common) && h'.lines == []
    ensures Accounted(a, b, before + [h], h', i, j, common)
  {
    assert (before + [h])[..|before|] == before;
    assert AllRemovals(before + [h]) + [] == AllRemovals(before + [h]);
    assert AllAdditions(before + [h]) + [] == AllAdditions(before + [h]);
  }

  // One lemma for each thing the loop below can do.

  lemma StandCommon<T>(a: seq<T>, b: seq<T>, before: seq<Hunk<T>>, h: Hunk<T>, i: nat, j: nat, pending: nat)
    requires Standing(a, b, before, h, i, j, pending) && i < |a| && j < |b| && a[i] == b[j]
    ensures h.lines == [] ==> Standing(a, b, before, h, i + 1, j + 1, pending)
    ensures h.lines != [] && pending < CONTEXT_LINES ==>
              Standing(a, b, before, Grow(h, Context(a[i])), i + 1, j + 1, pending + 1)
    ensures h.lines != [] && pending == CONTEXT_LINES ==>
              && Follows(a, b, End1(before), End2(before), Grow(h, Context(a[i])))
                 && HasChange(Grow(h, Context(a[i])).lines)
              && Standing(a, b, before + [Grow(h, Context(a[i]))], Hunk(i + 2, 0, j + 2, 0, []), i + 1, j + 1, 0)
  {
    if h.lines == [] {
      ClosedStep(a, b, End1(before), End2(before), i, j);
    } else {
      GrowChanges(h.lines, Context(a[i]));
      OpenStep(a, b, End1(before), End2(before), h, i, j, pending, Context(a[i]));
      if pending == CONTEXT_LINES {
        var h' := Grow(h, Context(a[i]));
        FlushClosed(a, b, End1(before), End2(before), h', i + 1, j + 1);
        FlushAligned(a, b, before, h');
      }
    }
  }

  /** `h'` is `h`, or a fresh hunk opened with leading context when `h` has no lines. */
  ghost predicate Opened<T>(a: seq<T>, h: Hunk<T>, i: nat, j: nat, h': Hunk<T>) {
    if h.lines != [] then h' == h
    else
      && Opening(a, i, h'.lines)
      && h'.start1 == (if i < CONTEXT_LINES then 1 else i - CONTEXT_LINES + 1)
      && h'.start2 == (if j < CONTEXT_LINES then 1 else j - CONTEXT_LINES + 1)
      && h'.len1 == h'.len2 == |h'.lines|
  }

  method OpenHunk<T>(a: seq<T>, h: Hunk<T>, i: nat, j: nat) returns (h': Hunk<T>)
    requires i <= |a|
    ensures Opened(a, h, i, j, h')
  {
    h' := h;
    if |h.lines| == 0 {
      var lines := LeadingContext(a, i);
      h' := Hunk(if i < CONTEXT_LINES then 1 else i - CONTEXT_LINES + 1, |lines|,
                 if j < CONTEXT_LINES then 1 else j - CONTEXT_LINES + 1, |lines|, lines);
    }
  }

  lemma StandChange<T>(a: seq<T>, b: seq<T>, before: seq<Hunk<T>>, h: Hunk<T>, i: nat, j: nat, pending: nat,
                       h': Hunk<T>, l: Line<T>)
    requires Standing(a, b, before, h, i, j, pending)
    requires Opened(a, h, i, j, h')
    requires !l.Context? && NextLine(a, b, i, j, l)
    ensures Standing(a, b, before, Grow(h', l), if l.Added? then i else i + 1, if l.Removed? then j else j + 1, 0)
  {
    GrowChanges(h'.lines, l);
    if h.lines == [] {
      OpenFollows(a, b, End1(before), End2(before), i, j, h'.lines);
      OpenStep(a, b, End1(before), End2(before), h', i, j, 0, l);
    } else {
      OpenStep(a, b, End1(before), End2(before), h, i, j, pending, l);
    }
  }

  lemma StandEnd<T>(a: seq<T>, b: seq<T>, before: seq<Hunk<T>>, h: Hunk<T>, pending: nat)
    requires Standing(a, b, before, h, |a|, |b|, pending)
    ensures IsDiff(a, b, if h.lines == [] then before else before + [h])
  {
    if h.lines == [] {
      assert a[End1(before)..] == a[End1(before)..|a|] && b[End2(before)..] == b[End2(before)..|b|];
    } else {
      FlushAligned(a, b, before, h);
    }
  }

  /** What is left of the common subsequence is still to be found in both files. */
  lemma UnreadStep<T>(s: seq<T>, t: seq<T>, k: nat, i: nat)
    requires k <= |s| && i < |t| && Subseq(s[k..], t[i..])
    ensures k < |s| && s[k] == t[i] ==> Subseq(s[k + 1..], t[i + 1..])
    ensures k == |s| || s[k] != t[i] ==> Subseq(s[k..], t[i + 1..])
  {
    assert t[i..][1..] == t[i + 1..];
    if k < |s| && s[k] == t[i] {
      assert s[k..][1..] == s[k + 1..];
      SubseqOfTail(s[k..], t[i..]);
    }
  }

  /** The unread common lines are still to be found in both files. */
  ghost predicate Left<T>(a: seq<T>, b: seq<T>, common: seq<T>, i: nat, j: nat, k: nat) {
    i <= |a| && j <= |b| && k <= |common| && Subseq(common[k..], a[i..]) && Subseq(common[k..], b[j..])
  }

  lemma LeftStep<T>(a: seq<T>, b: seq<T>, common: seq<T>, i: nat, j: nat, k: nat)
    requires Left(a, b, common, i, j, k)
    ensures i < |a| && j < |b| && k < |common| && a[i] == b[j] == common[k] ==> Left(a, b, common, i + 1, j + 1, k + 1)
    ensures i < |a| && (k == |common| || a[i] != common[k]) ==> Left(a, b, common, i + 1, j, k)
    ensures j < |b| && (k == |common| || b[j] != common[k]) ==> Left(a, b, common, i, j + 1, k)
    ensures k < |common| ==> i < |a| && j < |b|
  {
    if i < |a| { UnreadStep(common, a, k, i); }
    if j < |b| { UnreadStep(common, b, k, j); }
  }

  // What is printed around the changes.

  ghost predicate FourFrom<T>(lines: seq<Line<T>>, k: int) {
    0 <= k && k + 4 <= |lines| && AllContext(lines[k..k + 4])
  }

  /** Exactly `n` context lines close the hunk, and a change stands before them. */
  ghost predicate EndsIn<T>(lines: seq<Line<T>>, n: nat) {
    n < |lines| && AllContext(lines[|lines| - n..]) && !lines[|lines| - n - 1].Context?
  }

  /** A hunk opens with three context lines unless it starts where the old file does, has four in a row
      only at its end, and removes before it adds. */
  ghost predicate Tidy<T>(h: Hunk<T>) {
    && (h.start1 == 1 || Repeats(h.lines, CONTEXT_LINES))
    && (forall k :: FourFrom(h.lines, k) ==> k + 4 == |h.lines|)
    && (forall k :: 0 < k < |h.lines| && h.lines[k].Removed? ==> !h.lines[k - 1].Added?)
  }

  ghost predicate ClosesInFour<T>(h: Hunk<T>) {
    Tidy(h) && EndsIn(h.lines, CONTEXT_LINES + 1)
  }

  /** Every hunk is tidy, and ends in exactly four context lines unless it is the last and reaches the
      ends of both files. */
  ghost predicate Shaped<T>(a: seq<T>, b: seq<T>, hunks: seq<Hunk<T>>) {
    && (forall h :: h in hunks ==> Tidy(h))
    && (forall k :: 0 <= k < |hunks| - 1 ==> EndsIn(hunks[k].lines, 4))
    && (hunks != [] ==> EndsIn(hunks[|hunks| - 1].lines, 4) || (End1(hunks) == |a| && End2(hunks) == |b|))
  }

  /** The hunk being collected, `pending` context lines after its last change. */
  ghost predicate Collecting<T>(h: Hunk<T>, pending: nat) {
    Tidy(h) && EndsIn(h.lines, pending) && pending <= CONTEXT_LINES
  }

  lemma CollectContext<T>(h: Hunk<T>, pending: nat, x: T)
    requires Collecting(h, pending)
    ensures pending < CONTEXT_LINES ==> Collecting(Grow(h, Context(x)), pending + 1)
    ensures pending == CONTEXT_LINES ==> ClosesInFour(Grow(h, Context(x)))
  {
    var h' := Grow(h, Context(x));
    NoFourBefore(h, pending, Context(x));
    assert h'.lines[..|h.lines|] == h.lines;
    if h.start1 != 1 {
      assert h'.lines[..CONTEXT_LINES] == h.lines[..CONTEXT_LINES];
    }
    assert h'.lines[|h'.lines| - (pending + 1)..] == h.lines[|h.lines| - pending..] + [Context(x)];
  }

  lemma NoFourBefore<T>(h: Hunk<T>, pending: nat, l: Line<T>)
    requires Collecting(h, pending)
    ensures forall k :: FourFrom(h.lines + [l], k) ==> k + 4 == |h.lines| + 1
  {
    var lines := h.lines + [l];
    forall k | FourFrom(lines, k) ensures k + 4 == |lines| {
      if k + 4 < |lines| {
        assert lines[k..k + 4] == h.lines[k..k + 4];
        assert FourFrom(h.lines, k);
      }
    }
  }

  lemma CollectChange<T>(a: seq<T>, h: Hunk<T>, i: nat, j: nat, pending: nat, h': Hunk<T>, l: Line<T>)
    requires h.lines == [] || Collecting(h, pending)
    requires Opened(a, h, i, j, h') && !l.Context?
    requires l.Removed? && h.lines != [] ==> !h.lines[|h.lines| - 1].Added?
    ensures Collecting(Grow(h', l), 0)
  {
    var lines := h'.lines + [l];
    assert lines[..|h'.lines|] == h'.lines;
    if h.lines != [] {
      NoFourBefore(h, pending, l);
      if h.start1 != 1 {
        assert lines[..CONTEXT_LINES] == h.lines[..CONTEXT_LINES];
      }
    }
  }

  /** The variables of the emitter loop. */
  datatype Emitter<T> = Emitter(hunks: seq<Hunk<T>>, hunk: Hunk<T>, pendingContext: nat, i: nat, j: nat, lcsIdx: nat)

  /** The hunks written are shaped as they should be and so is the one collected; after an added line
      no removed one can follow, for the next old line is common. */
  ghost predicate Shape<T>(a: seq<T>, common: seq<T>, e: Emitter<T>) {
    && (forall h :: h in e.hunks ==> ClosesInFour(h))
    && (e.hunk.lines != [] ==>
          && Collecting(e.hunk, e.pendingContext)
          && (e.hunk.lines[|e.hunk.lines| - 1].Added? ==> NextIsCommon(a, common, e)))
  }

  ghost predicate NextIsCommon<T>(a: seq<T>, common: seq<T>, e: Emitter<T>) {
    e.i >= |a| || (e.lcsIdx < |common| && a[e.i] == common[e.lcsIdx])
  }

  lemma ShapeEnd<T>(a: seq<T>, b: seq<T>, common: seq<T>, e: Emitter<T>)
    requires Inv(a, b, common, e) && e.i == |a| && e.j == |b|
    ensures Shaped(a, b, if e.hunk.lines == [] then e.hunks else e.hunks + [e.hunk])
  {
    hide Aligned, Follows, SameTail, OldSide, NewSide, Tidy, EndsIn, Accounted, Left;
    assert forall k :: 0 <= k < |e.hunks| ==> e.hunks[k] in e.hunks;
  }

  ghost predicate Inv<T>(a: seq<T>, b: seq<T>, common: seq<T>, e: Emitter<T>) {
    && Left(a, b, common, e.i, e.j, e.lcsIdx)
    && Changes(e.hunks)
    && Standing(a, b, e.hunks, e.hunk, e.i, e.j, e.pendingContext)
    && Accounted(a, b, e.hunks, e.hunk, e.i, e.j, common[..e.lcsIdx])
    && Shape(a, common, e)
  }

  /** With both files read, closing the open hunk completes the diff. */
  lemma Complete<T>(a: seq<T>, b: seq<T>, common: seq<T>, e: Emitter<T>)
    requires Inv(a, b, common, e) && e.i == |a| && e.j == |b|
    ensures var hunks := if e.hunk.lines == [] then e.hunks else e.hunks + [e.hunk];
            && IsDiff(a, b, hunks) && Changes(hunks)
            && Shuffle(a, AllRemovals(hunks), common) && Shuffle(b, AllAdditions(hunks), common)
            && Shaped(a, b, hunks)
  {
    hide Aligned, Follows, SameTail, OldSide, NewSide, Shape, Shaped;
    ShapeEnd(a, b, common, e);
    StandEnd(a, b, e.hunks, e.hunk, e.pendingContext);
    assert common[..e.lcsIdx] == common && a[..e.i] == a && b[..e.j] == b;
    if e.hunk.lines != [] {
      FlushAligned(a, b, e.hunks, e.hunk);
    } else {
      assert AllRemovals(e.hunks) + Removals([]) == AllRemovals(e.hunks);
      assert AllAdditions(e.hunks) + Additions([]) == AllAdditions(e.hunks);
    }
  }

  method TakeCommon<T>(a: seq<T>, b: seq<T>, ghost common: seq<T>, e: Emitter<T>) returns (e': Emitter<T>)
    requires Inv(a, b, common, e) && e.i < |a| && e.j < |b| && e.lcsIdx < |common|
    requires a[e.i] == b[e.j] == common[e.lcsIdx]
    ensures Inv(a, b, common, e') && e'.i == e.i + 1 && e'.j == e.j + 1
  {
    hide Shuffle, Subseq, AllRemovals, AllAdditions, Removals, Additions, Aligned, Follows, OldSide, NewSide, Patched,
        SameTail, Collecting, ClosesInFour;
    ghost var shared := common[..e.lcsIdx + 1];
    assert shared == common[..e.lcsIdx] + [a[e.i]];
    LeftStep(a, b, common, e.i, e.j, e.lcsIdx);
    StandCommon(a, b, e.hunks, e.hunk, e.i, e.j, e.pendingContext);
    AccountCommon(a, b, e.hunks, e.hunk, e.i, e.j, common[..e.lcsIdx]);
    if |e.hunk.lines| > 0 { CollectContext(e.hunk, e.pendingContext, a[e.i]); }
    if |e.hunk.lines| == 0 {
      e' := Emitter(e.hunks, e.hunk, e.pendingContext, e.i + 1, e.j + 1, e.lcsIdx + 1);
    } else {
      var grown := Grow(e.hunk, Context(a[e.i]));
      if e.pendingContext + 1 > CONTEXT_LINES {
        var next := Hunk(e.i + 2, 0, e.j + 2, 0, []);
        AccountFlush(a, b, e.hunks, grown, next, e.i + 1, e.j + 1, shared);
        e' := Emitter(e.hunks + [grown], next, 0, e.i + 1, e.j + 1, e.lcsIdx + 1);
      } else {
        e' := Emitter(e.hunks, grown, e.pendingContext + 1, e.i + 1, e.j + 1, e.lcsIdx + 1);
      }
    }
  }

  method TakeChange<T>(a: seq<T>, b: seq<T>, ghost common: seq<T>, e: Emitter<T>, l: Line<T>) returns (e': Emitter<T>)
    requires Inv(a, b, common, e) && !l.Context? && NextLine(a, b, e.i, e.j, l)
    requires e.lcsIdx == |common| || common[e.lcsIdx] != l.text
    requires l.Added? ==> NextIsCommon(a, common, e)
    ensures Inv(a, b, common, e')
    ensures e'.i == if l.Added? then e.i else e.i + 1
    ensures e'.j == if l.Removed? then e.j else e.j + 1
  {
    hide Shuffle, Subseq, AllRemovals, AllAdditions, Removals, Additions, Aligned, Follows, OldSide, NewSide, Patched,
        SameTail, Collecting, ClosesInFour;
    LeftStep(a, b, common, e.i, e.j, e.lcsIdx);
    var h' := OpenHunk(a, e.hunk, e.i, e.j);
    StandChange(a, b, e.hunks, e.hunk, e.i, e.j, e.pendingContext, h', l);
    AccountChange(a, b, e.hunks, e.hunk, e.i, e.j, common[..e.lcsIdx], h', l);
    CollectChange(a, e.hunk, e.i, e.j, e.pendingContext, h', l);
    e' := Emitter(e.hunks, Grow(h', l), 0, if l.Added? then e.i else e.i + 1,
        if l.Removed? then e.j else e.j + 1, e.lcsIdx);
  }

  /** The emitter loop. It has a path on which nothing advances, and stops because that path
      would need an unread common line that the new file no longer has. */
  method EmitHunks<T(==)>(a: seq<T>, b: seq<T>, common: seq<T>) returns (hunks: seq<Hunk<T>>)
    requires Common(common, a, b)
    ensures IsDiff(a, b, hunks) && Changes(hunks)
    ensures Shuffle(a, AllRemovals(hunks), common) && Shuffle(b, AllAdditions(hunks), common)
    ensures Shaped(a, b, hunks)
  {
    var e: Emitter<T> := Emitter([], Hunk(1, 0, 1, 0, []), 0, 0, 0, 0);
    while e.i < |a| || e.j < |b|
      invariant Inv(a, b, common, e)
      decreases |a| - e.i + |b| - e.j
    {
      LeftStep(a, b, common, e.i, e.j, e.lcsIdx);
      if e.lcsIdx < |common| && e.i < |a| && e.j < |b| && a[e.i] == common[e.lcsIdx] && b[e.j] == common[e.lcsIdx] {
        e := TakeCommon(a, b, common, e);
      } else if e.i < |a| && (e.lcsIdx >= |common| || a[e.i] != common[e.lcsIdx]) {
        e := TakeChange(a, b, common, e, Removed(a[e.i]));
      } else if e.j < |b| {
        e := TakeChange(a, b, common, e, Added(b[e.j]));
      }
    }
    Complete(a, b, common, e);
    hunks := e.hunks;
    if |e.hunk.lines| > 0 {
      hunks := hunks + [e.hunk];
    }
  }

  method ComputeUnifiedDiff<T(==, !new)>(a: seq<T>, b: seq<T>) returns (hunks: seq<Hunk<T>>, ghost lcs: seq<T>)
    // a patch, in both directions
    ensures IsDiff(a, b, hunks)
    // removed and added lines are the complements of a longest common subsequence
    ensures Common(lcs, a, b)
    ensures Shuffle(a, AllRemovals(hunks), lcs) && Shuffle(b, AllAdditions(hunks), lcs)
    ensures forall s :: Common(s, a, b) ==> |AllRemovals(hunks)| <= |a| - |s| && |AllAdditions(hunks)| <= |b| - |s|
    // as much context is printed as there should be
    ensures Shaped(a, b, hunks)
    // nothing is printed exactly when nothing changed
    ensures hunks == [] <==> a == b
  {
    var common := ComputeLcs(a, b);
    lcs := common;
    hunks := EmitHunks(a, b, common);
    SilentIffEqual(a, b, hunks, common);
  }

  lemma SilentIffEqual<T(!new)>(a: seq<T>, b: seq<T>, hunks: seq<Hunk<T>>, lcs: seq<T>)
    requires IsDiff(a, b, hunks) && Changes(hunks)
    requires Shuffle(a, AllRemovals(hunks), lcs) && Shuffle(b, AllAdditions(hunks), lcs)
    requires forall s :: Common(s, a, b) ==> |s| <= |lcs|
    ensures |AllRemovals(hunks)| == |a| - |lcs| && |AllAdditions(hunks)| == |b| - |lcs|
    ensures hunks == [] <==> a == b
  {
    ShuffleLength(a, AllRemovals(hunks), lcs);
    ShuffleLength(b, AllAdditions(hunks), lcs);
    if a == b {
      SubseqSelf(a);
      assert Common(a, a, b);
      HunkMeansChange(hunks);
    } else if hunks == [] {
      PatchYieldsNew(a, b, hunks);
    }
  }
}
