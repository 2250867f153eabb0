/** The longest common subsequence of two lists of lines: the dynamic-programming
    table, the backtracking walk over it, and the proof that the walk is optimal. */
module Lcs {

  /** `s` arises from `t` by deleting some elements. */
  ghost predicate Subseq<T>(s: seq<T>, t: seq<T>) {
    s == [] ||
    (t != [] && (Subseq(s, t[1..]) || (s[0] == t[0] && Subseq(s[1..], t[1..]))))
  }

  ghost predicate Common<T>(s: seq<T>, a: seq<T>, b: seq<T>) {
    Subseq(s, a) && Subseq(s, b)
  }

  lemma {:induction false} SubseqOfTail<T>(s: seq<T>, t: seq<T>)
    requires s != [] && Subseq(s, t)
    ensures Subseq(s[1..], t[1..])
  {
    if Subseq(s, t[1..]) { SubseqDropHead(s, t[1..]); }
  }

  lemma {:induction false} SubseqDropHead<T>(s: seq<T>, t: seq<T>)
    requires s != [] && Subseq(s, t)
    ensures Subseq(s[1..], t)
  {
    if Subseq(s, t[1..]) { SubseqDropHead(s, t[1..]); }
  }

  lemma {:induction false} SubseqSelf<T>(s: seq<T>)
    ensures Subseq(s, s)
  {
    if s != [] { SubseqSelf(s[1..]); }
  }

  /** What a subsequence of `t + [x]` looks like: it ends in `x`, or it lives in `t`. */
  lemma {:induction false} SubseqOfSnoc<T>(s: seq<T>, t: seq<T>, x: T)
    requires s != [] && Subseq(s, t + [x])
    ensures Subseq(s[..|s| - 1], t)
    ensures s[|s| - 1] != x ==> Subseq(s, t)
  {
    if t == [] {
      assert (t + [x])[1..] == [];
      assert s[..|s| - 1] == [];
    } else {
      assert (t + [x])[1..] == t[1..] + [x];
      if Subseq(s, t[1..] + [x]) {
        SubseqOfSnoc(s, t[1..], x);
      } else if |s| > 1 {
        SubseqOfSnoc(s[1..], t[1..], x);
        assert s[1..][..|s| - 2] == s[..|s| - 1][1..];
      }
    }
  }

  /** No common subsequence of `a` and `b` is longer than `len`. */
  ghost predicate BoundsCommon<T(!new)>(len: nat, a: seq<T>, b: seq<T>) {
    forall s :: Common(s, a, b) ==> |s| <= len
  }

  lemma {:induction false} BoundSame<T(!new)>(a: seq<T>, b: seq<T>, x: T, len: nat)
    requires BoundsCommon(len, a, b)
    ensures BoundsCommon(len + 1, a + [x], b + [x])
  {
    forall s | Common(s, a + [x], b + [x]) ensures |s| <= len + 1 {
      if s != [] {
        SubseqOfSnoc(s, a, x);
        SubseqOfSnoc(s, b, x);
        assert Common(s[..|s| - 1], a, b);
      }
    }
  }

  lemma {:induction false} BoundDiffer<T(!new)>(a: seq<T>, b: seq<T>, x: T, y: T, up: nat, left: nat)
    requires x != y
    requires BoundsCommon(up, a, b + [y]) && BoundsCommon(left, a + [x], b)
    ensures BoundsCommon(Max(up, left), a + [x], b + [y])
  {
    forall s | Common(s, a + [x], b + [y]) ensures |s| <= Max(up, left) {
      if s != [] {
        SubseqOfSnoc(s, a, x);
        SubseqOfSnoc(s, b, y);
        assert Common(s, a, b + [y]) || Common(s, a + [x], b);
      }
    }
  }

  function Max(x: nat, y: nat): nat {
    if x > y then x else y
  }

  /** The recurrence the table is filled by, for the prefixes `a[..i]` and `b[..j]`. */
  ghost function Cell<T>(a: seq<T>, b: seq<T>, i: nat, j: nat): nat
    requires i <= |a| && j <= |b|
  {
    if i == 0 || j == 0 then 0
    else if a[i - 1] == b[j - 1] then Cell(a, b, i - 1, j - 1) + 1
    else Max(Cell(a, b, i - 1, j), Cell(a, b, i, j - 1))
  }

  /** Every cell of the table bounds the common subsequences of its two prefixes. */
  lemma {:induction false} CellBounds<T(!new)>(a: seq<T>, b: seq<T>, i: nat, j: nat)
    requires i <= |a| && j <= |b|
    ensures BoundsCommon(Cell(a, b, i, j), a[..i], b[..j])
  {
    if i > 0 && j > 0 {
      assert a[..i] == a[..i - 1] + [a[i - 1]] && b[..j] == b[..j - 1] + [b[j - 1]];
      if a[i - 1] == b[j - 1] {
        CellBounds(a, b, i - 1, j - 1);
        BoundSame(a[..i - 1], b[..j - 1], a[i - 1], Cell(a, b, i - 1, j - 1));
      } else {
        CellBounds(a, b, i - 1, j);
        CellBounds(a, b, i, j - 1);
        BoundDiffer(a[..i - 1], b[..j - 1], a[i - 1], b[j - 1], Cell(a, b, i - 1, j), Cell(a, b, i, j - 1));
      }
    }
  }

  /** Fills row `i` of the table from the row above it. */
  method FillRow<T(==)>(dp: array2<nat>, a: seq<T>, b: seq<T>, i: nat)
    requires dp.Length0 == |a| + 1 && dp.Length1 == |b| + 1 && 0 < i <= |a|
    requires forall p, q :: p == i - 1 && 0 <= q <= |b| ==> dp[p, q] == Cell(a, b, p, q)
    requires dp[i, 0] == 0
    modifies dp
    ensures forall q :: 0 <= q <= |b| ==> dp[i, q] == Cell(a, b, i, q)
    ensures forall p, q :: 0 <= p <= |a| && 0 <= q <= |b| && p != i ==> dp[p, q] == old(dp[p, q])
  {
    assert Cell(a, b, i, 0) == 0;
    hide Cell;
    for j := 1 to |b| + 1
      invariant forall q :: 0 <= q < j ==> dp[i, q] == Cell(a, b, i, q)
      invariant forall p, q :: 0 <= p <= |a| && 0 <= q <= |b| && p != i ==> dp[p, q] == old(dp[p, q])
    {
      CellStep(a, b, i, j);
      if a[i - 1] == b[j - 1] {
        dp[i, j] := dp[i - 1, j - 1] + 1;
      } else {
        dp[i, j] := Max(dp[i - 1, j], dp[i, j - 1]);
      }
    }
  }

  method FillTable<T(==)>(a: seq<T>, b: seq<T>) returns (dp: array2<nat>)
    ensures fresh(dp) && dp.Length0 == |a| + 1 && dp.Length1 == |b| + 1
    ensures forall p, q :: 0 <= p <= |a| && 0 <= q <= |b| ==> dp[p, q] == Cell(a, b, p, q)
  {
    dp := new nat[|a| + 1, |b| + 1]((_, _) => 0);
    for i := 1 to |a| + 1
      invariant forall p, q :: 0 <= p < i && 0 <= q <= |b| ==> dp[p, q] == Cell(a, b, p, q)
      invariant forall p :: 0 <= p <= |a| ==> dp[p, 0] == 0
    {
      FillRow(dp, a, b, i);
    }
  }

  lemma CellStep<T>(a: seq<T>, b: seq<T>, i: nat, j: nat)
    requires 0 < i <= |a| && 0 < j <= |b|
    ensures Cell(a, b, i, j) == if a[i - 1] == b[j - 1] then Cell(a, b, i - 1, j - 1) + 1
                                else Max(Cell(a, b, i - 1, j), Cell(a, b, i, j - 1))
  {
  }

  /** Walks the table back from its far corner. The result is a common subsequence and no
      common subsequence is longer. */
  method ComputeLcs<T(==, !new)>(a: seq<T>, b: seq<T>) returns (lcs: seq<T>)
    ensures Common(lcs, a, b)
    ensures forall s :: Common(s, a, b) ==> |s| <= |lcs|
  {
    var m, n := |a|, |b|;
    if m == 0 || n == 0 {
      return [];
    }
    var dp := FillTable(a, b);
    lcs := [];
    var i, j := m, n;
    while i > 0 && j > 0
      invariant 0 <= i <= m && 0 <= j <= n
      invariant Common(lcs, a[i..], b[j..])
      invariant Cell(a, b, i, j) + |lcs| == Cell(a, b, m, n)
      decreases i + j
    {
      assert a[i - 1..][1..] == a[i..] && b[j - 1..][1..] == b[j..];
      if a[i - 1] == b[j - 1] {
        ghost var tail := lcs;
        lcs := [a[i - 1]] + lcs;
        assert lcs[1..] == tail;
        i, j := i - 1, j - 1;
      } else if dp[i - 1, j] > dp[i, j - 1] {
        i := i - 1;
      } else {
        j := j - 1;
      }
    }
    SubseqOfDrop(lcs, a, i);
    SubseqOfDrop(lcs, b, j);
    CellBounds(a, b, m, n);
    assert a[..m] == a && b[..n] == b;
  }

  lemma {:induction false} SubseqOfDrop<T>(s: seq<T>, t: seq<T>, k: nat)
    requires k <= |t| && Subseq(s, t[k..])
    ensures Subseq(s, t)
    decreases k
  {
    if k > 0 {
      assert t[k - 1..][1..] == t[k..];
      SubseqOfDrop(s, t, k - 1);
    } else {
      assert t[0..] == t;
    }
  }
}
