/**
 Facts about ID lists seen as sequences.  In memory an ID list is an array
 whose element 0 holds the count; the IDs follow in descending order.
 */
module IdSequences {

  /** Element 0 of the array counts the IDs that follow it. */
  ghost predicate Valid(a: array<nat>)
    reads a
  {
    0 < a.Length && a[0] < a.Length
  }

  ghost predicate Desc(s: seq<nat>) { forall i, j :: 0 <= i < j < |s| ==> s[i] >= s[j] }

  ghost predicate StrictDesc(s: seq<nat>) { forall i, j :: 0 <= i < j < |s| ==> s[i] > s[j] }

  ghost predicate Distinct(s: seq<nat>) { forall i, j :: 0 <= i < j < |s| ==> s[i] != s[j] }

  /** The IDs of the list stored at offset m. */
  function List(a: seq<nat>, m: nat): seq<nat>
    requires m < |a| && m + a[m] < |a|
  {
    a[m + 1..m + 1 + a[m]]
  }

  lemma {:induction false} CountAtLeast(s: seq<nat>, i: nat, j: nat)
    requires i < j < |s| && s[i] == s[j]
    ensures multiset(s)[s[i]] >= 2
  {
    assert s == s[..j] + s[j..];
    assert s[..j][i] in s[..j] && s[j..][0] in s[j..];
  }

  /** A descending list in which no ID occurs twice is strictly descending. */
  lemma StrictIfNoRepeats(s: seq<nat>)
    requires Desc(s) && forall x :: multiset(s)[x] <= 1
    ensures StrictDesc(s)
  {
    forall i, j | 0 <= i < j < |s| ensures s[i] > s[j] {
      if s[i] == s[j] { CountAtLeast(s, i, j); }
    }
  }

  lemma {:induction false} CountOfStrict(s: seq<nat>, x: nat)
    requires StrictDesc(s)
    ensures multiset(s)[x] <= 1
  {
    if |s| > 0 {
      var t := s[..|s| - 1];
      assert s == t + [s[|s| - 1]];
      CountOfStrict(t, x);
      assert s[|s| - 1] !in t;
    }
  }

  /** Merging two strictly descending lists without a common ID stays strict. */
  lemma MergeOfDisjoint(a: seq<nat>, b: seq<nat>, c: seq<nat>)
    requires StrictDesc(a) && StrictDesc(b) && (forall x :: x in a ==> x !in b)
    requires Desc(c) && multiset(c) == multiset(a) + multiset(b)
    ensures StrictDesc(c)
    ensures forall x :: x in c <==> x in a || x in b
  {
    forall x ensures multiset(c)[x] <= 1 {
      CountOfStrict(a, x);
      CountOfStrict(b, x);
      assert x in a <==> x in multiset(a);
      assert x in b <==> x in multiset(b);
    }
    StrictIfNoRepeats(c);
    forall x ensures x in c <==> x in a || x in b {
      assert x in c <==> x in multiset(c);
    }
  }

  // ------------------------------------------- rearranging inside a range

  /** t is s with the elements l..r rearranged. */
  ghost predicate Rearranged(s: seq<nat>, t: seq<nat>, l: int, r: int) {
    && |s| == |t| && 0 <= l && r < |s| && l <= r + 1
    && (forall i :: 0 <= i < |s| && !(l <= i <= r) ==> s[i] == t[i])
    && multiset(s[l..r + 1]) == multiset(t[l..r + 1])
  }

  lemma RearrangedSame(s: seq<nat>, l: int, r: int)
    requires 0 <= l <= r + 1 && r < |s|
    ensures Rearranged(s, s, l, r)
  {
  }

  lemma RearrangedTrans(s: seq<nat>, t: seq<nat>, u: seq<nat>, l: int, r: int)
    requires Rearranged(s, t, l, r) && Rearranged(t, u, l, r)
    ensures Rearranged(s, u, l, r)
  {
  }

  lemma RearrangedSource(s: seq<nat>, t: seq<nat>, l: int, r: int, j: int) returns (i: int)
    requires Rearranged(s, t, l, r) && l <= j <= r
    ensures l <= i <= r && s[i] == t[j]
  {
    assert t[j] == t[l..r + 1][j - l];
    assert t[j] in multiset(t[l..r + 1]);
    assert t[j] in s[l..r + 1];
    var k :| 0 <= k < r + 1 - l && s[l..r + 1][k] == t[j];
    i := l + k;
  }

  /** Rearranging l..r rearranges any wider range. */
  lemma RearrangedWiden(s: seq<nat>, t: seq<nat>, l: int, r: int, lo: int, hi: int)
    requires Rearranged(s, t, l, r) && 0 <= lo <= l && r <= hi < |s|
    ensures Rearranged(s, t, lo, hi)
  {
    assert s[lo..l] == t[lo..l] && s[r + 1..hi + 1] == t[r + 1..hi + 1];
    assert s[lo..hi + 1] == s[lo..l] + s[l..r + 1] + s[r + 1..hi + 1];
    assert t[lo..hi + 1] == t[lo..l] + t[l..r + 1] + t[r + 1..hi + 1];
  }

  lemma SwapRearranges(s: seq<nat>, x: int, y: int, l: int, r: int)
    requires 0 <= l <= x <= r < |s| && l <= y <= r
    ensures Rearranged(s, s[x := s[y]][y := s[x]], l, r)
  {
    var t := s[x := s[y]][y := s[x]];
    var a: seq<nat> := s[l..r + 1];
    var x', y': nat := s[x], s[y];
    assert t[l..r + 1] == a[x - l := y'][y - l := x'];
  }

  /** Moving element j down to position h, the ones between up by one. */
  function MoveDown(s: seq<nat>, h: int, j: int): seq<nat>
    requires 0 <= h <= j < |s|
  {
    s[..h] + [s[j]] + s[h..j] + s[j + 1..]
  }

  lemma MoveDownPointwise(s: seq<nat>, t: seq<nat>, h: int, j: int)
    requires 0 <= h <= j < |s| == |t|
    requires forall p :: 0 <= p < |s| && !(h <= p <= j) ==> t[p] == s[p]
    requires t[h] == s[j] && forall p :: h < p <= j ==> t[p] == s[p - 1]
    ensures t == MoveDown(s, h, j)
  {
    var u := MoveDown(s, h, j);
    forall p | 0 <= p < |s| ensures t[p] == u[p] {
      if p < h { assert u[p] == s[..h][p]; }
      else if p == h {}
      else if p <= j { assert u[p] == s[h..j][p - h - 1]; }
      else { assert u[p] == s[j + 1..][p - j - 1]; }
    }
  }

  lemma Middle(p: seq<nat>, m: seq<nat>, q: seq<nat>)
    ensures (p + m + q)[|p|..|p| + |m|] == m && (p + m + q)[..|p|] == p && (p + m + q)[|p| + |m|..] == q
  {
  }

  lemma MoveDownParts(s: seq<nat>, h: int, j: int, l: int, r: int)
    requires 0 <= l <= h <= j <= r < |s|
    ensures s == s[..l] + (s[l..h] + s[h..j] + [s[j]] + s[j + 1..r + 1]) + s[r + 1..]
    ensures MoveDown(s, h, j) == s[..l] + (s[l..h] + [s[j]] + s[h..j] + s[j + 1..r + 1]) + s[r + 1..]
  {
    assert s[..h] == s[..l] + s[l..h] && s[j + 1..] == s[j + 1..r + 1] + s[r + 1..];
  }

  lemma MoveDownRearranges(s: seq<nat>, h: int, j: int, l: int, r: int)
    requires 0 <= l <= h <= j <= r < |s|
    ensures Rearranged(s, MoveDown(s, h, j), l, r)
  {
    hide MoveDown;
    MoveDownParts(s, h, j, l, r);
    var p, a, b, c, q := s[..l], s[l..h], s[h..j], s[j + 1..r + 1], s[r + 1..];
    var m, u := a + b + [s[j]] + c, a + [s[j]] + b + c;
    Middle(p, m, q);
    Middle(p, u, q);
    var t := MoveDown(s, h, j);
    assert t[..l] == s[..l] && t[r + 1..] == s[r + 1..];
    forall i | 0 <= i < |s| && !(l <= i <= r) ensures s[i] == t[i] {
      assert i < l ==> s[..l][i] == t[..l][i];
      assert i > r ==> s[r + 1..][i - r - 1] == t[r + 1..][i - r - 1];
    }
  }

  /** Everything in 1..p-1 is at least everything in p..n. */
  ghost predicate Cut(s: seq<nat>, p: int, n: int)
    requires n < |s|
  {
    forall i, j :: 1 <= i < p <= j <= n ==> s[i] >= s[j]
  }

  lemma CutKept(s: seq<nat>, t: seq<nat>, l: int, r: int, p: int, n: int)
    requires Rearranged(s, t, l, r) && 1 <= l && r <= n < |s| && Cut(s, p, n) && (p <= l || p > r)
    ensures Cut(t, p, n)
  {
    forall i, j | 1 <= i < p <= j <= n ensures t[i] >= t[j] {
      var i', j' := i, j;
      if l <= i <= r { i' := RearrangedSource(s, t, l, r, i); }
      if l <= j <= r { j' := RearrangedSource(s, t, l, r, j); }
      assert s[i'] >= s[j'];
    }
  }

  lemma CutsSort(s: seq<nat>, n: int)
    requires 0 <= n < |s| && forall p :: 2 <= p <= n ==> Cut(s, p, n)
    ensures Desc(s[1..n + 1])
  {
    var u := s[1..n + 1];
    forall i, j | 0 <= i < j < |u| ensures u[i] >= u[j] {
      assert Cut(s, j + 1, n);
    }
  }
}
