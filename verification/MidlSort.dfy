/** mdb_midl_sort: quicksort with an explicit stack of pending ranges, and
    insertion sort on ranges of at most eight IDs. */
module MidlSort {
  import opened IdSequences

  const SMALL := 8

  /** sizeof(int) * CHAR_BIT * 2 */
  const STACK_SIZE := 64

  method Swap(ids: array<nat>, x: nat, y: nat, ghost l: nat, ghost r: nat)
    requires l <= x <= r < ids.Length && l <= y <= r
    modifies ids
    ensures ids[x] == old(ids[y]) && ids[y] == old(ids[x])
    ensures forall p :: 0 <= p < ids.Length && p != x && p != y ==> ids[p] == old(ids[p])
    ensures Rearranged(old(ids[..]), ids[..], l, r)
  {
    SwapRearranges(ids[..], x, y, l, r);
    ids[x], ids[y] := ids[y], ids[x];
  }

  /** Sorts l..ir.  The scan runs down to index 1, not to l: what stops it is
      that everything left of l is at least as large. */
  method InsertionSort(ids: array<nat>, l: nat, ir: int, ghost n: nat)
    requires 1 <= l && l <= ir + 1 && ir <= n < ids.Length
    requires Cut(ids[..], l, n)
    modifies ids
    ensures Rearranged(old(ids[..]), ids[..], l, ir)
    ensures forall i, j :: l <= i < j <= ir ==> ids[i] >= ids[j]
  {
    var j := l + 1;
    while j <= ir
      invariant l < j && (j <= ir + 1 || j == l + 1)
      invariant Rearranged(old(ids[..]), ids[..], l, ir)
      invariant Cut(ids[..], l, n)
      invariant forall p, q :: l <= p < q < j && q <= ir ==> ids[p] >= ids[q]
    {
      ghost var before := ids[..];
      InsertOne(ids, l, j, ir, n);
      RearrangedTrans(old(ids[..]), before, ids[..], l, ir);
      CutKept(before, ids[..], l, ir, l, n);
      j := j + 1;
    }
  }

  method InsertOne(ids: array<nat>, l: nat, j: nat, ir: nat, ghost n: nat)
    requires 1 <= l < j <= ir <= n < ids.Length
    requires Cut(ids[..], l, n)
    requires forall p, q :: l <= p < q < j ==> ids[p] >= ids[q]
    modifies ids
    ensures Rearranged(old(ids[..]), ids[..], l, ir)
    ensures forall p, q :: l <= p < q <= j ==> ids[p] >= ids[q]
  {
    ghost var s := ids[..];
    var h := Shift(ids, l, j, n);
    MoveDownRearranges(s, h, j, l, ir);
    MoveDownSorts(s, h, j, l);
    assert forall p :: 0 <= p < ids.Length ==> ids[p] == ids[..][p];
  }

  /** The inner loop: ids[j] moves down past every smaller ID to position h. */
  method Shift(ids: array<nat>, l: nat, j: nat, ghost n: nat) returns (h: nat)
    requires 1 <= l < j <= n < ids.Length
    requires Cut(ids[..], l, n)
    modifies ids
    ensures l <= h <= j && ids[..] == MoveDown(old(ids[..]), h, j)
    ensures forall p :: h <= p < j ==> old(ids[..])[p] < old(ids[..])[j]
    ensures h > l ==> old(ids[..])[h - 1] >= old(ids[..])[j]
  {
    hide MoveDown;
    ghost var s := ids[..];
    var a := ids[j];
    var i: int := j - 1;
    assert l > 1 ==> s[l - 1] >= s[j];
    while i >= 1
      invariant l - 1 <= i < j
      invariant forall p :: 0 <= p < ids.Length && !(i + 1 < p <= j) ==> ids[p] == s[p]
      invariant forall p :: i + 1 < p <= j ==> ids[p] == s[p - 1]
      invariant forall p :: i < p < j ==> s[p] < a
    {
      if ids[i] >= a {
        break;
      }
      assert i >= l;
      ids[i + 1] := ids[i];
      i := i - 1;
    }
    ids[i + 1] := a;
    h := i + 1;
    MoveDownPointwise(s, ids[..], h, j);
  }

  lemma MoveDownSorts(s: seq<nat>, h: nat, j: nat, l: nat)
    requires l <= h <= j < |s| && (h > l ==> s[h - 1] >= s[j])
    requires forall p, q :: l <= p < q < j ==> s[p] >= s[q]
    requires forall p :: h <= p < j ==> s[p] < s[j]
    ensures var t := MoveDown(s, h, j); forall p, q :: l <= p < q <= j ==> t[p] >= t[q]
  {
    var t := MoveDown(s, h, j);
    assert forall p :: 0 <= p < h ==> t[p] == s[p];
    assert t[h] == s[j];
    assert forall p :: h < p <= j ==> t[p] == s[p - 1];
  }

  /** Median of three, then the partition scans; both scans run into a
      sentinel put there by the median step. */
  method Partition(ids: array<nat>, l: nat, ir: nat) returns (i: nat, j: nat)
    requires 1 <= l && l + SMALL <= ir < ids.Length
    modifies ids
    ensures Rearranged(old(ids[..]), ids[..], l, ir)
    ensures l < j < i <= ir
    ensures forall p :: l <= p < j ==> ids[p] >= ids[j]
    ensures forall p :: j <= p < i ==> ids[p] == ids[j]
    ensures forall p :: i <= p <= ir ==> ids[p] <= ids[j]
  {
    MedianOfThree(ids, l, ir);
    ghost var s0 := ids[..];
    i, j := Sweep(ids, l, ir);
    ghost var s1 := ids[..];
    Swap(ids, l + 1, j, l, ir);
    RearrangedTrans(s0, s1, ids[..], l, ir);
    RearrangedTrans(old(ids[..]), s0, ids[..], l, ir);
  }

  /** Everything up to i is at least a, everything from j on at most a. */
  ghost predicate Sides(s: seq<nat>, l: nat, i: nat, j: nat, ir: nat, a: nat)
    requires ir < |s|
  {
    && (forall p :: l <= p <= i && p <= ir ==> s[p] >= a)
    && (forall p :: j <= p <= ir ==> s[p] <= a)
  }

  lemma SidesSwapped(s: seq<nat>, t: seq<nat>, l: nat, i: nat, j: nat, ir: nat, a: nat)
    requires l < i <= j <= ir < |s| == |t| && Sides(s, l, i - 1, j + 1, ir, a) && s[i] <= a <= s[j]
    requires t[i] == s[j] && t[j] == s[i] && forall p :: 0 <= p < |s| && p != i && p != j ==> t[p] == s[p]
    ensures Sides(t, l, i, j, ir, a)
  {
  }

  method Sweep(ids: array<nat>, l: nat, ir: nat) returns (i: nat, j: nat)
    requires 1 <= l && l + SMALL <= ir < ids.Length
    requires ids[l] >= ids[l + 1] >= ids[ir]
    modifies ids
    ensures Rearranged(old(ids[..]), ids[..], l, ir)
    ensures l < j < i <= ir && ids[l + 1] == old(ids[l + 1])
    ensures ids[j] >= ids[l + 1] && Sides(ids[..], l, i - 1, j + 1, ir, ids[l + 1])
  {
    hide Rearranged;
    i, j := l + 1, ir;
    var a := ids[l + 1];
    RearrangedSame(ids[..], l, ir);
    while true
      invariant (i == l + 1 && j == ir) || l + 2 <= i <= j < ir
      invariant Rearranged(old(ids[..]), ids[..], l, ir)
      invariant ids[l + 1] == a
      invariant Sides(ids[..], l, i, j, ir, a)
      decreases j - i
    {
      ghost var hi, lo := if j <= i then i + 1 else j, if i >= j then j - 1 else i;
      assert ids[..][hi] <= a && ids[..][lo] >= a;
      i := ScanUp(ids, i, hi, a);
      j := ScanDown(ids, j, lo, a);
      if j < i {
        break;
      }
      ghost var before := ids[..];
      assert Sides(before, l, i - 1, j + 1, ir, a);
      Swap(ids, i, j, l, ir);
      SidesSwapped(before, ids[..], l, i, j, ir, a);
      RearrangedTrans(old(ids[..]), before, ids[..], l, ir);
    }
  }

  /** do i++; while (ids[i] > a), stopping at hi at the latest. */
  method ScanUp(ids: array<nat>, i0: nat, ghost hi: nat, a: nat) returns (i: nat)
    requires i0 < hi < ids.Length && ids[hi] <= a
    ensures i0 < i <= hi && ids[i] <= a
    ensures forall p :: i0 < p < i ==> ids[p] > a
  {
    i := i0 + 1;
    while ids[i] > a
      invariant i0 < i <= hi
      invariant forall p :: i0 < p < i ==> ids[p] > a
      decreases hi - i
    {
      i := i + 1;
    }
  }

  /** do j--; while (ids[j] < a), stopping at lo at the latest. */
  method ScanDown(ids: array<nat>, j0: nat, ghost lo: nat, a: nat) returns (j: nat)
    requires lo < j0 <= ids.Length && ids[lo] >= a
    ensures lo <= j < j0 && ids[j] >= a
    ensures forall p :: j < p < j0 ==> ids[p] < a
  {
    j := j0 - 1;
    while ids[j] < a
      invariant lo <= j < j0
      invariant forall p :: j < p < j0 ==> ids[p] < a
      decreases j
    {
      j := j - 1;
    }
  }

  method MedianOfThree(ids: array<nat>, l: nat, ir: nat)
    requires 1 <= l && l + SMALL <= ir < ids.Length
    modifies ids
    ensures Rearranged(old(ids[..]), ids[..], l, ir)
    ensures ids[l] >= ids[l + 1] >= ids[ir]
  {
    ghost var s0 := ids[..];
    Swap(ids, (l + ir) / 2, l + 1, l, ir);
    ghost var s1 := ids[..];
    if ids[l] < ids[ir] {
      Swap(ids, l, ir, l, ir);
      RearrangedTrans(s0, s1, ids[..], l, ir);
    }
    ghost var s2 := ids[..];
    if ids[l + 1] < ids[ir] {
      Swap(ids, l + 1, ir, l, ir);
      RearrangedTrans(s0, s2, ids[..], l, ir);
    }
    ghost var s3 := ids[..];
    if ids[l] < ids[l + 1] {
      Swap(ids, l, l + 1, l, ir);
      RearrangedTrans(s0, s3, ids[..], l, ir);
    }
  }

  /** A range l..r of indices still to be sorted. */
  datatype Range = Range(l: int, r: int)

  ghost predicate Apart(x: Range, y: Range) { x.r < y.l || y.r < x.l }

  ghost predicate InRange(x: Range, n: nat) { 1 <= x.l <= x.r + 1 <= n + 1 }

  ghost predicate Strictly(x: Range, p: int) { x.l < p <= x.r }

  /** Outside the pending ranges the list is already split into descending
      blocks: every cut not strictly inside a pending range holds. */
  ghost predicate Pending(s: seq<nat>, rs: seq<Range>, n: nat) {
    && n < |s|
    && (forall d :: 0 <= d < |rs| ==> InRange(rs[d], n) && Cut(s, rs[d].l, n) && Cut(s, rs[d].r + 1, n))
    && (forall c, d :: 0 <= c < d < |rs| ==> Apart(rs[c], rs[d]))
    && (forall p :: 2 <= p <= n ==> Cut(s, p, n) || exists d :: 0 <= d < |rs| && Strictly(rs[d], p))
  }

  /** Rearranging one pending range leaves the cuts of the others alone. */
  lemma OthersKept(s: seq<nat>, t: seq<nat>, rs: seq<Range>, x: Range, n: nat)
    requires Pending(s, rs + [x], n) && Rearranged(s, t, x.l, x.r)
    ensures forall d :: 0 <= d < |rs| ==>
              InRange(rs[d], n) && Apart(rs[d], x) && Cut(t, rs[d].l, n) && Cut(t, rs[d].r + 1, n)
    ensures Cut(t, x.l, n) && Cut(t, x.r + 1, n)
    ensures forall p :: 2 <= p <= n && !Strictly(x, p) ==> Cut(t, p, n) || exists d ::
              0 <= d < |rs| && Strictly(rs[d], p)
  {
    var all := rs + [x];
    assert all[|rs|] == x;
    CutKept(s, t, x.l, x.r, x.l, n);
    CutKept(s, t, x.l, x.r, x.r + 1, n);
    forall d | 0 <= d < |rs|
      ensures InRange(rs[d], n) && Apart(rs[d], x) && Cut(t, rs[d].l, n) && Cut(t, rs[d].r + 1, n)
    {
      assert all[d] == rs[d] && Apart(all[d], all[|rs|]);
      CutKept(s, t, x.l, x.r, rs[d].l, n);
      CutKept(s, t, x.l, x.r, rs[d].r + 1, n);
    }
    forall p | 2 <= p <= n && !Strictly(x, p)
      ensures Cut(t, p, n) || exists d :: 0 <= d < |rs| && Strictly(rs[d], p)
    {
      if Cut(s, p, n) {
        CutKept(s, t, x.l, x.r, p, n);
      } else {
        var d :| 0 <= d < |all| && Strictly(all[d], p);
        assert all[d] == rs[d];
      }
    }
  }

  lemma CutInside(t: seq<nat>, x: Range, n: nat, p: int)
    requires n < |t| && InRange(x, n) && Cut(t, x.l, n) && Cut(t, x.r + 1, n) && Strictly(x, p)
    requires forall i, j :: x.l <= i < p <= j <= x.r ==> t[i] >= t[j]
    ensures Cut(t, p, n)
  {
  }

  /** A sorted range is finished. */
  lemma FinishRange(s: seq<nat>, t: seq<nat>, rs: seq<Range>, x: Range, n: nat)
    requires Pending(s, rs + [x], n) && Rearranged(s, t, x.l, x.r)
    requires forall i, j :: x.l <= i < j <= x.r ==> t[i] >= t[j]
    ensures Pending(t, rs, n)
  {
    OthersKept(s, t, rs, x, n);
    var all := rs + [x];
    forall c, d | 0 <= c < d < |rs| ensures Apart(rs[c], rs[d]) {
      assert all[c] == rs[c] && all[d] == rs[d];
    }
    assert InRange(all[|rs|], n);
    forall p | 2 <= p <= n ensures Cut(t, p, n) || exists d :: 0 <= d < |rs| && Strictly(rs[d], p) {
      if Strictly(x, p) { CutInside(t, x, n, p); }
    }
  }

  /** A partitioned range is replaced by its two parts, in either order. */
  lemma SplitRange(s: seq<nat>, t: seq<nat>, rs: seq<Range>, x: Range, n: nat, i: int, j: int, y: Range, z: Range)
    requires Pending(s, rs + [x], n) && Rearranged(s, t, x.l, x.r)
    requires x.l < j < i <= x.r
    requires forall p :: x.l <= p < j ==> t[p] >= t[j]
    requires forall p :: j <= p < i ==> t[p] == t[j]
    requires forall p :: i <= p <= x.r ==> t[p] <= t[j]
    requires (y == Range(x.l, j - 1) && z == Range(i, x.r)) || (z == Range(x.l, j - 1) && y == Range(i, x.r))
    ensures Pending(t, rs + [y] + [z], n)
  {
    hide Cut;
    OthersKept(s, t, rs, x, n);
    var all, new_ := rs + [x], rs + [y] + [z];
    assert InRange(all[|rs|], n);
    forall p | j <= p <= i ensures Cut(t, p, n) {
      CutInside(t, x, n, p);
    }
    forall d | 0 <= d < |new_|
      ensures InRange(new_[d], n) && Cut(t, new_[d].l, n) && Cut(t, new_[d].r + 1, n)
    {
      if d < |rs| { assert new_[d] == rs[d]; }
    }
    forall c, d | 0 <= c < d < |new_| ensures Apart(new_[c], new_[d]) {
      if d < |rs| { assert all[c] == rs[c] && all[d] == rs[d]; }
      else if c < |rs| { assert new_[c] == rs[c] && Apart(rs[c], x); }
    }
    forall p | 2 <= p <= n ensures Cut(t, p, n) || exists d :: 0 <= d < |new_| && Strictly(new_[d], p) {
      if Strictly(x, p) {
        assert j <= p <= i || Strictly(new_[|rs|], p) || Strictly(new_[|rs| + 1], p);
      } else if !Cut(t, p, n) {
        var d :| 0 <= d < |rs| && Strictly(rs[d], p);
        assert new_[d] == rs[d];
      }
    }
  }

  function Pow2(d: nat): nat { if d == 0 then 1 else 2 * Pow2(d - 1) }

  lemma {:induction false} Pow2Grows(c: nat, d: nat)
    requires c <= d
    ensures Pow2(c) <= Pow2(d)
    decreases d
  {
    if c < d { Pow2Grows(c, d - 1); }
  }

  /** The k-th pending range has been halved k times: pushing the larger part
      and going on with the smaller one keeps the stack logarithmic. */
  ghost predicate Halved(rs: seq<Range>, n: nat) {
    forall d :: 0 <= d < |rs| ==> Fits(rs[d], Pow2(d), n) && InRange(rs[d], n)
  }

  ghost predicate Fits(x: Range, times: nat, n: nat) { (x.r - x.l + 1) * times <= n }

  lemma HalfFits(x: Range, y: Range, times: nat, n: nat)
    requires Fits(x, times, n) && y.l <= y.r + 1 && 2 * (y.r - y.l + 1) <= x.r - x.l + 1
    ensures Fits(y, 2 * times, n)
  {
    var small, big := y.r - y.l + 1, x.r - x.l + 1;
    assert small * (2 * times) == (2 * small) * times;
    MulMonotone(2 * small, big, times);
  }

  lemma MulMonotone(x: int, y: int, k: nat)
    requires x <= y
    ensures x * k <= y * k
  {
  }

  lemma Pow2At27()
    ensures Pow2(27) == 0x800_0000
  {
    assert Pow2(9) == 512;
    assert Pow2(18) == 0x4_0000;
  }

  lemma Pow2Small(d: nat)
    requires Pow2(d) < 0x800_0000
    ensures d <= 26
  {
    if d > 26 {
      Pow2At27();
      Pow2Grows(27, d);
    }
  }

  lemma DepthBound(x: Range, d: nat, n: nat)
    requires Fits(x, Pow2(d), n) && x.r - x.l >= SMALL && n < 0x4000_0000
    ensures d <= 26
  {
    MulMonotone(9, x.r - x.l + 1, Pow2(d));
    Pow2Small(d);
  }

  function Weight(rs: seq<Range>): nat {
    if |rs| == 0 then 0
    else Weight(rs[..|rs| - 1]) + (var x := rs[|rs| - 1]; if x.r >= x.l then 2 * (x.r - x.l + 1) + 1 else 1)
  }

  lemma WeightPush(rs: seq<Range>, x: Range)
    ensures Weight(rs + [x]) == Weight(rs) + if x.r >= x.l then 2 * (x.r - x.l + 1) + 1 else 1
  {
    assert (rs + [x])[..|rs|] == rs;
  }

  ghost predicate SortState(s0: seq<nat>, s: seq<nat>, rs: seq<Range>, n: nat) {
    n < |s0| && Pending(s, rs, n) && Halved(rs, n) && Rearranged(s0, s, 1, n)
  }

  lemma SortStart(s: seq<nat>, n: nat)
    requires n < |s|
    ensures SortState(s, s, [Range(1, n)], n)
  {
    assert forall p :: 2 <= p <= n ==> Strictly([Range(1, n)][0], p);
  }

  lemma CurrentRange(s0: seq<nat>, s: seq<nat>, rs: seq<Range>, x: Range, n: nat)
    requires SortState(s0, s, rs + [x], n)
    ensures n < |s| && InRange(x, n) && Cut(s, x.l, n) && Fits(x, Pow2(|rs|), n)
  {
    assert (rs + [x])[|rs|] == x;
  }

  lemma SortFinish(s0: seq<nat>, s: seq<nat>, t: seq<nat>, rs: seq<Range>, x: Range, n: nat)
    requires SortState(s0, s, rs + [x], n) && Rearranged(s, t, x.l, x.r)
    requires forall i, j :: x.l <= i < j <= x.r ==> t[i] >= t[j]
    ensures SortState(s0, t, rs, n) && Weight(rs) < Weight(rs + [x])
  {
    assert (rs + [x])[|rs|] == x;
    FinishRange(s, t, rs, x, n);
    HalvedPrefix(rs, x, n);
    RearrangedWiden(s, t, x.l, x.r, 1, n);
    RearrangedTrans(s0, s, t, 1, n);
    WeightPush(rs, x);
  }

  lemma SortSplit(s0: seq<nat>, s: seq<nat>, t: seq<nat>, rs: seq<Range>, x: Range, n: nat, i: int, j: int, big: Range,
                  small: Range)
    requires SortState(s0, s, rs + [x], n) && Rearranged(s, t, x.l, x.r)
    requires x.l < j < i <= x.r
    requires forall p :: x.l <= p < j ==> t[p] >= t[j]
    requires forall p :: j <= p < i ==> t[p] == t[j]
    requires forall p :: i <= p <= x.r ==> t[p] <= t[j]
    requires (big == Range(x.l, j - 1) && small == Range(i, x.r))
             || (small == Range(x.l, j - 1) && big == Range(i, x.r))
    requires small.r - small.l <= big.r - big.l
    ensures SortState(s0, t, rs + [big] + [small], n)
    ensures Weight(rs + [big] + [small]) < Weight(rs + [x])
  {
    assert (rs + [x])[|rs|] == x;
    SplitRange(s, t, rs, x, n, i, j, big, small);
    HalvedSplit(rs, x, big, small, n);
    RearrangedWiden(s, t, x.l, x.r, 1, n);
    RearrangedTrans(s0, s, t, 1, n);
    WeightPush(rs, x);
    WeightPush(rs, big);
    WeightPush(rs + [big], small);
  }

  lemma SortEnd(s0: seq<nat>, s: seq<nat>, n: nat)
    requires SortState(s0, s, [], n) && n == s0[0]
    ensures s[0] == n && Desc(List(s, 0)) && multiset(List(s, 0)) == multiset(List(s0, 0)) && s[n + 1..] == s0[n + 1..]
  {
    CutsSort(s, n);
  }

  /** istack holds the pending ranges, two slots each, from slot 1 up. */
  ghost predicate Stacked(istack: array<nat>, rs: seq<Range>)
    reads istack
  {
    && 2 * |rs| < istack.Length == STACK_SIZE
    && forall d :: 0 <= d < |rs| ==> istack[2 * d + 1] == rs[d].l && istack[2 * d + 2] == rs[d].r
  }

  /** Partitions the current range, pushes the larger part, keeps the smaller. */
  method Divide(ids: array<nat>, istack: array<nat>, l0: nat, ir0: nat, j0: nat, ghost s0: seq<nat>,
                ghost rs0: seq<Range>, ghost n: nat) returns (l: int, ir: int, jstack: nat, ghost rs: seq<Range>)
    requires ids != istack && Stacked(istack, rs0) && j0 == 2 * |rs0| && n < 0x4000_0000
    requires SortState(s0, ids[..], rs0 + [Range(l0, ir0)], n) && ir0 - l0 >= SMALL
    modifies ids, istack
    ensures Stacked(istack, rs) && jstack == 2 * |rs| <= 54
    ensures SortState(s0, ids[..], rs + [Range(l, ir)], n)
    ensures Weight(rs + [Range(l, ir)]) < Weight(rs0 + [Range(l0, ir0)])
  {
    hide SortState, Weight, Fits, Cut, Rearranged;
    ghost var x, s := Range(l0, ir0), ids[..];
    CurrentRange(s0, s, rs0, x, n);
    DepthBound(x, |rs0|, n);
    var i, j := Partition(ids, l0, ir0);
    ghost var t := ids[..];
    jstack := j0 + 2;
    if ir0 - i + 1 >= j - l0 {
      SortSplit(s0, s, t, rs0, x, n, i, j, Range(i, ir0), Range(l0, j - 1));
      istack[jstack], istack[jstack - 1] := ir0, i;
      rs, l, ir := rs0 + [Range(i, ir0)], l0, j - 1;
    } else {
      SortSplit(s0, s, t, rs0, x, n, i, j, Range(l0, j - 1), Range(i, ir0));
      istack[jstack], istack[jstack - 1] := j - 1, l0;
      rs, l, ir := rs0 + [Range(l0, j - 1)], i, ir0;
    }
    assert ids[..] == t;
  }

  /** Sorts the list in descending order.  The stack never holds more than 54
      of its 64 slots, no access leaves the list, and the loop terminates. */
  method Sort(ids: array<nat>)
    requires 0 < ids.Length && ids[0] < ids.Length && ids[0] < 0x4000_0000
    modifies ids
    ensures ids[0] == old(ids[0])
    ensures Desc(List(ids[..], 0)) && multiset(List(ids[..], 0)) == multiset(old(List(ids[..], 0)))
    ensures ids[ids[0] + 1..] == old(ids[ids[0] + 1..])
  {
    hide SortState, Weight, Cut, Rearranged, Fits;
    var istack := new nat[STACK_SIZE];
    ghost var n, s0 := ids[0], ids[..];
    var ir: int, l: int, jstack := ids[0], 1, 0;
    ghost var rs: seq<Range> := [];
    SortStart(s0, n);
    assert rs + [Range(l, ir)] == [Range(1, n)];
    while true
      invariant jstack == 2 * |rs| && Stacked(istack, rs)
      invariant SortState(s0, ids[..], rs + [Range(l, ir)], n)
      decreases Weight(rs + [Range(l, ir)])
    {
      ghost var x, s := Range(l, ir), ids[..];
      CurrentRange(s0, s, rs, x, n);
      if ir - l < SMALL {
        InsertionSort(ids, l, ir, n);
        SortFinish(s0, s, ids[..], rs, x, n);
        if jstack == 0 {
          break;
        }
        ghost var d := |rs| - 1;
        assert jstack == 2 * d + 2;
        ir := istack[jstack];
        l := istack[jstack - 1];
        jstack := jstack - 2;
        assert rs == rs[..d] + [Range(l, ir)];
        rs := rs[..d];
      } else {
        l, ir, jstack, rs := Divide(ids, istack, l, ir, jstack, s0, rs, n);
      }
    }
    assert rs == [];
    SortEnd(s0, ids[..], n);
  }

  lemma HalvedPrefix(rs: seq<Range>, x: Range, n: nat)
    requires Halved(rs + [x], n)
    ensures Halved(rs, n)
  {
    forall d | 0 <= d < |rs| ensures Fits(rs[d], Pow2(d), n) && InRange(rs[d], n) {
      assert (rs + [x])[d] == rs[d];
    }
  }

  lemma HalvedSplit(rs: seq<Range>, x: Range, big: Range, small: Range, n: nat)
    requires Halved(rs + [x], n) && InRange(big, n) && InRange(small, n)
    requires big.r - big.l + 1 <= x.r - x.l + 1 && 2 * (small.r - small.l + 1) <= x.r - x.l + 1
    ensures Halved(rs + [big] + [small], n)
  {
    var all, new_ := rs + [x], rs + [big] + [small];
    assert all[|rs|] == x;
    forall d | 0 <= d < |new_| ensures Fits(new_[d], Pow2(d), n) && InRange(new_[d], n) {
      if d < |rs| { assert all[d] == rs[d] == new_[d]; }
      else if d == |rs| { MulMonotone(big.r - big.l + 1, x.r - x.l + 1, Pow2(d)); }
      else { HalfFits(x, small, Pow2(|rs|), n); }
    }
  }
}
