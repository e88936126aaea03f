/** The ID list algorithms of midl.c, in place on arrays. */
module Midl {
  import opened IdSequences

  /** (MDB_ID)-1, the largest ID, used as a sentinel. */
  const MAX_ID: nat := 0xFFFF_FFFF_FFFF_FFFF

  /** Binary search in a descending list: the first position whose ID is not
      greater than id. */
  method Search(ids: array<nat>, id: nat) returns (cursor: nat)
    requires Valid(ids) && StrictDesc(List(ids[..], 0))
    ensures 1 <= cursor <= ids[0] + 1
    ensures forall i :: 1 <= i < cursor ==> ids[i] > id
    ensures forall i :: cursor <= i <= ids[0] ==> ids[i] <= id
  {
    var base, n, greater := 0, ids[0], false;
    cursor := 1;
    ghost var l := List(ids[..], 0);
    assert forall i, j :: 1 <= i < j <= ids[0] ==> ids[i] > ids[j] by {
      assert forall i :: 1 <= i <= ids[0] ==> ids[i] == l[i - 1];
    }
    while 0 < n
      invariant 0 <= base && base + n <= ids[0]
      invariant forall i :: 1 <= i <= base ==> ids[i] > id
      invariant forall i :: base + n < i <= ids[0] ==> ids[i] < id
      invariant greater ==> cursor == base
      invariant !greater ==> cursor == base + n + 1 || (base == 0 && cursor == 1 && n == ids[0])
      decreases n
    {
      var pivot := n / 2;
      cursor := base + pivot + 1;
      if ids[cursor] < id {
        greater := false;
        n := pivot;
      } else if ids[cursor] > id {
        greater := true;
        base := cursor;
        n := n - (pivot + 1);
      } else {
        return;
      }
    }
    if greater {
      cursor := cursor + 1;
    }
  }

  /** Merges the list at merge[m] into idl, backwards and in place.  The merged
      list may lie in the unused tail of idl itself, as in mdb_freelist_save,
      provided the result does not reach it. */
  method Xmerge(idl: array<nat>, merge: array<nat>, m: nat)
    requires Valid(idl) && m < merge.Length && m + merge[m] < merge.Length
    requires idl[0] + merge[m] < idl.Length
    requires idl == merge ==> idl[0] + merge[m] < m
    requires Desc(List(idl[..], 0)) && Desc(List(merge[..], m))
    requires forall i :: 0 <= i < idl.Length ==> idl[i] <= MAX_ID
    requires forall i :: 0 <= i < merge.Length ==> merge[i] <= MAX_ID
    modifies idl
    ensures idl[0] == old(idl[0] + merge[m])
    ensures Desc(List(idl[..], 0))
    ensures multiset(List(idl[..], 0)) == multiset(old(List(idl[..], 0))) + multiset(old(List(merge[..], m)))
    ensures idl[idl[0] + 1..] == old(idl[idl[0] + merge[m] + 1..])
  {
    hide MergeState, Desc;
    ghost var a, b := List(idl[..], 0), List(merge[..], m);
    var i, j := merge[m], idl[0];
    var k, total := i + j, i + j;
    ghost var tail := idl[total + 1..];
    MergeStart(idl[..], a, b);
    idl[0] := MAX_ID;
    ghost var done: seq<nat> := [];
    while 0 < i
      invariant 0 <= i <= |b| && 0 <= j <= |a| && k == i + j
      invariant MergeState(idl[..], a, b, i, j, total, done)
      invariant idl[total + 1..] == tail
      invariant if idl == merge then merge[total + 1..] == old(merge[..])[total + 1..] && total < m
                else merge[..] == old(merge[..])
    {
      Bounds(idl[..], a, b, i, j, total, done);
      var merge_id := merge[m + i];
      NextMerged(merge[..], old(merge[..]), m, i, total);
      k, j, done := Place(idl, merge_id, k, j, a, b, i, total, done);
      i := i - 1;
      Bounds(idl[..], a, b, i, j, total, done);
    }
    MergeEnd(idl[..], a, b, j, total, done);
    idl[0] := total;
  }

  /** The list being merged is still what it was. */
  lemma NextMerged(s: seq<nat>, s0: seq<nat>, m: nat, i: nat, total: nat)
    requires |s| == |s0| && m < |s0| && m + s0[m] < |s0| && 0 < i <= s0[m]
    requires s == s0 || (total < m && s[total + 1..] == s0[total + 1..])
    ensures s[m + i] == List(s0, m)[i - 1]
  {
    if s != s0 { assert s[m + i] == s[total + 1..][m + i - (total + 1)]; }
  }

  lemma MergeStart(s: seq<nat>, a: seq<nat>, b: seq<nat>)
    requires 0 < |s| && s[0] + |b| < |s| && a == List(s, 0) && Desc(a) && Desc(b)
    requires forall x :: 0 <= x < |b| ==> b[x] <= MAX_ID
    ensures MergeState(s[0 := MAX_ID], a, b, |b|, |a|, |a| + |b|, [])
  {
    assert s[0 := MAX_ID][1..|a| + 1] == a;
  }

  lemma MergeEnd(s: seq<nat>, a: seq<nat>, b: seq<nat>, j: nat, total: nat, done: seq<nat>)
    requires MergeState(s, a, b, 0, j, total, done)
    ensures var c := List(s[0 := total], 0);
            Desc(c) && multiset(c) == multiset(a) + multiset(b)
  {
    assert List(s[0 := total], 0) == s[1..j + 1] + done;
    assert a == a[..j] + a[j..];
    assert b[0..] == b;
  }

  /** One round of Xmerge: moves up every ID smaller than merge_id, stopping at
      the sentinel at the latest, and puts merge_id below them. */
  method Place(idl: array<nat>, merge_id: nat, k0: nat, j0: nat, ghost a: seq<nat>, ghost b: seq<nat>,
               ghost i: nat, ghost total: nat, ghost done0: seq<nat>)
    returns (k: nat, j: nat, ghost done: seq<nat>)
    requires MergeState(idl[..], a, b, i, j0, total, done0)
    requires 0 < i && k0 == i + j0 && merge_id == b[i - 1]
    modifies idl
    ensures MergeState(idl[..], a, b, i - 1, j, total, done)
    ensures k == i - 1 + j
    ensures idl[total + 1..] == old(idl[total + 1..])
  {
    hide MergeState, Desc;
    k, j, done := k0, j0, done0;
    Bounds(idl[..], a, b, i, j, total, done);
    var old_id := idl[j];
    while old_id < merge_id
      invariant 0 <= j <= |a| && k == i + j
      invariant MergeState(idl[..], a, b, i, j, total, done)
      invariant idl[total + 1..] == old(idl[total + 1..])
      invariant old_id == idl[j]
      decreases j
    {
      ghost var before := idl[..];
      idl[k] := old_id;
      MergeOld(before, idl[..], a, b, i, j, total, done);
      done := [a[j - 1]] + done;
      k := k - 1;
      j := j - 1;
      Bounds(idl[..], a, b, i, j, total, done);
      old_id := idl[j];
    }
    ghost var before := idl[..];
    idl[k] := merge_id;
    MergeNew(before, idl[..], a, b, i, j, total, done);
    done := [merge_id] + done;
    k := k - 1;
  }

  /** The loop state of Xmerge: done is the finished tail, i and j elements of
      the two lists are still to be placed, and the sentinel is up. */
  ghost predicate MergeState(s: seq<nat>, a: seq<nat>, b: seq<nat>, i: nat, j: nat, total: nat, done: seq<nat>) {
    && i <= |b| && j <= |a| && total == |a| + |b| < |s|
    && s[0] == MAX_ID
    && s[1..j + 1] == a[..j]
    && s[i + j + 1..total + 1] == done
    && multiset(done) == multiset(a[j..]) + multiset(b[i..])
    && Desc(a) && Desc(b) && Tail(a[..j], b[..i], done)
    && (forall x :: 0 <= x < |b| ==> b[x] <= MAX_ID)
  }

  lemma Bounds(s: seq<nat>, a: seq<nat>, b: seq<nat>, i: nat, j: nat, total: nat, done: seq<nat>)
    requires MergeState(s, a, b, i, j, total, done)
    ensures i <= |b| && j <= |a| && |a| + |b| == total < |s|
  {
  }

  lemma DescPart(a: seq<nat>, j: nat)
    requires Desc(a) && 0 < j <= |a|
    ensures Desc(a[..j]) && forall x :: 0 <= x < j ==> a[x] >= a[j - 1]
  {
  }

  /** done is in order and above nothing that is still to come. */
  ghost predicate Tail(a: seq<nat>, b: seq<nat>, done: seq<nat>) {
    && Desc(done)
    && (forall x, y :: 0 <= x < |a| && 0 <= y < |done| ==> a[x] >= done[y])
    && (forall x, y :: 0 <= x < |b| && 0 <= y < |done| ==> b[x] >= done[y])
  }

  /** The last of a comes next when no later one of b is smaller. */
  lemma TailMore(a: seq<nat>, b: seq<nat>, done: seq<nat>)
    requires Tail(a, b, done) && Desc(a) && |a| > 0 && forall x :: 0 <= x < |b| ==> b[x] >= a[|a| - 1]
    ensures Tail(a[..|a| - 1], b, [a[|a| - 1]] + done)
  {
    var d := [a[|a| - 1]] + done;
    forall x, y | 0 <= x < y < |d| ensures d[x] >= d[y] { assert d[y] == done[y - 1]; }
  }

  lemma CountsMore(done: seq<nat>, x: seq<nat>, y: seq<nat>, v: nat)
    requires multiset(done) == multiset(x) + multiset(y)
    ensures multiset([v] + done) == multiset([v] + x) + multiset(y) == multiset(x) + multiset([v] + y)
  {
  }

  lemma TailSwap(a: seq<nat>, b: seq<nat>, done: seq<nat>)
    ensures Tail(a, b, done) == Tail(b, a, done)
  {
  }

  /** Where the next ID goes: below the finished tail. */
  lemma Placed(s: seq<nat>, k: nat, j: nat, total: nat, v: nat)
    requires 0 < k <= total < |s| && j < k
    ensures var t := s[k := v];
            t[0] == s[0] && t[k..total + 1] == [v] + s[k + 1..total + 1] && t[1..j + 1] == s[1..j + 1]
  {
  }

  lemma MergeOld(s: seq<nat>, t: seq<nat>, a: seq<nat>, b: seq<nat>, i: nat, j: nat, total: nat, done: seq<nat>)
    requires MergeState(s, a, b, i, j, total, done) && 0 < i && s[j] < b[i - 1]
    requires t == s[i + j := s[j]]
    ensures j > 0 && s[j] == a[j - 1]
    ensures MergeState(t, a, b, i, j - 1, total, [a[j - 1]] + done)
  {
    hide Tail, Desc;
    assert j > 0;
    assert s[j] == s[1..j + 1][j - 1];
    Placed(s, i + j, j - 1, total, s[j]);
    assert t[1..j] == a[..j - 1] by { assert s[1..j] == s[1..j + 1][..j - 1] && a[..j - 1] == a[..j][..j - 1]; }
    assert a[j - 1..] == [a[j - 1]] + a[j..];
    CountsMore(done, a[j..], b[i..], a[j - 1]);
    DescPart(a, j);
    DescPart(b, i);
    TailMore(a[..j], b[..i], done);
    assert a[..j][..j - 1] == a[..j - 1];
  }

  lemma MergeNew(s: seq<nat>, t: seq<nat>, a: seq<nat>, b: seq<nat>, i: nat, j: nat, total: nat, done: seq<nat>)
    requires MergeState(s, a, b, i, j, total, done) && 0 < i && s[j] >= b[i - 1]
    requires t == s[i + j := b[i - 1]]
    ensures MergeState(t, a, b, i - 1, j, total, [b[i - 1]] + done)
  {
    hide Tail, Desc;
    Placed(s, i + j, j, total, b[i - 1]);
    assert b[i - 1..] == [b[i - 1]] + b[i..];
    CountsMore(done, a[j..], b[i..], b[i - 1]);
    if j > 0 { assert s[j] == s[1..j + 1][j - 1]; }
    if j > 0 { DescPart(a, j); }
    DescPart(b, i);
    TailSwap(a[..j], b[..i], done);
    TailMore(b[..i], a[..j], done);
    TailSwap(b[..i][..i - 1], a[..j], [b[i - 1]] + done);
    assert b[..i][..i - 1] == b[..i - 1];
  }
}
