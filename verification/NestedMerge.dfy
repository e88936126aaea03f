/** Committing a nested transaction: merging its dirty list into its parent's
    and pruning its dirty pages from its parent's spill list. */
module NestedMerge {

  /** MDB_ID2: a page number and its in-memory page. */
  datatype Entry = Entry(mid: nat, mptr: nat)

  ghost predicate Valid(a: array<Entry>)
    reads a
  {
    0 < a.Length && a[0].mid < a.Length
  }

  /** The entries of the list in a, which holds its count in a[0].mid. */
  function Entries(a: seq<Entry>): seq<Entry>
    requires 0 < |a| && a[0].mid < |a|
  {
    a[1..a[0].mid + 1]
  }

  ghost predicate Ascending(s: seq<Entry>) { forall i, j :: 0 <= i < j < |s| ==> s[i].mid < s[j].mid }

  /** Meta pages are never dirty, so 0 can serve as a sentinel. */
  ghost predicate Positive(s: seq<Entry>) { forall i :: 0 <= i < |s| ==> s[i].mid > 0 }

  function Mids(s: seq<Entry>): set<nat> { set e | e in s :: e.mid }

  /** The dirty list as a map from page number to page. */
  function Pages(s: seq<Entry>): map<nat, nat> {
    if |s| == 0 then map[] else Pages(s[..|s| - 1])[s[|s| - 1].mid := s[|s| - 1].mptr]
  }

  lemma {:induction false} PagesKeys(s: seq<Entry>)
    ensures Pages(s).Keys == Mids(s)
  {
    if |s| > 0 {
      var t, e := s[..|s| - 1], s[|s| - 1];
      PagesKeys(t);
      assert s == t + [e];
      assert Mids(s) == Mids(t) + {e.mid};
    }
  }

  lemma {:induction false} PagesPrepend(e: Entry, s: seq<Entry>)
    requires e.mid !in Mids(s)
    ensures Pages([e] + s) == Pages(s)[e.mid := e.mptr]
  {
    if |s| > 0 {
      var t := s[..|s| - 1];
      assert s == t + [s[|s| - 1]];
      assert Mids(t) <= Mids(s) && s[|s| - 1].mid in Mids(s);
      PagesPrepend(e, t);
      assert ([e] + s)[..|s|] == [e] + t;
    } else {
      assert [e] + s == [e];
      assert [e][..0] == [];
    }
  }

  lemma MidsLast(s: seq<Entry>, k: nat)
    requires Ascending(s) && 0 < k <= |s|
    ensures Mids(s[..k]) == Mids(s[..k - 1]) + {s[k - 1].mid}
    ensures s[k - 1].mid !in Mids(s[..k - 1])
  {
    assert s[..k] == s[..k - 1] + [s[k - 1]];
  }

  lemma {:induction false} MidsCount(s: seq<Entry>, k: nat)
    requires Ascending(s) && k <= |s|
    ensures |Mids(s[..k])| == k
  {
    if k > 0 {
      MidsCount(s, k - 1);
      MidsLast(s, k);
    }
  }

  /** The pages still to be placed. */
  function Left(a: seq<Entry>, b: seq<Entry>, x: nat, y: nat): set<nat>
    requires x <= |a| && y <= |b|
  {
    Mids(a[..x]) + Mids(b[..y])
  }

  lemma LeftCount(a: seq<Entry>, b: seq<Entry>, x: nat, y: nat)
    requires Ascending(a) && x <= |a| && y <= |b|
    ensures x <= |Left(a, b, x, y)|
    ensures y == 0 ==> |Left(a, b, x, y)| == x
  {
    MidsCount(a, x);
    SubsetSize(Mids(a[..x]), Left(a, b, x, y));
    if y == 0 { assert Left(a, b, x, y) == Mids(a[..x]); }
  }

  lemma SubsetSize(s: set<nat>, t: set<nat>)
    requires s <= t
    ensures |s| <= |t|
  {
    assert t == s + (t - s);
  }

  lemma NotInPrefix(b: seq<Entry>, y: nat, m: nat)
    requires Ascending(b) && y <= |b| && (y > 0 ==> b[y - 1].mid < m)
    ensures m !in Mids(b[..y])
  {
  }

  /** One fewer page left once a dst entry above every src entry is placed. */
  lemma LeftAfterDst(a: seq<Entry>, b: seq<Entry>, x: nat, y: nat)
    requires Ascending(a) && Ascending(b) && 0 < x <= |a| && y <= |b|
    requires y > 0 ==> b[y - 1].mid < a[x - 1].mid
    ensures |Left(a, b, x, y)| == |Left(a, b, x - 1, y)| + 1
  {
    hide Mids;
    MidsLast(a, x);
    NotInPrefix(b, y, a[x - 1].mid);
    assert Left(a, b, x, y) == Left(a, b, x - 1, y) + {a[x - 1].mid};
  }

  /** One fewer page left once a src entry is placed and its dst twin dropped. */
  lemma LeftAfterSrc(a: seq<Entry>, b: seq<Entry>, x: nat, y: nat, x': nat)
    requires Ascending(a) && Ascending(b) && x <= |a| && 0 < y <= |b|
    requires x > 0 ==> a[x - 1].mid <= b[y - 1].mid
    requires x' == if x > 0 && a[x - 1].mid == b[y - 1].mid then x - 1 else x
    ensures |Left(a, b, x, y)| == |Left(a, b, x', y - 1)| + 1
  {
    hide Mids;
    var m := b[y - 1].mid;
    MidsLast(b, y);
    if x > 0 { MidsLast(a, x); }
    NotInPrefix(a, x', m);
    assert Left(a, b, x, y) == Left(a, b, x', y - 1) + {m};
  }

  /** The images of the parent's pages that the child's copies replace, highest
      page first. */
  function Shadowed(a: seq<Entry>, b: seq<Entry>): seq<nat> {
    if |a| == 0 then []
    else (if a[|a| - 1].mid in Mids(b) then [a[|a| - 1].mptr] else []) + Shadowed(a[..|a| - 1], b)
  }

  lemma ShadowedStep(a: seq<Entry>, b: seq<Entry>, x: nat)
    requires 0 < x <= |a|
    ensures Shadowed(a[..x], b) == (if a[x - 1].mid in Mids(b) then [a[x - 1].mptr] else []) + Shadowed(a[..x - 1], b)
  {
    assert a[..x][..x - 1] == a[..x - 1];
  }

  /** Where things are during the backward merge: dst[1..x+1] and src[1..y+1]
      are still to be placed, done is the finished tail. */
  ghost predicate Layout(s: seq<Entry>, a: seq<Entry>, x: nat, i: nat, len: nat, done: seq<Entry>) {
    && x <= |a| && x <= i <= len < |s|
    && s[0].mid == 0
    && s[1..x + 1] == a[..x]
    && s[i + 1..len + 1] == done
  }

  ghost predicate Above(s: seq<Entry>, k: nat, t: seq<Entry>)
    requires k <= |s|
  {
    forall c, d :: 0 <= c < k && 0 <= d < |t| ==> s[c].mid < t[d].mid
  }

  /** Everything placed is above everything left. */
  ghost predicate Ordered(a: seq<Entry>, b: seq<Entry>, x: nat, y: nat, done: seq<Entry>) {
    && x <= |a| && y <= |b|
    && Ascending(a) && Ascending(b) && Positive(a) && Positive(b) && Ascending(done) && Positive(done)
    && Above(a, x, done) && Above(b, y, done) && Above(a, x, b[y..]) && Above(b, y, a[x..])
  }

  /** The gap below the finished tail is exactly as wide as what is left. */
  ghost predicate Merging(s: seq<Entry>, a: seq<Entry>, b: seq<Entry>, x: nat, y: nat, i: nat, len: nat,
                          done: seq<Entry>) {
    && Layout(s, a, x, i, len, done)
    && Ordered(a, b, x, y, done)
    && i == |Left(a, b, x, y)|
    && Pages(done) == Pages(a[x..]) + Pages(b[y..])
  }

  lemma NotBelow(e: nat, s: seq<Entry>)
    requires forall d :: 0 <= d < |s| ==> e < s[d].mid
    ensures e !in Mids(s) && e !in Pages(s)
  {
    PagesKeys(s);
  }

  lemma PagesAdd(e: Entry, done: seq<Entry>)
    requires forall d :: 0 <= d < |done| ==> e.mid < done[d].mid
    ensures Pages([e] + done) == Pages(done)[e.mid := e.mptr]
  {
    NotBelow(e.mid, done);
    PagesPrepend(e, done);
  }

  lemma PagesFrom(a: seq<Entry>, x: nat)
    requires Ascending(a) && 0 < x <= |a|
    ensures Pages(a[x - 1..]) == Pages(a[x..])[a[x - 1].mid := a[x - 1].mptr]
    ensures a[x - 1].mid !in Pages(a[x..])
  {
    NotBelow(a[x - 1].mid, a[x..]);
    PagesPrepend(a[x - 1], a[x..]);
    assert a[x - 1..] == [a[x - 1]] + a[x..];
  }

  lemma LayoutStep(s: seq<Entry>, a: seq<Entry>, x: nat, i: nat, len: nat, done: seq<Entry>, e: Entry, x': nat)
    requires Layout(s, a, x, i, len, done) && i > 0 && x' <= x && x' <= i - 1
    ensures Layout(s[i := e], a, x', i - 1, len, [e] + done)
  {
    var t := s[i := e];
    assert t[i..len + 1] == [e] + done;
    assert t[1..x' + 1] == s[1..x + 1][..x'];
    assert a[..x'] == a[..x][..x'];
  }

  lemma MidsSplit(b: seq<Entry>, y: nat)
    requires y <= |b|
    ensures Mids(b) == Mids(b[..y]) + Mids(b[y..])
  {
    assert b == b[..y] + b[y..];
  }

  lemma AscendingOn(e: Entry, s: seq<Entry>)
    requires Ascending(s) && forall d :: 0 <= d < |s| ==> e.mid < s[d].mid
    ensures Ascending([e] + s)
  {
  }

  lemma OrderedDst(a: seq<Entry>, b: seq<Entry>, x: nat, y: nat, done: seq<Entry>)
    requires Ordered(a, b, x, y, done) && x > 0 && y > 0 && b[y - 1].mid < a[x - 1].mid
    ensures Ordered(a, b, x - 1, y, [a[x - 1]] + done)
    ensures a[x - 1].mid !in Mids(b)
  {
    hide Mids, Pages;
    assert a[x - 1..] == [a[x - 1]] + a[x..];
    NotBelow(a[x - 1].mid, b[y..]);
    NotInPrefix(b, y, a[x - 1].mid);
    MidsSplit(b, y);
    AscendingOn(a[x - 1], done);
  }

  lemma OrderedSrc(a: seq<Entry>, b: seq<Entry>, x: nat, y: nat, done: seq<Entry>, x': nat)
    requires Ordered(a, b, x, y, done) && y > 0 && (x > 0 ==> a[x - 1].mid <= b[y - 1].mid)
    requires x' == if x > 0 && a[x - 1].mid == b[y - 1].mid then x - 1 else x
    ensures Ordered(a, b, x', y - 1, [b[y - 1]] + done)
  {
    assert b[y - 1..] == [b[y - 1]] + b[y..];
    if x' < x { assert a[x'..] == [a[x']] + a[x..]; }
  }

  lemma PlaceDst(s: seq<Entry>, a: seq<Entry>, b: seq<Entry>, x: nat, y: nat, i: nat, len: nat, done: seq<Entry>)
    requires Merging(s, a, b, x, y, i, len, done) && y > 0 && b[y - 1].mid < s[x].mid
    ensures x > 0 && i > 0 && s[x] == a[x - 1] && a[x - 1].mid !in Mids(b)
    ensures Merging(s[i := s[x]], a, b, x - 1, y, i - 1, len, [a[x - 1]] + done)
  {
    hide Mids, Pages, Left;
    assert x > 0;
    assert s[x] == s[1..x + 1][x - 1];
    var e := a[x - 1];
    LeftAfterDst(a, b, x, y);
    LeftCount(a, b, x - 1, y);
    LayoutStep(s, a, x, i, len, done, e, x - 1);
    OrderedDst(a, b, x, y, done);
    PagesAdd(e, done);
    PagesFrom(a, x);
    NotBelow(e.mid, b[y..]);
  }

  lemma PlaceSrc(s: seq<Entry>, a: seq<Entry>, b: seq<Entry>, x: nat, y: nat, i: nat, len: nat, done: seq<Entry>,
                 x': nat)
    requires Merging(s, a, b, x, y, i, len, done) && y > 0 && s[x].mid <= b[y - 1].mid
    requires x' == if s[x].mid == b[y - 1].mid then x - 1 else x
    ensures i > 0 && (x > 0 ==> s[x] == a[x - 1])
    ensures Merging(s[i := b[y - 1]], a, b, x', y - 1, i - 1, len, [b[y - 1]] + done)
  {
    hide Mids, Pages, Left;
    assert x > 0 ==> s[x] == s[1..x + 1][x - 1];
    var e := b[y - 1];
    LeftAfterSrc(a, b, x, y, x');
    LeftCount(a, b, x', y - 1);
    LayoutStep(s, a, x, i, len, done, e, x');
    OrderedSrc(a, b, x, y, done, x');
    PagesAdd(e, done);
    PagesFrom(b, y);
    if x' < x { PagesFrom(a, x); }
  }

  /** Binary search in an ascending list: the first position whose page number
      is not smaller than id. */
  method Search(ids: array<Entry>, id: nat) returns (cursor: nat)
    requires Valid(ids)
    requires forall i, j :: 1 <= i < j <= ids[0].mid ==> ids[i].mid < ids[j].mid
    ensures 1 <= cursor <= ids[0].mid + 1
    ensures forall i :: 1 <= i < cursor ==> ids[i].mid < id
    ensures forall i :: cursor <= i <= ids[0].mid ==> ids[i].mid >= id
  {
    var count := ids[0].mid;
    var base, n, greater := 0, count, false;
    cursor := 1;
    while 0 < n
      invariant 0 <= base && base + n <= count
      invariant forall i :: 1 <= i <= base ==> ids[i].mid < id
      invariant forall i :: base + n < i <= count ==> ids[i].mid > id
      invariant greater ==> cursor == base
      invariant !greater ==> cursor == base + n + 1 || (base == 0 && cursor == 1 && n == count)
      decreases n
    {
      var pivot := n / 2;
      cursor := base + pivot + 1;
      if id < ids[cursor].mid {
        greater := false;
        n := pivot;
      } else if id > ids[cursor].mid {
        greater := true;
        base := cursor;
        n := n - (pivot + 1);
      } else {
        return;
      }
    }
    if greater {
      cursor := cursor + 1;
    }
  }

  lemma EntriesAt(s: seq<Entry>)
    requires 0 < |s| && s[0].mid < |s| && Ascending(Entries(s))
    ensures forall i, j :: 1 <= i < j <= s[0].mid ==> s[i].mid < s[j].mid
  {
    forall i, j | 1 <= i < j <= s[0].mid ensures s[i].mid < s[j].mid {
      assert s[i] == Entries(s)[i - 1] && s[j] == Entries(s)[j - 1];
    }
  }

  /** mdb_mid2l_insert: keeps the list ascending and free of duplicates.  A list
      without room reports -2, a page already listed -1. */
  method Insert(ids: array<Entry>, e: Entry) returns (rc: int)
    requires Valid(ids) && Ascending(Entries(ids[..]))
    modifies ids
    ensures Valid(ids) && Ascending(Entries(ids[..]))
    ensures rc == (if e.mid in old(Mids(Entries(ids[..]))) then -1
                   else if old(ids[0].mid) + 1 >= ids.Length then -2 else 0)
    ensures rc != 0 ==> ids[..] == old(ids[..])
    ensures rc == 0 ==> Inserted(old(Entries(ids[..])), Entries(ids[..]), e)
  {
    ghost var s, l := ids[..], Entries(ids[..]);
    EntriesAt(s);
    var x := Search(ids, e.mid);
    PositionIs(s, x, e);
    if x <= ids[0].mid && ids[x].mid == e.mid {
      return -1;
    }
    if ids[0].mid + 1 >= ids.Length {
      return -2;
    }
    var n := ids[0].mid + 1;
    ids[0] := ids[0].(mid := n);
    ShiftUp(ids, x, n);
    ids[x] := e;
    InsertedIs(s, ids[..], x, e);
    rc := 0;
  }

  ghost predicate Inserted(l: seq<Entry>, r: seq<Entry>, e: Entry) {
    exists k :: 0 <= k <= |l| && r == InsertAt(l, k, e)
  }

  function InsertAt(l: seq<Entry>, k: nat, e: Entry): seq<Entry>
    requires k <= |l|
  {
    l[..k] + [e] + l[k..]
  }

  lemma PositionIs(s: seq<Entry>, x: nat, e: Entry)
    requires 0 < |s| && s[0].mid < |s| && 1 <= x <= s[0].mid + 1 && Ascending(Entries(s))
    requires forall i :: 1 <= i < x ==> s[i].mid < e.mid
    requires forall i :: x <= i <= s[0].mid ==> s[i].mid >= e.mid
    ensures e.mid in Mids(Entries(s)) <==> x <= s[0].mid && s[x].mid == e.mid
  {
    var l := Entries(s);
    assert forall i :: 0 <= i < |l| ==> l[i] == s[i + 1];
    if x <= s[0].mid && s[x].mid == e.mid { assert l[x - 1] in l; }
  }

  method ShiftUp(ids: array<Entry>, x: nat, n: nat)
    requires 1 <= x <= n < ids.Length
    modifies ids
    ensures forall k :: 0 <= k <= x ==> ids[k] == old(ids[k])
    ensures forall k :: x < k <= n ==> ids[k] == old(ids[k - 1])
  {
    var i := n;
    while i > x
      invariant x <= i <= n
      invariant forall k :: 0 <= k <= i ==> ids[k] == old(ids[k])
      invariant forall k :: i < k <= n ==> ids[k] == old(ids[k - 1])
    {
      ids[i] := ids[i - 1];
      i := i - 1;
    }
  }

  lemma InsertedIs(s: seq<Entry>, t: seq<Entry>, x: nat, e: Entry)
    requires 0 < |s| == |t| && s[0].mid + 1 < |s| && 1 <= x <= s[0].mid + 1 && Ascending(Entries(s))
    requires forall i :: 1 <= i < x ==> s[i].mid < e.mid
    requires forall i :: x <= i <= s[0].mid ==> s[i].mid > e.mid
    requires t[0].mid == s[0].mid + 1 && t[x] == e
    requires forall k :: 1 <= k < x ==> t[k] == s[k]
    requires forall k :: x < k <= s[0].mid + 1 ==> t[k] == s[k - 1]
    ensures Ascending(Entries(t)) && Inserted(Entries(s), Entries(t), e)
  {
    var l, r := Entries(s), Entries(t);
    assert forall i :: 0 <= i < |l| ==> l[i] == s[i + 1];
    assert r == InsertAt(l, x - 1, e);
    InsertAscends(l, x - 1, e);
  }

  lemma InsertAscends(l: seq<Entry>, k: nat, e: Entry)
    requires Ascending(l) && k <= |l|
    requires forall i :: 0 <= i < k ==> l[i].mid < e.mid
    requires forall i :: k <= i < |l| ==> l[i].mid > e.mid
    ensures Ascending(InsertAt(l, k, e))
  {
  }

  /** The merge of mdb_txn_commit for a nested transaction.  dst[0].mid has
      been zeroed as a sentinel, x is the count it held, and len is the length
      of the merged list.  Entries of the parent that the child replaced are
      returned for freeing. */
  method Merge(dst: array<Entry>, src: array<Entry>, x0: nat, len: nat, ghost a: seq<Entry>, ghost b: seq<Entry>)
    returns (freed: seq<nat>)
    requires dst != src && Valid(src) && x0 < dst.Length && dst[0].mid == 0
    requires a == dst[1..x0 + 1] && b == Entries(src[..])
    requires Ascending(a) && Ascending(b) && Positive(a) && Positive(b)
    requires len == |Mids(a) + Mids(b)| < dst.Length
    modifies dst
    ensures Valid(dst) && dst[0].mid == len
    ensures Ascending(Entries(dst[..])) && Positive(Entries(dst[..]))
    ensures Pages(Entries(dst[..])) == Pages(a) + Pages(b)
    ensures freed == Shadowed(a, b)
  {
    hide Mids, Pages, Left, Shadowed, Ascending, Above;
    var x, y, i := x0, src[0].mid, len;
    ghost var done: seq<Entry> := [];
    freed := [];
    MergeStart(dst[..], a, b, len);
    while 0 < y
      invariant 0 <= y <= |b| && x >= 0 && i >= 0
      invariant Merging(dst[..], a, b, x, y, i, len, done)
      invariant freed + Shadowed(a[..x], b) == Shadowed(a, b)
    {
      assert src[y] == b[y - 1];
      x, i, done, freed := PlaceOne(dst, src[y], x, y, i, len, a, b, done, freed);
      y := y - 1;
    }
    MergeEnd(dst[..], a, b, x, i, len, done);
    assert i == x;
    dst[0] := dst[0].(mid := len);
  }

  /** Moves up the parent's entries above the child's next entry e. */
  method MoveLarger(dst: array<Entry>, e: Entry, x0: nat, ghost y: nat, i0: nat, ghost len: nat, ghost a: seq<Entry>,
                    ghost b: seq<Entry>, ghost done0: seq<Entry>)
    returns (x: nat, i: nat, ghost done: seq<Entry>)
    requires Merging(dst[..], a, b, x0, y, i0, len, done0) && 0 < y && e == b[y - 1]
    modifies dst
    ensures Merging(dst[..], a, b, x, y, i, len, done) && dst[x].mid <= e.mid
    ensures Shadowed(a[..x], b) == Shadowed(a[..x0], b)
  {
    hide Mids, Pages, Left, Shadowed, Ascending, Positive, Above;
    x, i, done := x0, i0, done0;
    while e.mid < dst[x].mid
      invariant Merging(dst[..], a, b, x, y, i, len, done)
      invariant Shadowed(a[..x], b) == Shadowed(a[..x0], b)
      decreases x
    {
      ghost var s := dst[..];
      PlaceDst(s, a, b, x, y, i, len, done);
      ShadowedStep(a, b, x);
      dst[i] := dst[x];
      done := [a[x - 1]] + done;
      x, i := x - 1, i - 1;
    }
  }

  /** One round: makes room, drops the parent's copy of the same page, and
      places the child's entry. */
  method PlaceOne(dst: array<Entry>, e: Entry, x0: nat, ghost y: nat, i0: nat, ghost len: nat, ghost a: seq<Entry>,
                  ghost b: seq<Entry>, ghost done0: seq<Entry>, freed0: seq<nat>)
    returns (x: nat, i: nat, ghost done: seq<Entry>, freed: seq<nat>)
    requires Merging(dst[..], a, b, x0, y, i0, len, done0) && 0 < y && e == b[y - 1] && e.mid > 0
    requires freed0 + Shadowed(a[..x0], b) == Shadowed(a, b)
    modifies dst
    ensures Merging(dst[..], a, b, x, y - 1, i, len, done)
    ensures freed + Shadowed(a[..x], b) == Shadowed(a, b)
  {
    hide Mids, Pages, Left, Shadowed, Ascending, Positive, Above;
    freed := freed0;
    x, i, done := MoveLarger(dst, e, x0, y, i0, len, a, b, done0);
    ghost var s := dst[..];
    ghost var x' := if s[x].mid == e.mid then x - 1 else x;
    PlaceSrc(s, a, b, x, y, i, len, done, x');
    if e.mid == dst[x].mid {
      MidIn(b, y - 1);
      ShadowedStep(a, b, x);
      freed := freed + [dst[x].mptr];
      x := x - 1;
    }
    dst[i] := e;
    done := [e] + done;
    i := i - 1;
  }

  lemma MidIn(b: seq<Entry>, k: nat)
    requires k < |b|
    ensures b[k].mid in Mids(b)
  {
  }

  lemma NoPages()
    ensures Pages([]) == map[] && Ascending([])
  {
  }

  lemma MergeStart(s: seq<Entry>, a: seq<Entry>, b: seq<Entry>, len: nat)
    requires |a| < |s| && s[0].mid == 0 && a == s[1..|a| + 1]
    requires Ascending(a) && Ascending(b) && Positive(a) && Positive(b)
    requires len == |Mids(a) + Mids(b)| < |s|
    ensures Merging(s, a, b, |a|, |b|, len, len, [])
    ensures Shadowed(a[..|a|], b) == Shadowed(a, b)
  {
    hide Mids, Shadowed, Pages;
    NoPages();
    assert a[..|a|] == a && b[..|b|] == b && a[|a|..] == [] && b[|b|..] == [];
    LeftCount(a, b, |a|, |b|);
  }

  lemma MergeEnd(s: seq<Entry>, a: seq<Entry>, b: seq<Entry>, x: nat, i: nat, len: nat, done: seq<Entry>)
    requires Merging(s, a, b, x, 0, i, len, done)
    ensures i == x && Shadowed(a[..x], b) == []
    ensures var r := s[1..len + 1];
            Ascending(r) && Positive(r) && Pages(r) == Pages(a) + Pages(b)
  {
    hide Mids, Shadowed, Pages, Left;
    LeftCount(a, b, x, 0);
    assert s[1..len + 1] == a[..x] + done;
    ConcatAscends(a, b, x, done);
    assert a == a[..x] + a[x..] && b[0..] == b;
    PagesConcat(a[..x], done);
    PagesConcat(a[..x], a[x..]);
    NothingShadowed(a, b, x);
  }

  lemma ConcatAscends(a: seq<Entry>, b: seq<Entry>, x: nat, done: seq<Entry>)
    requires Ordered(a, b, x, 0, done)
    ensures Ascending(a[..x] + done) && Positive(a[..x] + done) && Ascending(a[..x])
    ensures Above(a[..x], x, done) && Above(a[..x], x, a[x..]) && Above(a, x, b)
  {
    assert b[0..] == b;
    var p, q, r := a[..x], a[x..], a[..x] + done;
    forall c, d | 0 <= c < x && 0 <= d < |q| ensures p[c].mid < q[d].mid {
      assert p[c] == a[c] && q[d] == a[x + d];
    }
    forall c | 0 <= c < |r| ensures r[c].mid > 0 {
      assert r[c] == if c < x then a[c] else done[c - x];
    }
    forall c, d | 0 <= c < d < |r| ensures r[c].mid < r[d].mid {
      assert r[c] == if c < x then a[c] else done[c - x];
      assert r[d] == if d < x then a[d] else done[d - x];
    }
  }

  lemma {:induction false} PagesConcat(s: seq<Entry>, t: seq<Entry>)
    requires Ascending(s) && Above(s, |s|, t)
    ensures Pages(s + t) == Pages(s) + Pages(t)
  {
    if |t| > 0 {
      var u := t[..|t| - 1];
      assert (s + t)[..|s + t| - 1] == s + u;
      PagesConcat(s, u);
    } else {
      assert s + t == s;
    }
  }

  lemma {:induction false} NothingShadowed(a: seq<Entry>, b: seq<Entry>, x: nat)
    requires x <= |a| && Above(a, x, b)
    ensures Shadowed(a[..x], b) == []
  {
    if x > 0 {
      NothingShadowed(a, b, x - 1);
      ShadowedStep(a, b, x);
      NotBelow(a[x - 1].mid, b);
    }
  }

  // ------------------------------------------------- the merged list's length

  /** The pages in both of two prefixes. */
  function Shared(a: seq<Entry>, b: seq<Entry>, i: nat, y: nat): set<nat>
    requires i <= |a| && y <= |b|
  {
    Mids(a[..i]) * Mids(b[..y])
  }

  lemma SharedDropDst(a: seq<Entry>, b: seq<Entry>, i: nat, y: nat)
    requires Ascending(a) && Ascending(b) && 0 < i <= |a| && y <= |b| && (y > 0 ==> b[y - 1].mid < a[i - 1].mid)
    ensures Shared(a, b, i, y) == Shared(a, b, i - 1, y)
  {
    hide Mids;
    MidsLast(a, i);
    NotInPrefix(b, y, a[i - 1].mid);
  }

  lemma SharedDropSrc(a: seq<Entry>, b: seq<Entry>, i: nat, y: nat)
    requires Ascending(a) && Ascending(b) && i <= |a| && 0 < y <= |b| && (i > 0 ==> a[i - 1].mid < b[y - 1].mid)
    ensures Shared(a, b, i, y) == Shared(a, b, i, y - 1)
  {
    hide Mids;
    MidsLast(b, y);
    NotInPrefix(a, i, b[y - 1].mid);
  }

  lemma SharedMatch(a: seq<Entry>, b: seq<Entry>, i: nat, y: nat)
    requires Ascending(a) && Ascending(b) && 0 < i <= |a| && 0 < y <= |b| && a[i - 1].mid == b[y - 1].mid
    ensures |Shared(a, b, i, y)| == |Shared(a, b, i - 1, y - 1)| + 1
  {
    hide Mids;
    MidsLast(a, i);
    MidsLast(b, y);
    assert Shared(a, b, i, y) == Shared(a, b, i - 1, y - 1) + {a[i - 1].mid};
  }

  /** Entries of b above every entry of a share nothing. */
  lemma {:induction false} SharedStart(a: seq<Entry>, b: seq<Entry>, y: nat, z: nat)
    requires Ascending(a) && Ascending(b) && y <= z <= |b|
    requires forall k :: y <= k < |b| ==> |a| > 0 ==> a[|a| - 1].mid < b[k].mid
    ensures Shared(a, b, |a|, z) == Shared(a, b, |a|, y)
    decreases z
  {
    if y < z {
      SharedDropSrc(a, b, |a|, z);
      SharedStart(a, b, y, z - 1);
    }
  }

  lemma UnionSize(a: seq<Entry>, b: seq<Entry>)
    requires Ascending(a) && Ascending(b)
    ensures |Mids(a) + Mids(b)| == |a| + |b| - |Shared(a, b, |a|, |b|)|
  {
    MidsCount(a, |a|);
    MidsCount(b, |b|);
    assert a[..|a|] == a && b[..|b|] == b;
  }

  lemma MidPositive(b: seq<Entry>, k: nat)
    requires Positive(b) && k < |b|
    ensures b[k].mid > 0
  {
  }

  lemma SharedNone(a: seq<Entry>, b: seq<Entry>, i: nat, y: nat)
    requires i <= |a| && y <= |b| && (i == 0 || y == 0)
    ensures Shared(a, b, i, y) == {}
  {
  }

  /** The length when there is more than one ancestor: both counts less the
      pages found in both, scanned from the top. */
  method MergedLength(dst: array<Entry>, src: array<Entry>, x: nat, ghost a: seq<Entry>, ghost b: seq<Entry>)
    returns (len: int)
    requires Valid(src) && x < dst.Length && dst[0].mid == 0
    requires a == dst[1..x + 1] && b == Entries(src[..])
    requires Ascending(a) && Ascending(b) && Positive(a) && Positive(b)
    ensures len == |Mids(a) + Mids(b)|
  {
    hide Shared, Mids, Ascending, Positive;
    EntriesAt(src[..]);
    len := x + src[0].mid;
    var y := Search(src, dst[x].mid + 1);
    y := y - 1;
    var i := x;
    assert x > 0 ==> dst[x] == a[x - 1];
    StartFacts(dst[..], src[..], a, b, x, y);
    ghost var all := |Shared(a, b, |a|, |b|)|;
    while y > 0 && i > 0
      invariant 0 <= y <= |b| && 0 <= i <= |a|
      invariant len == |a| + |b| - (all - |Shared(a, b, i, y)|)
      decreases y
    {
      var yp := src[y].mid;
      assert src[y] == b[y - 1];
      MidPositive(b, y - 1);
      while yp < dst[i].mid
        invariant 0 <= i <= |a|
        invariant len == |a| + |b| - (all - |Shared(a, b, i, y)|)
        decreases i
      {
        assert dst[i] == a[i - 1];
        SharedDropDst(a, b, i, y);
        i := i - 1;
      }
      assert i > 0 ==> dst[i] == a[i - 1];
      if yp == dst[i].mid {
        SharedMatch(a, b, i, y);
        i := i - 1;
        len := len - 1;
      } else {
        SharedDropSrc(a, b, i, y);
      }
      y := y - 1;
    }
    SharedNone(a, b, i, y);
    UnionSize(a, b);
  }

  lemma StartFacts(d: seq<Entry>, s: seq<Entry>, a: seq<Entry>, b: seq<Entry>, x: nat, y: nat)
    requires 0 < |s| && s[0].mid < |s| && x < |d| && a == d[1..x + 1] && b == Entries(s) && d[0].mid == 0
    requires Ascending(a) && Ascending(b) && y <= s[0].mid
    requires forall i :: y + 1 <= i <= s[0].mid ==> s[i].mid >= d[x].mid + 1
    ensures Shared(a, b, |a|, |b|) == Shared(a, b, |a|, y)
    ensures x > 0 ==> d[x] == a[x - 1]
  {
    assert x > 0 ==> d[x] == a[x - 1];
    forall k | y <= k < |b| ensures |a| > 0 ==> a[|a| - 1].mid < b[k].mid {
      assert b[k] == s[k + 1];
    }
    SharedStart(a, b, y, |b|);
  }
}
