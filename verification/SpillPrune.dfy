/** Commit of a nested transaction: removing the pages the child dirtied from
    the parent's spill list. */
module SpillPrune {
  import opened NestedMerge

  ghost predicate Descending(s: seq<nat>) { forall i, j :: 0 <= i < j < |s| ==> s[i] > s[j] }

  /** (MDB_ID)-1 */
  const MAX_ID: nat := 0xFFFF_FFFF_FFFF_FFFF

  predicate IsOdd(v: nat) { v % 2 == 1 }

  /** A spill list entry names one of these pages. */
  ghost predicate Names(v: nat, b: seq<Entry>) { exists k :: 0 <= k < |b| && v == 2 * b[k].mid }

  /** s holds the list l with the entries naming pages of b replaced by 1. */
  ghost predicate Marked(s: seq<nat>, l: seq<nat>, b: seq<Entry>) {
    && |l| < |s|
    && forall k :: 0 <= k < |l| ==> s[k + 1] == if Names(l[k], b) then 1 else l[k]
  }

  /** Removes the child's dirty pages from the parent's spill list: page numbers
      shifted left by one in descending order, odd ones already deleted. */
  method PruneSpill(pspill: array<nat>, src: array<Entry>)
    requires 0 < pspill.Length && 0 < pspill[0] < pspill.Length
    requires Valid(src) && Ascending(Entries(src[..])) && Positive(Entries(src[..]))
    requires Descending(pspill[1..pspill[0] + 1])
    requires forall e :: e in Entries(src[..]) ==> 2 * e.mid < MAX_ID
    modifies pspill
    ensures pspill[0] <= old(pspill[0])
    ensures Descending(pspill[1..pspill[0] + 1])
    ensures forall p: nat :: 2 * p in pspill[1..pspill[0] + 1] <==>
                             2 * p in old(pspill[1..pspill[0] + 1]) && p !in Mids(Entries(src[..]))
  {
    ghost var l, b := pspill[1..pspill[0] + 1], Entries(src[..]);
    var ps_len := pspill[0];
    var y := MarkDirty(pspill, src, ps_len, l, b);
    SquashOdd(pspill, y, ps_len, l, b);
    forall p: nat ensures Names(2 * p, b) <==> p in Mids(b) {
      if p in Mids(b) {
        var e :| e in b && e.mid == p;
        var k :| 0 <= k < |b| && b[k] == e;
      }
    }
  }

  lemma MarkingShape(s: seq<nat>, l: seq<nat>, b: seq<Entry>, i: nat, x: nat, y: nat)
    requires Marking(s, l, b, i, x, y)
    ensures i <= |b| && x <= y <= |l| < |s|
  {
  }

  lemma MarkingStart(s: seq<nat>, l: seq<nat>, b: seq<Entry>)
    requires |l| < |s| && s[1..|l| + 1] == l
    ensures Marking(s, l, b, 0, |l|, |l|)
  {
    forall k | 0 <= k < |l| ensures s[k + 1] == l[k] {
      assert s[1..|l| + 1][k] == l[k];
    }
  }

  lemma MarkingEnd(s: seq<nat>, l: seq<nat>, b: seq<Entry>, x: nat, y: nat)
    requires Marking(s, l, b, |b|, x, y)
    ensures Marked(s, l, b) && y <= |l| && forall k :: 0 <= k < y ==> !Names(l[k], b)
  {
    assert b[..|b|] == b;
  }

  lemma EntryAt(src: seq<Entry>, b: seq<Entry>, i: nat)
    requires |src| > 0 && src[0].mid < |src| && b == Entries(src) && Positive(b) && i < src[0].mid
    requires forall e :: e in b ==> 2 * e.mid < MAX_ID
    ensures |b| == src[0].mid && i + 1 < |src| && src[i + 1] == b[i] && 0 < 2 * b[i].mid < MAX_ID
  {
    assert b[i] in b;
  }

  lemma EntriesSize(src: seq<Entry>)
    requires |src| > 0 && src[0].mid < |src|
    ensures |Entries(src)| == src[0].mid
  {
  }

  /** Marks the entries naming dirty pages with 1; the two lists run in opposite
      order, so one pass from the tail is enough.  y is the position before the
      last one marked. */
  method MarkDirty(pspill: array<nat>, src: array<Entry>, ps_len: nat, ghost l: seq<nat>, ghost b: seq<Entry>)
    returns (y: nat)
    requires 0 < ps_len < pspill.Length && l == pspill[1..ps_len + 1] && Descending(l)
    requires Valid(src) && b == Entries(src[..]) && Ascending(b) && Positive(b)
    requires forall e :: e in b ==> 2 * e.mid < MAX_ID
    modifies pspill
    ensures y <= ps_len && Marked(pspill[..], l, b)
    ensures forall k :: 0 <= k < y ==> !Names(l[k], b)
  {
    hide Marking, Marked, Names, Ascending, Descending, Entries, Positive;
    var x: nat, len := ps_len, src[0].mid;
    y := ps_len;
    EntriesSize(src[..]);
    pspill[0] := MAX_ID;
    MarkingStart(pspill[..], l, b);
    var i := 0;
    while i < len
      invariant 0 <= i <= len
      invariant pspill[0] == MAX_ID && Marking(pspill[..], l, b, i, x, y)
    {
      EntryAt(src[..], b, i);
      var pn := 2 * src[i + 1].mid;
      ghost var s := pspill[..];
      MarkingShape(s, l, b, i, x, y);
      Untouched(s, l, b, i, x, y);
      ghost var x0 := x;
      x := SkipSmaller(pspill, x, pn, l);
      MarkRound(s, l, b, i, x0, y, pn, x);
      if pn == pspill[x] {
        pspill[x] := 1;
        assert pspill[..] == s[x := 1];
        x := x - 1;
        y := x;
      }
      i := i + 1;
    }
    MarkingEnd(pspill[..], l, b, x, y);
  }

  /** After i dirty pages: x is where the scan stands, y the last unmarked part. */
  ghost predicate Marking(s: seq<nat>, l: seq<nat>, b: seq<Entry>, i: nat, x: nat, y: nat) {
    && i <= |b| && x <= y <= |l| && Marked(s, l, b[..i])
    && (forall k :: 0 <= k < y ==> !Names(l[k], b[..i]))
    && (i > 0 ==> forall k :: 0 <= k < x ==> 2 * b[i - 1].mid < l[k])
    && (forall k :: x <= k < |l| ==> i > 0 && l[k] <= 2 * b[i - 1].mid)
  }

  lemma Untouched(s: seq<nat>, l: seq<nat>, b: seq<Entry>, i: nat, x: nat, y: nat)
    requires Marking(s, l, b, i, x, y)
    ensures forall k :: 0 <= k < x ==> s[k + 1] == l[k]
  {
  }

  lemma MarkRound(s: seq<nat>, l: seq<nat>, b: seq<Entry>, i: nat, x0: nat, y: nat, pn: nat, x: nat)
    requires Marking(s, l, b, i, x0, y) && i < |b| && pn == 2 * b[i].mid && Descending(l) && Ascending(b)
    requires x <= x0 && (x > 0 ==> l[x - 1] >= pn) && forall k :: x <= k < x0 ==> l[k] < pn
    ensures if x > 0 && l[x - 1] == pn then Marking(s[x := 1], l, b, i + 1, x - 1, x - 1)
            else Marking(s, l, b, i + 1, x, y)
  {
    hide Names;
    assert i > 0 ==> b[i - 1].mid < b[i].mid;
    assert forall k :: x <= k < |l| ==> l[k] < pn;
    NamesOneMore(l, b, i + 1, pn);
    MarkStep(s, l, b, i + 1, pn, x);
  }

  method SkipSmaller(pspill: array<nat>, x0: nat, pn: nat, ghost l: seq<nat>) returns (x: nat)
    requires x0 <= |l| < pspill.Length && 0 < pn < pspill[0]
    requires forall k :: 0 <= k < x0 ==> pspill[k + 1] == l[k]
    ensures x <= x0 && pn <= pspill[x]
    ensures x > 0 ==> pspill[x] == l[x - 1]
    ensures forall k :: x <= k < x0 ==> l[k] < pn
  {
    x := x0;
    while pn > pspill[x]
      invariant 0 <= x <= x0
      invariant forall k :: x <= k < x0 ==> l[k] < pn
      decreases x
    {
      assert pspill[(x - 1) + 1] == l[x - 1];
      x := x - 1;
    }
    assert x > 0 ==> pspill[(x - 1) + 1] == l[x - 1];
  }

  /** Only the entry equal to pn is affected by one more page. */
  lemma NamesOneMore(l: seq<nat>, b: seq<Entry>, i: nat, pn: nat)
    requires 0 < i <= |b| && pn == 2 * b[i - 1].mid
    ensures forall k :: 0 <= k < |l| ==> (Names(l[k], b[..i]) <==> Names(l[k], b[..i - 1]) || l[k] == pn)
  {
    forall k | 0 <= k < |l| ensures Names(l[k], b[..i]) <==> Names(l[k], b[..i - 1]) || l[k] == pn {
      var c, d := b[..i], b[..i - 1];
      assert c[i - 1] == b[i - 1];
      if Names(l[k], d) {
        var j :| 0 <= j < |d| && l[k] == 2 * d[j].mid;
        assert c[j] == d[j];
      }
      if Names(l[k], c) && l[k] != pn {
        var j :| 0 <= j < |c| && l[k] == 2 * c[j].mid;
        assert d[j] == c[j];
      }
    }
  }

  lemma MarkStep(s: seq<nat>, l: seq<nat>, b: seq<Entry>, i: nat, pn: nat, x: nat)
    requires 0 < i <= |b| && x <= |l| && Descending(l) && Marked(s, l, b[..i - 1])
    requires forall k :: 0 <= k < |l| ==> (Names(l[k], b[..i]) <==> Names(l[k], b[..i - 1]) || l[k] == pn)
    requires forall k :: x <= k < |l| ==> l[k] != pn
    requires x > 0 ==> l[x - 1] >= pn
    ensures if x > 0 && l[x - 1] == pn then Marked(s[x := 1], l, b[..i]) else Marked(s, l, b[..i])
  {
  }

  lemma MarkedAt(s: seq<nat>, l: seq<nat>, b: seq<Entry>, k: nat)
    requires Marked(s, l, b) && k < |l|
    ensures k + 1 < |s| && s[k + 1] == if Names(l[k], b) then 1 else l[k]
  {
  }

  lemma KeptEnd(r: seq<nat>, l: seq<nat>, b: seq<Entry>)
    requires Kept(r, l, b, |l|)
    ensures Descending(r) && forall v :: !IsOdd(v) ==> (v in r <==> v in l && !Names(v, b))
  {
    assert l[..|l|] == l;
  }

  /** Squeezes the odd entries after position y0 out of the list. */
  method SquashOdd(pspill: array<nat>, y0: nat, ps_len: nat, ghost l: seq<nat>, ghost b: seq<Entry>)
    requires |l| == ps_len && ps_len < pspill.Length && Descending(l) && y0 <= ps_len
    requires Marked(pspill[..], l, b) && forall k :: 0 <= k < y0 ==> !Names(l[k], b)
    modifies pspill
    ensures pspill[0] <= ps_len && Descending(pspill[1..pspill[0] + 1])
    ensures forall v :: !IsOdd(v) ==> (v in pspill[1..pspill[0] + 1] <==> v in l && !Names(v, b))
  {
    hide Kept, Names, Marked, Descending;
    var y: nat, x: nat := y0, y0;
    ghost var s := pspill[..];
    KeptStart(s, l, b, y0);
    assert pspill[1..y + 1] == s[1..y0 + 1];
    while x < ps_len
      invariant y <= x <= ps_len
      invariant forall k :: x < k <= ps_len ==> pspill[k] == s[k]
      invariant Kept(pspill[1..y + 1], l, b, x)
    {
      x := x + 1;
      MarkedAt(s, l, b, x - 1);
      ghost var before := pspill[1..y + 1];
      KeptStep(before, l, b, x);
      if pspill[x] % 2 != 1 {
        y := y + 1;
        pspill[y] := pspill[x];
        assert pspill[1..y + 1] == before + [l[x - 1]];
      }
    }
    pspill[0] := y;
    assert l[..ps_len] == l;
    KeptEnd(pspill[1..y + 1], l, b);
  }

  /** The surviving part of the first x entries of l. */
  ghost predicate Kept(r: seq<nat>, l: seq<nat>, b: seq<Entry>, x: nat) {
    && x <= |l| && Descending(r)
    && (forall v :: v in r ==> v in l[..x])
    && (forall v :: !IsOdd(v) ==> (v in r <==> v in l[..x] && !Names(v, b)))
  }

  lemma KeptStart(s: seq<nat>, l: seq<nat>, b: seq<Entry>, y0: nat)
    requires y0 <= |l| && Descending(l) && Marked(s, l, b) && forall k :: 0 <= k < y0 ==> !Names(l[k], b)
    ensures Kept(s[1..y0 + 1], l, b, y0)
  {
    var r := s[1..y0 + 1];
    forall k | 0 <= k < y0 ensures r[k] == l[..y0][k] {
      assert s[k + 1] == if Names(l[k], b) then 1 else l[k];
    }
    assert r == l[..y0];
  }

  lemma KeptStep(r: seq<nat>, l: seq<nat>, b: seq<Entry>, x: nat)
    requires 0 < x <= |l| && Descending(l) && Kept(r, l, b, x - 1)
    ensures IsOdd(l[x - 1]) || Names(l[x - 1], b) ==> Kept(r, l, b, x)
    ensures !IsOdd(l[x - 1]) && !Names(l[x - 1], b) ==> Kept(r + [l[x - 1]], l, b, x)
  {
    var last := l[x - 1];
    assert l[..x] == l[..x - 1] + [last];
    assert last !in l[..x - 1];
    forall k | 0 <= k < |r| ensures r[k] > last {
      assert r[k] in r;
      var j :| 0 <= j < x - 1 && l[..x - 1][j] == r[k];
      assert l[j] > l[x - 1];
    }
  }
}
