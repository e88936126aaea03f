/** Page runs in me_pghead, and writing me_pghead back to the freeDB. */
module FreeList {
  import opened IdSequences

  /** The pages p, p+1, ..., p+num-1 are all listed. */
  ghost predicate HasRun(l: seq<nat>, p: nat, num: nat) { forall q :: p <= q < p + num ==> q in l }

  /** In a strictly descending list, num consecutive positions span at least num. */
  lemma {:induction false} SpanAtLeast(l: seq<nat>, k: nat, d: nat)
    requires StrictDesc(l) && d <= k < |l|
    ensures l[k - d] >= l[k] + d
  {
    if d > 0 { SpanAtLeast(l, k, d - 1); }
  }

  /** ... and exactly num only if they are a run. */
  lemma {:induction false} TightSpanIsRun(l: seq<nat>, k: nat, d: nat)
    requires StrictDesc(l) && d <= k < |l| && l[k - d] == l[k] + d
    ensures HasRun(l, l[k], d + 1)
    ensures forall t :: k - d <= t <= k ==> l[t] == l[k] + (k - t)
  {
    if d > 0 {
      SpanAtLeast(l, k, d - 1);
      TightSpanIsRun(l, k, d - 1);
      forall q | l[k] <= q < l[k] + d + 1 ensures q in l {
        if q == l[k] + d { assert l[k - d] in l; }
      }
    }
  }

  lemma {:induction false} RunPosition(l: seq<nat>, p: nat, num: nat) returns (k: nat)
    requires StrictDesc(l) && num > 0 && HasRun(l, p, num)
    ensures num - 1 <= k < |l| && l[k] == p && l[k - (num - 1)] == p + (num - 1)
  {
    if num == 1 {
      assert p in l;
      k :| 0 <= k < |l| && l[k] == p;
    } else {
      assert HasRun(l, p, num - 1);
      k := RunPosition(l, p, num - 1);
      assert p + (num - 1) in l;
      var t :| 0 <= t < |l| && l[t] == p + (num - 1);
      assert t < k - (num - 2);
      assert l[k - (num - 2) - 1] > l[k - (num - 2)];
      assert t == k - (num - 2) - 1;
    }
  }

  /** The tail scan and removal of mdb_page_alloc: takes the lowest run of num
      consecutive pages, if there is one. */
  method TakeRun(mop: array<nat>, num: nat) returns (found: bool, pgno: nat)
    requires Valid(mop) && num > 0 && StrictDesc(List(mop[..], 0))
    modifies mop
    ensures found <==> exists p :: HasRun(old(List(mop[..], 0)), p, num)
    ensures found ==> HasRun(old(List(mop[..], 0)), pgno, num)
                      && forall p :: HasRun(old(List(mop[..], 0)), p, num) ==> pgno <= p
    ensures Valid(mop) && StrictDesc(List(mop[..], 0))
    ensures forall x :: x in List(mop[..], 0) <==> x in old(List(mop[..], 0)) && !(found && pgno <= x < pgno + num)
    ensures mop[0] == old(mop[0]) - if found then num else 0
  {
    hide HasRun, StrictDesc;
    var mop_len, n2 := mop[0], num - 1;
    ghost var l := List(mop[..], 0);
    found, pgno := false, 0;
    var i := mop_len;
    while i > n2
      invariant 0 <= i <= mop_len
      invariant forall k :: i <= k < |l| && k >= n2 ==> l[k - n2] != l[k] + n2
    {
      pgno := mop[i];
      assert pgno == l[i - 1] && mop[i - n2] == l[i - 1 - n2];
      if mop[i - n2] == pgno + n2 {
        found := true;
        break;
      }
      i := i - 1;
    }
    NoRunAbove(l, if found then i else n2, num);
    if found {
      TightSpanIsRun(l, i - 1, n2);
      RemoveRun(l, i, num, pgno);
      RunIsLowest(l, i, num);
      CutRun(mop, i, num);
    }
  }

  lemma RunIsLowest(l: seq<nat>, i: nat, num: nat)
    requires StrictDesc(l) && 0 < i <= |l| && num > 0
    requires forall p :: HasRun(l, p, num) ==> exists k :: num - 1 <= k < i && k < |l| && l[k] == p
    ensures forall p :: HasRun(l, p, num) ==> l[i - 1] <= p
  {
  }

  /** Removes the num IDs ending at position i. */
  method CutRun(mop: array<nat>, i: nat, num: nat)
    requires Valid(mop) && 0 < num <= i <= mop[0]
    modifies mop
    ensures Valid(mop) && mop[0] == old(mop[0]) - num
    ensures List(mop[..], 0) == old(List(mop[..], 0))[..i - num] + old(List(mop[..], 0))[i..]
  {
    ghost var before := mop[..];
    var mop_len := mop[0];
    Squeeze(mop, i, num, mop_len);
    mop[0] := mop_len - num;
    CutIs(before, mop[..], i, num);
  }

  lemma CutIs(s: seq<nat>, t: seq<nat>, i: nat, num: nat)
    requires |t| == |s| > 0 && s[0] < |s| && 0 < num <= i <= s[0] && t[0] == s[0] - num
    requires forall k :: 1 <= k <= i - num ==> t[k] == s[k]
    requires forall k :: i - num < k <= t[0] ==> t[k] == s[k + num]
    ensures List(t, 0) == List(s, 0)[..i - num] + List(s, 0)[i..]
  {
    var l, r := List(s, 0), List(t, 0);
    var u := l[..i - num] + l[i..];
    assert |r| == |u|;
    forall k | 0 <= k < |r| ensures r[k] == u[k] {
      assert r[k] == t[k + 1];
      if k < i - num { assert u[k] == l[k] == s[k + 1]; } else { assert u[k] == l[k + num] == s[k + 1 + num]; }
    }
  }

  /** When no tight span ends at position i or later, every run lies before. */
  lemma NoRunAbove(l: seq<nat>, i: nat, num: nat)
    requires StrictDesc(l) && num > 0
    requires forall k :: i <= k < |l| && k >= num - 1 ==> l[k - (num - 1)] != l[k] + (num - 1)
    ensures forall p :: HasRun(l, p, num) ==> exists k :: num - 1 <= k < i && k < |l| && l[k] == p
  {
    forall p | HasRun(l, p, num) ensures exists k :: num - 1 <= k < i && k < |l| && l[k] == p {
      var k := RunPosition(l, p, num);
      assert k < i;
    }
  }

  lemma RemoveRun(l: seq<nat>, i: nat, num: nat, pgno: nat)
    requires StrictDesc(l) && 0 < num <= i <= |l|
    requires forall t :: i - num <= t < i ==> l[t] == pgno + (i - 1 - t)
    ensures var r := l[..i - num] + l[i..];
            StrictDesc(r) && forall x: nat :: x in r <==> x in l && !(pgno <= x < pgno + num)
  {
    var r := l[..i - num] + l[i..];
    assert l[i - num] == pgno + (num - 1) && l[i - 1] == pgno;
    forall x: nat ensures x in r <==> x in l && !(pgno <= x < pgno + num) {
      RemovedIs(l, i, num, pgno, x);
    }
  }

  lemma RemovedIs(l: seq<nat>, i: nat, num: nat, pgno: nat, x: nat)
    requires StrictDesc(l) && 0 < num <= i <= |l|
    requires forall t :: i - num <= t < i ==> l[t] == pgno + (i - 1 - t)
    ensures x in l[..i - num] + l[i..] <==> x in l && !(pgno <= x < pgno + num)
  {
    assert l == l[..i - num] + l[i - num..i] + l[i..];
    assert l[i - num] == pgno + (num - 1) && l[i - 1] == pgno;
    assert x in l[..i - num] ==> x > l[i - num];
    assert x in l[i..] ==> x < l[i - 1];
    if pgno <= x < pgno + num {
      assert l[i - 1 - (x - pgno)] == x;
    }
  }

  /** Moves the stragglers above position i down by num. */
  method Squeeze(mop: array<nat>, i0: nat, num: nat, mop_len: nat)
    requires 0 < num <= i0 <= mop_len < mop.Length
    modifies mop
    ensures forall k :: 0 <= k <= i0 - num ==> mop[k] == old(mop[k])
    ensures forall k :: i0 - num < k <= mop_len - num ==> mop[k] == old(mop[k + num])
  {
    var i, j := i0, i0 - num;
    while j < mop_len - num
      invariant i0 - num <= j <= mop_len - num && i == j + num
      invariant forall k :: 0 <= k <= i0 - num ==> mop[k] == old(mop[k])
      invariant forall k :: i0 - num < k <= j ==> mop[k] == old(mop[k + num])
      invariant forall k :: j < k < mop.Length ==> mop[k] == old(mop[k])
    {
      j := j + 1;
      i := i + 1;
      mop[j] := mop[i];
    }
  }

  // ------------------------------------------------------- freelist save

  /** A freeDB record reserved for part of me_pghead: its key and its room. */
  datatype Reserved = Reserved(id: nat, room: nat)

  function Room(rs: seq<Reserved>): nat { if |rs| == 0 then 0 else rs[0].room + Room(rs[1..]) }

  /** The IDs of the written records, last record first. */
  function Joined(written: seq<seq<nat>>): seq<nat> {
    if |written| == 0 then [] else Joined(written[1..]) + Body(written[0])
  }

  /** The IDs in a record value, which starts with its own count. */
  function Body(v: seq<nat>): seq<nat> { if |v| == 0 then [] else v[1..] }

  ghost predicate WellFormed(v: seq<nat>) { |v| > 0 && v[0] == |v| - 1 && StrictDesc(v[1..]) }

  lemma {:induction false} JoinedPush(written: seq<seq<nat>>, v: seq<nat>)
    ensures Joined(written + [v]) == Body(v) + Joined(written)
  {
    if |written| > 0 {
      JoinedPush(written[1..], v);
      assert (written + [v])[1..] == written[1..] + [v];
    } else {
      assert (written + [v])[1..] == [];
    }
  }

  /** The record value for the len IDs after position pos, with the element at
      pos borrowed for their count and put back. */
  method WriteSlice(mop: array<nat>, pos: nat, len: nat) returns (value: seq<nat>)
    requires pos + len < mop.Length
    modifies mop
    ensures mop[..] == old(mop[..])
    ensures value == [len] + mop[pos + 1..pos + len + 1]
  {
    var save := mop[pos];
    mop[pos] := len;
    value := mop[pos..pos + len + 1];
    mop[pos] := save;
  }

  /** Fills the reserved records, in key order, with the tail of me_pghead
      first.  The element before each slice is borrowed for the slice's count.
      rs[..own] are the records this commit reserved, keyed up to me_pglast. */
  method FillRecords(mop: array<nat>, rs: seq<Reserved>, ghost own: nat, ghost pglast: nat)
    returns (written: seq<seq<nat>>)
    requires Valid(mop) && StrictDesc(List(mop[..], 0))
    requires own <= |rs| && Room(rs[..own]) >= mop[0]
    requires forall i :: 0 <= i < own ==> rs[i].id <= pglast
    modifies mop
    ensures mop[..] == old(mop[..])
    ensures |written| <= own
    ensures forall i :: 0 <= i < |written| ==> rs[i].id <= pglast
    ensures forall i :: 0 <= i < |written| ==> WellFormed(written[i]) && |written[i]| <= rs[i].room + 1
    ensures Joined(written) == List(mop[..], 0)
  {
    written := [];
    var mop_len := mop[0];
    if mop_len == 0 {
      return;
    }
    var pos, i := mop_len, 0;
    ghost var l := List(mop[..], 0);
    assert rs[..own][0..] == rs[..own] && l[|l|..] == [];
    while true
      invariant 0 <= i <= own && 0 < mop_len && pos == mop_len
      invariant mop[..] == old(mop[..])
      invariant Filling(written, rs, i, own, pglast, l, mop_len)
      decreases own - i
    {
      RoomLeft(written, rs, i, own, pglast, l, mop_len);
      var len := rs[i].room;
      if len > mop_len {
        len := mop_len;
      }
      pos := pos - len;
      var value := WriteSlice(mop, pos, len);
      ListPart(mop[..], pos, len);
      FillOne(written, rs, i, own, pglast, l, mop_len, len, value);
      written := written + [value];
      mop_len := mop_len - len;
      i := i + 1;
      if mop_len == 0 {
        break;
      }
    }
    assert l[0..] == l;
  }

  lemma ListPart(s: seq<nat>, pos: nat, len: nat)
    requires 0 < |s| && s[0] < |s| && pos + len <= s[0]
    ensures s[pos + 1..pos + len + 1] == List(s, 0)[pos..pos + len]
  {
    var l := List(s, 0);
    assert forall k :: 0 <= k < |l| ==> l[k] == s[k + 1];
  }

  /** After i records: the last part of l, from mop_len on, is written. */
  ghost predicate Filling(written: seq<seq<nat>>, rs: seq<Reserved>, i: nat, own: nat, pglast: nat, l: seq<nat>,
                          mop_len: nat) {
    && i <= own <= |rs| && |written| == i && mop_len <= |l| && StrictDesc(l)
    && Room(rs[..own][i..]) >= mop_len
    && (forall k :: 0 <= k < own ==> rs[k].id <= pglast)
    && (forall k :: 0 <= k < i ==> WellFormed(written[k]) && |written[k]| <= rs[k].room + 1)
    && Joined(written) == l[mop_len..]
  }

  lemma RoomLeft(written: seq<seq<nat>>, rs: seq<Reserved>, i: nat, own: nat, pglast: nat, l: seq<nat>, mop_len: nat)
    requires Filling(written, rs, i, own, pglast, l, mop_len) && mop_len > 0
    ensures i < own && Room(rs[..own][i + 1..]) + rs[i].room >= mop_len
  {
    assert rs[..own][i..][0] == rs[i] && rs[..own][i..][1..] == rs[..own][i + 1..];
  }

  lemma FillOne(written: seq<seq<nat>>, rs: seq<Reserved>, i: nat, own: nat, pglast: nat, l: seq<nat>, mop_len: nat,
                len: nat, value: seq<nat>)
    requires Filling(written, rs, i, own, pglast, l, mop_len) && mop_len > 0
    requires i < |rs| && len == (if rs[i].room > mop_len then mop_len else rs[i].room)
    requires value == [len] + l[mop_len - len..mop_len]
    ensures Filling(written + [value], rs, i + 1, own, pglast, l, mop_len - len)
  {
    hide Room, Joined, WellFormed, StrictDesc, Body;
    RoomLeft(written, rs, i, own, pglast, l, mop_len);
    JoinedPush(written, value);
    ValueOk(l, mop_len - len, len, value);
    assert forall k :: 0 <= k <= i ==> (written + [value])[k] == if k < i then written[k] else value;
    assert l[mop_len - len..] == l[mop_len - len..mop_len] + l[mop_len..];
  }

  lemma ValueOk(l: seq<nat>, pos: nat, len: nat, value: seq<nat>)
    requires StrictDesc(l) && pos + len <= |l| && value == [len] + l[pos..pos + len]
    ensures WellFormed(value) && Body(value) == l[pos..pos + len] && |value| == len + 1
  {
    assert value[1..] == l[pos..pos + len];
  }
}
