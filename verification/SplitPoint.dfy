/** Where mdb_page_split divides a page. */
module SplitPoint {
  /*
   Sizes are the bytes that nodes take in a page with their index entries, always
   even.  Most split points are checked against them, but not that of a page with
   32 nodes or more and a small new node in its middle: then one half may be too
   large for a page, and mdb_node_add answers MDB_PAGE_FULL.
   */

  import opened Sequences

  /** NODESIZE and the index entry: a branch page stores no key with its first node. */
  const FIRST := 10

  function Sum(s: seq<nat>): nat { if |s| == 0 then 0 else s[0] + Sum(s[1..]) }

  lemma {:induction false} SumParts(s: seq<nat>, i: nat)
    requires i <= |s|
    ensures Sum(s) == Sum(s[..i]) + Sum(s[i..])
  {
    if i > 0 {
      SumParts(s[1..], i - 1);
      assert s[..i][1..] == s[1..][..i - 1] && s[1..][i - 1..] == s[i..];
    } else {
      assert s[i..] == s;
    }
  }

  lemma SumNext(s: seq<nat>, i: nat)
    requires i < |s|
    ensures Sum(s[..i + 1]) == Sum(s[..i]) + s[i] && Sum(s[i..]) == s[i] + Sum(s[i + 1..])
  {
    SumParts(s[..i + 1], i);
    assert s[..i + 1][..i] == s[..i] && s[..i + 1][i..] == [s[i]];
    assert s[i..][1..] == s[i + 1..];
  }

  lemma SumInserted(s: seq<nat>, i: nat, x: nat)
    requires i <= |s|
    ensures Sum(Inserted(s, i, x)) == Sum(s) + x
  {
    var t := Inserted(s, i, x);
    SumParts(s, i);
    SumParts(t, i);
    assert t[..i] == s[..i] && t[i..] == [x] + s[i..];
    assert t[i..][1..] == s[i..];
  }

  /** What is true of a page that has no room for the new node. */
  ghost predicate Full(sizes: seq<nat>, nsize: nat, leaf: bool, pmax: nat) {
    && Sum(sizes) <= pmax < Sum(sizes) + nsize
    && FIRST <= nsize && 2 * nsize <= pmax
    && (forall i :: 0 <= i < |sizes| ==> FIRST <= sizes[i] && 2 * sizes[i] <= pmax)
    && (leaf || |sizes| >= 3)
  }

  /** Both pages can hold what they get when entry s begins the new page. */
  ghost predicate Halves(entries: seq<nat>, s: nat, leaf: bool, pmax: nat) {
    && 1 <= s < |entries|
    && Sum(entries[..s]) <= pmax
    && (if leaf then Sum(entries[s..]) else FIRST + Sum(entries[s + 1..])) <= pmax
  }

  /** The split point is checked against the sizes. */
  predicate Checked(n: nat, nsize: nat, newindx: nat, pmax: nat) { n < 32 || nsize > pmax / 16 || newindx >= n }

  /** The new node fits beside the half of the old ones that it joins. */
  ghost predicate Joins(sizes: seq<nat>, nsize: nat, newindx: nat, leaf: bool, pmax: nat)
    requires newindx <= |sizes|
  {
    var s := (|sizes| + 1) / 2;
    if newindx < s then Sum(sizes[..s - 1]) + nsize <= pmax
    else if leaf then Sum(sizes[s..]) + nsize <= pmax
    else newindx == s || FIRST + Sum(sizes[s + 1..]) + nsize <= pmax
  }

  lemma TwoAtLeast(sizes: seq<nat>, nsize: nat, leaf: bool, pmax: nat)
    requires Full(sizes, nsize, leaf, pmax)
    ensures |sizes| >= 2
  {
    if |sizes| == 1 {
      SumOne(sizes);
    }
  }

  lemma SumOne(s: seq<nat>)
    requires |s| == 1
    ensures Sum(s) == s[0]
  {
  }

  lemma SumNone(s: seq<nat>)
    ensures Sum(s[..0]) == 0 && Sum(s[|s|..]) == 0
  {
  }

  /** Each entry takes at most half a page. */
  lemma EntrySize(sizes: seq<nat>, nsize: nat, newindx: nat, leaf: bool, pmax: nat, i: nat)
    requires Full(sizes, nsize, leaf, pmax) && newindx <= |sizes| && i <= |sizes|
    ensures var e := Inserted(sizes, newindx, nsize)[i];
            FIRST <= e && 2 * e <= pmax && e == if i == newindx then nsize else sizes[if i < newindx then i else i - 1]
  {
  }

  /** The halves of the entries, in terms of those of the old nodes. */
  lemma CutInserted(sizes: seq<nat>, newindx: nat, nsize: nat, s: nat)
    requires newindx <= |sizes| && s <= |sizes| + 1
    ensures var entries := Inserted(sizes, newindx, nsize);
            if newindx < s then
              entries[..s] == Inserted(sizes[..s - 1], newindx, nsize) && entries[s..] == sizes[s - 1..]
            else entries[..s] == sizes[..s] && entries[s..] == Inserted(sizes[s..], newindx - s, nsize)
  {
  }

  /** The search from the left stops at entry i, with the entries before it in the page. */
  lemma LeftStop(sizes: seq<nat>, nsize: nat, newindx: nat, leaf: bool, pmax: nat, i: nat)
    requires Full(sizes, nsize, leaf, pmax) && newindx <= |sizes| && 1 <= i <= |sizes|
    requires var entries := Inserted(sizes, newindx, nsize);
             && Sum(entries[..i]) <= pmax
             && (Sum(entries[..i + 1]) > pmax || i > newindx || (!leaf && i == newindx)
                 || (newindx == |sizes| == i + 1))
    ensures Halves(Inserted(sizes, newindx, nsize), i, leaf, pmax)
  {
    hide Sum, Inserted;
    var entries := Inserted(sizes, newindx, nsize);
    EntrySize(sizes, nsize, newindx, leaf, pmax, i);
    SumParts(entries, i);
    SumNext(entries, i);
    SumInserted(sizes, newindx, nsize);
    CutInserted(sizes, newindx, nsize, i);
    CutInserted(sizes, newindx, nsize, i + 1);
    if Sum(entries[..i + 1]) <= pmax {
      if i > newindx {
        SumParts(sizes, i - 1);
      } else if newindx == i {
        SumParts(sizes, i - 1);
        SumNext(sizes, i - 1);
      } else {
        SumNext(entries, i + 1);
        SumNone(entries);
      }
    }
  }

  /** The search from the right stops at entry i, the last one of the old page. */
  lemma RightStop(sizes: seq<nat>, nsize: nat, newindx: nat, leaf: bool, pmax: nat, i: nat)
    requires Full(sizes, nsize, leaf, pmax) && newindx <= |sizes| && i < |sizes|
    requires var entries := Inserted(sizes, newindx, nsize);
             Sum(entries[i + 1..]) <= pmax && (Sum(entries[i..]) > pmax || i < newindx)
    ensures Halves(Inserted(sizes, newindx, nsize), i + 1, leaf, pmax)
  {
    hide Sum, Inserted;
    var entries := Inserted(sizes, newindx, nsize);
    EntrySize(sizes, nsize, newindx, leaf, pmax, i);
    EntrySize(sizes, nsize, newindx, leaf, pmax, i + 1);
    SumParts(entries, i + 1);
    SumNext(entries, i);
    SumNext(entries, i + 1);
    SumInserted(sizes, newindx, nsize);
    CutInserted(sizes, newindx, nsize, i + 1);
    if Sum(entries[i..]) <= pmax {
      SumParts(sizes, i + 1);
    }
  }

  /** In the middle, unchecked: the half with the new node decides. */
  lemma Middle(sizes: seq<nat>, nsize: nat, newindx: nat, leaf: bool, pmax: nat)
    requires Full(sizes, nsize, leaf, pmax) && newindx < |sizes|
    ensures Halves(Inserted(sizes, newindx, nsize), (|sizes| + 1) / 2, leaf, pmax)
            <==> Joins(sizes, nsize, newindx, leaf, pmax)
  {
    hide Sum, Inserted;
    TwoAtLeast(sizes, nsize, leaf, pmax);
    var s := (|sizes| + 1) / 2;
    if newindx < s {
      MiddleLeft(sizes, nsize, newindx, leaf, pmax, s);
    } else {
      MiddleRight(sizes, nsize, newindx, leaf, pmax, s);
    }
  }

  lemma MiddleLeft(sizes: seq<nat>, nsize: nat, newindx: nat, leaf: bool, pmax: nat, s: nat)
    requires Full(sizes, nsize, leaf, pmax) && newindx < s < |sizes|
    ensures Halves(Inserted(sizes, newindx, nsize), s, leaf, pmax) <==> Sum(sizes[..s - 1]) + nsize <= pmax
  {
    hide Sum, Inserted;
    CutInserted(sizes, newindx, nsize, s);
    CutInserted(sizes, newindx, nsize, s + 1);
    SumInserted(sizes[..s - 1], newindx, nsize);
    SumParts(sizes, s - 1);
    SumNext(sizes, s - 1);
  }

  lemma MiddleRight(sizes: seq<nat>, nsize: nat, newindx: nat, leaf: bool, pmax: nat, s: nat)
    requires Full(sizes, nsize, leaf, pmax) && 1 <= s <= newindx < |sizes|
    ensures Halves(Inserted(sizes, newindx, nsize), s, leaf, pmax)
            <==> if leaf then Sum(sizes[s..]) + nsize <= pmax
                 else newindx == s || FIRST + Sum(sizes[s + 1..]) + nsize <= pmax
  {
    hide Sum, Inserted;
    CutInserted(sizes, newindx, nsize, s);
    CutInserted(sizes, newindx, nsize, s + 1);
    SumInserted(sizes[s..], newindx - s, nsize);
    SumParts(sizes, s);
    SumNext(sizes, s - 1);
    if newindx > s {
      SumInserted(sizes[s + 1..], newindx - s - 1, nsize);
    }
  }

  lemma FirstTwo(s: seq<nat>)
    requires |s| >= 2
    ensures Sum(s[..0]) == 0 && Sum(s[..1]) == s[0] && Sum(s[..2]) == s[0] + s[1]
  {
    hide Sum;
    SumNone(s);
    SumNext(s, 0);
    SumNext(s, 1);
  }

  lemma LastTwo(s: seq<nat>)
    requires |s| >= 2
    ensures Sum(s[|s|..]) == 0 && Sum(s[|s| - 1..]) == s[|s| - 1] && Sum(s[|s| - 2..]) == s[|s| - 2] + s[|s| - 1]
  {
    hide Sum;
    SumNone(s);
    SumNext(s, |s| - 1);
    SumNext(s, |s| - 2);
  }

  lemma TwoEntries(sizes: seq<nat>, nsize: nat, newindx: nat, leaf: bool, pmax: nat, i: nat)
    requires Full(sizes, nsize, leaf, pmax) && newindx <= |sizes|
    ensures var entries := Inserted(sizes, newindx, nsize);
            && (i <= 2 && i <= |entries| ==> Sum(entries[..i]) <= pmax)
            && (i + 2 >= |entries| && i <= |entries| ==> Sum(entries[i..]) <= pmax)
  {
    hide Sum, Inserted;
    TwoAtLeast(sizes, nsize, leaf, pmax);
    var entries := Inserted(sizes, newindx, nsize);
    FirstTwo(entries);
    LastTwo(entries);
    EntrySize(sizes, nsize, newindx, leaf, pmax, 0);
    EntrySize(sizes, nsize, newindx, leaf, pmax, 1);
    EntrySize(sizes, nsize, newindx, leaf, pmax, |sizes| - 1);
    EntrySize(sizes, nsize, newindx, leaf, pmax, |sizes|);
  }

  /** Which point it is: the middle, or one next to it; a new node at the very end
      leaves the left page as full as it can be; and where the part that takes the
      new node would not fit, as much of it as fits. */
  ghost predicate NearMiddle(sizes: seq<nat>, nsize: nat, newindx: nat, leaf: bool, pmax: nat, split: nat)
    requires newindx <= |sizes|
  {
    var entries, nkeys, half := Inserted(sizes, newindx, nsize), |sizes|, (|sizes| + 1) / 2;
    if !Checked(nkeys, nsize, newindx, pmax) then split == half
    else if newindx <= half || newindx >= nkeys then
      var most := if newindx >= nkeys then nkeys - 1 else half + if leaf then 1 else 0;
      split == most || (split < most && Sum(entries[..split + 1]) > pmax)
    else split == half + 1 || (half + 1 < split <= |entries| && Sum(entries[split - 1..]) > pmax)
  }

  /** The split point of mdb_page_split. */
  method SplitIndex(sizes: seq<nat>, nsize: nat, newindx: nat, leaf: bool, pmax: nat) returns (split: nat)
    requires Full(sizes, nsize, leaf, pmax) && newindx <= |sizes|
    ensures var least := if leaf then 1 else 2; least <= split <= |sizes| + 1 - least
    ensures Halves(Inserted(sizes, newindx, nsize), split, leaf, pmax)
            <==> Checked(|sizes|, nsize, newindx, pmax) || Joins(sizes, nsize, newindx, leaf, pmax)
    ensures NearMiddle(sizes, nsize, newindx, leaf, pmax, split)
  {
    hide Halves, Joins, Full, Sum;
    TwoAtLeast(sizes, nsize, leaf, pmax);
    BranchSize(sizes, nsize, leaf, pmax);
    ghost var entries := Inserted(sizes, newindx, nsize);
    var nkeys := |sizes|;
    split := (nkeys + 1) / 2;
    if nkeys < 32 || nsize > pmax / 16 || newindx >= nkeys {
      var psize, i: int, j, k := 0, 0, 1, 0;
      if newindx <= split || newindx >= nkeys {
        k := if newindx >= nkeys then nkeys else split + 1 + if leaf then 1 else 0;
      } else {
        i, j, k := nkeys, -1, split - 1;
      }
      ghost var half := split;
      SumNone(entries);
      while i != k
        invariant if j > 0 then 0 <= i <= k && psize == Sum(entries[..i])
                  else k <= i <= nkeys && psize == Sum(entries[i + 1..])
        invariant psize <= pmax && 0 <= k <= |entries| && i != k
        invariant split == half
        decreases j * (k - i)
      {
        TwoEntries(sizes, nsize, newindx, leaf, pmax, if j > 0 then i + 1 else i);
        EntrySize(sizes, nsize, newindx, leaf, pmax, i);
        SumNext(entries, i);
        psize := psize + if i == newindx then nsize else sizes[if i < newindx then i else i - 1];
        if psize > pmax || i == k - j {
          split := i + if j < 0 then 1 else 0;
          if j > 0 {
            LeftStop(sizes, nsize, newindx, leaf, pmax, i);
          } else {
            RightStop(sizes, nsize, newindx, leaf, pmax, i);
          }
          break;
        }
        i := i + j;
      }
    } else {
      Middle(sizes, nsize, newindx, leaf, pmax);
    }
  }

  lemma BranchSize(sizes: seq<nat>, nsize: nat, leaf: bool, pmax: nat)
    requires Full(sizes, nsize, leaf, pmax)
    ensures leaf || |sizes| >= 3
  {
  }

  lemma {:induction false} SumAtMost(s: seq<nat>, most: nat)
    requires forall i :: 0 <= i < |s| ==> s[i] <= most
    ensures Sum(s) <= |s| * most
  {
    if |s| > 0 {
      SumAtMost(s[1..], most);
      assert |s| * most == most + (|s| - 1) * most;
    }
  }

  /** A page has no room for a node only if it has k nodes, when k of any size fit. */
  lemma FullHasNodes(sizes: seq<nat>, nsize: nat, most: nat, k: nat, pmax: nat)
    requires (forall i :: 0 <= i < |sizes| ==> sizes[i] <= most) && nsize <= most
    requires k * most <= pmax < Sum(sizes) + nsize
    ensures |sizes| >= k
  {
    SumAtMost(sizes, most);
    assert (|sizes| + 1) * most == |sizes| * most + most;
    if |sizes| < k {
      MoreTimes(|sizes| + 1, k, most);
    }
  }

  // ------------------------------------------------------------ how it fails

  function Equal(n: nat, x: nat): (s: seq<nat>)
    ensures |s| == n && forall i :: 0 <= i < n ==> s[i] == x
  {
    seq(n, _ => x)
  }

  lemma {:induction false} SumEqual(n: nat, x: nat)
    ensures Sum(Equal(n, x)) == n * x
  {
    if n > 0 {
      assert Equal(n, x)[1..] == Equal(n - 1, x);
      SumEqual(n - 1, x);
      assert n * x == x + (n - 1) * x;
    }
  }

  /** A leaf of 16 small nodes and 16 of 242 bytes, in a page of 4096 bytes: a node
      of 254 bytes among the large ones leaves no page that can hold the second half. */
  lemma HalfOverflows() returns (sizes: seq<nat>)
    ensures Full(sizes, 254, true, 4080) && |sizes| == 32
    ensures !Checked(|sizes|, 254, 20, 4080) && !Joins(sizes, 254, 20, true, 4080)
    ensures !Halves(Inserted(sizes, 20, 254), 16, true, 4080)
  {
    sizes := Equal(16, 12) + Equal(16, 242);
    SumEqual(16, 12);
    SumEqual(16, 242);
    SumParts(sizes, 16);
    assert sizes[..16] == Equal(16, 12) && sizes[16..] == Equal(16, 242);
    Middle(sizes, 254, 20, true, 4080);
  }

  lemma {:induction false} SumAtLeast(s: seq<nat>, least: nat)
    requires forall i :: 0 <= i < |s| ==> s[i] >= least
    ensures Sum(s) >= |s| * least
  {
    if |s| > 0 {
      SumAtLeast(s[1..], least);
      assert |s| * least == least + (|s| - 1) * least;
    }
  }

  /** With enough nodes in the page the unchecked split point is right, too. */
  lemma ManyNodesFit(sizes: seq<nat>, nsize: nat, newindx: nat, leaf: bool, pmax: nat, least: nat)
    requires Full(sizes, nsize, leaf, pmax) && newindx < |sizes| && !Checked(|sizes|, nsize, newindx, pmax)
    requires (forall i :: 1 <= i < |sizes| ==> sizes[i] >= least) && (|sizes| / 2 - 1) * least >= pmax / 16
    ensures Joins(sizes, nsize, newindx, leaf, pmax)
  {
    hide Sum;
    var s := (|sizes| + 1) / 2;
    if newindx < s {
      SumParts(sizes, s - 1);
      SumAtLeast(sizes[s - 1..], least);
      MoreTimes(|sizes| / 2 - 1, |sizes[s - 1..]|, least);
    } else {
      SumParts(sizes, s);
      SumParts(sizes[..s], 1);
      SumAtLeast(sizes[..s][1..], least);
      MoreTimes(|sizes| / 2 - 1, |sizes[..s][1..]|, least);
      SumNext(sizes, s);
    }
  }

  lemma MoreTimes(a: nat, b: nat, x: nat)
    requires a <= b
    ensures a * x <= b * x
  {
  }
}
