/**
 The keys of branch nodes.

 Every page but the root hangs at one branch node, so the key of that node is
 kept under the number of the page.  The first node of a page has no key.  A
 key is right when all items before the page it leads to have smaller keys and
 all others do not.

 `RowKeyed` says this of the pages of one row, given where their children begin
 in the sequence of items, and `KeyedTo` of all rows from some row up.  The rest
 is about single changes: another cut and key for one child, a child more or
 less, nodes that go over to the neighbour, a page that is torn in two.
 */
module Separators {
  import opened Sequences
  import opened Levels

  type Keys = map<Id, int>

  function KeyOf(keys: Keys, id: Id): int { if id in keys then keys[id] else 0 }

  /** K separates the first s of these keys from the others. */
  ghost predicate Parts(ks: seq<int>, s: nat, K: int) {
    && (forall i :: 0 <= i < s && i < |ks| ==> ks[i] < K)
    && (forall i :: s <= i < |ks| ==> K <= ks[i])
  }

  ghost predicate Sorted(ks: seq<int>) { forall i, j :: 0 <= i < j < |ks| ==> ks[i] < ks[j] }

  /** The cut at the given index. */
  function Cut(cuts: seq<nat>, i: nat): nat { if i < |cuts| then cuts[i] else 0 }

  /** Given where the children of these pages begin in the sequence of items, where the pages begin. */
  ghost function CutsUp(pages: Pages, row: seq<Id>, cuts: seq<nat>): (r: seq<nat>)
    ensures |r| == |row| && forall t :: 0 <= t < |row| ==> r[t] == Cut(cuts, Start(pages, row, t))
  {
    seq(|row|, t requires 0 <= t < |row| => Cut(cuts, Start(pages, row, t)))
  }

  /** Where the leaves of this row begin. */
  ghost function Starts(pages: Pages, row: seq<Id>): (r: seq<nat>)
    ensures |r| == |row| && forall t :: 0 <= t < |row| ==> r[t] == Start(pages, row, t)
  {
    seq(|row|, t requires 0 <= t < |row| => Start(pages, row, t))
  }

  /** The keys in the pages of this row are right. */
  ghost predicate RowKeyed(pages: Pages, row: seq<Id>, cuts: seq<nat>, keys: Keys, ks: seq<int>) {
    forall t, k :: 0 <= t < |row| && 1 <= k < |Nodes(pages, row[t])| ==>
      Parts(ks, Cut(cuts, Start(pages, row, t) + k), KeyOf(keys, Nodes(pages, row[t])[k]))
  }

  /** The keys in the pages of the rows above row m are right, the pages of row m beginning at the cuts. */
  ghost predicate KeyedTo(pages: Pages, lv: seq<seq<int>>, m: nat, cuts: seq<nat>, keys: Keys, ks: seq<int>)
    requires m < |lv|
  {
    m == 0 || (RowKeyed(pages, lv[m - 1], cuts, keys, ks)
               && KeyedTo(pages, lv, m - 1, CutsUp(pages, lv[m - 1], cuts), keys, ks))
  }

  /** The keys in all pages are right for items with these keys. */
  ghost predicate Keyed(pages: Pages, lv: seq<seq<int>>, keys: Keys, ks: seq<int>) {
    |lv| >= 2 && Sorted(ks) && |ks| == |lv[|lv| - 1]|
        && KeyedTo(pages, lv, |lv| - 2, Starts(pages, lv[|lv| - 2]), keys, ks)
  }

  // ------------------------------------------------------------ what matters

  lemma UpSame(pages: Pages, pages': Pages, row: seq<Id>, cuts: seq<nat>)
    requires SameOn(pages, pages', row)
    ensures CutsUp(pages', row, cuts) == CutsUp(pages, row, cuts) && Starts(pages', row) == Starts(pages, row)
  {
    hide Joined, Nodes, SameOn;
    forall t | 0 <= t < |row| ensures Start(pages', row, t) == Start(pages, row, t) {
      LinkSame(pages, pages', row, t, row[t]);
    }
  }

  lemma RowSame(pages: Pages, pages': Pages, row: seq<Id>, cuts: seq<nat>, keys: Keys, keys': Keys, ks: seq<int>)
    requires SameOn(pages, pages', row) && RowKeyed(pages, row, cuts, keys, ks)
    requires forall t, k :: 0 <= t < |row| && 1 <= k < |Nodes(pages, row[t])| ==>
               KeyOf(keys', Nodes(pages, row[t])[k]) == KeyOf(keys, Nodes(pages, row[t])[k])
    ensures RowKeyed(pages', row, cuts, keys', ks)
  {
    hide Joined, Nodes, SameOn, KeyOf, Parts;
    forall t, k | 0 <= t < |row| && 1 <= k < |Nodes(pages', row[t])|
      ensures Parts(ks, Cut(cuts, Start(pages', row, t) + k), KeyOf(keys', Nodes(pages', row[t])[k]))
    {
      LinkSame(pages, pages', row, t, row[t]);
    }
  }

  /** The keys of the pages in this row are the same. */
  ghost predicate SameKeys(keys: Keys, keys': Keys, row: seq<Id>) {
    forall i :: 0 <= i < |row| ==> KeyOf(keys', row[i]) == KeyOf(keys, row[i])
  }

  lemma NodesInRow(pages: Pages, root: Id, lv: seq<seq<int>>, l: nat, keys: Keys, keys': Keys)
    requires Rows(pages, root, lv) && l < |lv| - 1 && SameKeys(keys, keys', lv[l + 1])
    ensures forall t, k :: 0 <= t < |lv[l]| && 0 <= k < |Nodes(pages, lv[l][t])| ==>
              KeyOf(keys', Nodes(pages, lv[l][t])[k]) == KeyOf(keys, Nodes(pages, lv[l][t])[k])
  {
    hide Joined, Nodes, KeyOf;
    forall t, k | 0 <= t < |lv[l]| && 0 <= k < |Nodes(pages, lv[l][t])|
      ensures KeyOf(keys', Nodes(pages, lv[l][t])[k]) == KeyOf(keys, Nodes(pages, lv[l][t])[k])
    {
      NodeAt(pages, lv[l], t, k);
      assert lv[l + 1] == Joined(pages, lv[l]);
    }
  }

  /** Only the pages above row m and the keys down to it matter. */
  lemma {:induction false} KeyedSame(pages: Pages, root: Id, lv: seq<seq<int>>, pages': Pages, lv': seq<seq<int>>,
                                     m: nat, cuts: seq<nat>, keys: Keys, keys': Keys, ks: seq<int>)
    requires Rows(pages, root, lv) && m < |lv| && m < |lv'| && KeyedTo(pages, lv, m, cuts, keys, ks)
    requires (forall l :: 0 <= l < m ==> lv'[l] == lv[l] && SameOn(pages, pages', lv[l]))
             && forall l :: 1 <= l <= m ==> SameKeys(keys, keys', lv[l])
    ensures KeyedTo(pages', lv', m, cuts, keys', ks)
  {
    hide Joined, Nodes, SameOn, KeyOf, RowKeyed, SameKeys, Rows;
    if m > 0 {
      NodesInRow(pages, root, lv, m - 1, keys, keys');
      RowSame(pages, pages', lv[m - 1], cuts, keys, keys', ks);
      UpSame(pages, pages', lv[m - 1], cuts);
      KeyedSame(pages, root, lv, pages', lv', m - 1, CutsUp(pages, lv[m - 1], cuts), keys, keys', ks);
    }
  }

  /** Where the pages of row l begin, given it for row m below. */
  ghost function CutsAt(pages: Pages, lv: seq<seq<int>>, m: nat, cuts: seq<nat>, l: nat): seq<nat>
    requires l <= m < |lv|
    decreases m
  {
    if l == m then cuts else CutsAt(pages, lv, m - 1, CutsUp(pages, lv[m - 1], cuts), l)
  }

  lemma {:induction false} KeyedUpper(pages: Pages, lv: seq<seq<int>>, m: nat, cuts: seq<nat>, keys: Keys, ks: seq<int>,
                                      l: nat)
    requires l <= m < |lv| && KeyedTo(pages, lv, m, cuts, keys, ks)
    ensures KeyedTo(pages, lv, l, CutsAt(pages, lv, m, cuts, l), keys, ks)
  {
    hide Joined, Nodes, KeyOf, RowKeyed, Parts, Cut;
    if l < m {
      KeyedUpper(pages, lv, m - 1, CutsUp(pages, lv[m - 1], cuts), keys, ks, l);
    }
  }

  /** The rows from l on are those from l' on in the new tree, with the same pages and keys. */
  ghost predicate LowerSame(pages: Pages, lv: seq<seq<int>>, pages': Pages, lv': seq<seq<int>>, l: nat, l': nat, m: nat,
                            keys: Keys, keys': Keys) {
    && l <= m < |lv| && |lv'| == |lv| - l + l'
    && lv'[l'..l' + m - l] == lv[l..m]
    && (forall i :: l <= i < m ==> SameOn(pages, pages', lv[i]))
    && forall i :: l < i <= m ==> SameKeys(keys, keys', lv[i])
  }

  /** A change above row l leaves the keys right if they are right down to row l. */
  lemma {:induction false} KeyedLower(pages: Pages, root: Id, lv: seq<seq<int>>, pages': Pages, lv': seq<seq<int>>,
                                      l: nat, l': nat, m: nat, cuts: seq<nat>, keys: Keys, keys': Keys, ks: seq<int>)
    requires Rows(pages, root, lv) && LowerSame(pages, lv, pages', lv', l, l', m, keys, keys')
             && KeyedTo(pages, lv, m, cuts, keys, ks)
    requires KeyedTo(pages', lv', l', CutsAt(pages, lv, m, cuts, l), keys', ks)
    ensures KeyedTo(pages', lv', m - l + l', cuts, keys', ks)
  {
    hide Joined, Nodes, SameOn, KeyOf, RowKeyed, SameKeys, Rows;
    if l < m {
      assert lv'[m - 1 - l + l'] == lv'[l'..l' + m - l][m - 1 - l] == lv[l..m][m - 1 - l] == lv[m - 1];
      assert lv'[l'..l' + (m - 1) - l] == lv'[l'..l' + m - l][..m - 1 - l] && lv[l..m - 1] == lv[l..m][..m - 1 - l];
      NodesInRow(pages, root, lv, m - 1, keys, keys');
      RowSame(pages, pages', lv[m - 1], cuts, keys, keys', ks);
      UpSame(pages, pages', lv[m - 1], cuts);
      KeyedLower(pages, root, lv, pages', lv', l, l', m - 1, CutsUp(pages, lv[m - 1], cuts), keys, keys', ks);
    }
  }

  // ------------------------------------------ one child among others of a page

  /** Keys that differ for one page at most. */
  ghost predicate KeysBut(keys: Keys, keys': Keys, id: Id) { forall y :: y != id ==> KeyOf(keys', y) == KeyOf(keys, y) }

  /** Rows without the page keep their keys. */
  lemma KeysElsewhere(lv: seq<seq<int>>, L: nat, j: nat, keys: Keys, keys': Keys)
    requires Distinct(lv) && L < |lv| - 1 && j < |lv[L]| && KeysBut(keys, keys', lv[L][j])
    ensures forall l :: 0 <= l < |lv| - 1 && l != L ==> SameKeys(keys, keys', lv[l])
  {
    hide Distinct, KeyOf;
    forall l | 0 <= l < |lv| - 1 && l != L ensures SameKeys(keys, keys', lv[l]) {
      forall i | 0 <= i < |lv[l]| ensures lv[l][i] != lv[L][j] {
        Places(lv, l, i, L, j);
      }
    }
  }

  lemma KeysFresh(lv: seq<seq<int>>, id: Id, keys: Keys, keys': Keys)
    requires Fresh(lv, id) && KeysBut(keys, keys', id)
    ensures forall l :: 0 <= l < |lv| - 1 ==> SameKeys(keys, keys', lv[l])
  {
    hide KeyOf;
  }

  /** A child that is not the first of its page begins where no page begins. */
  lemma NotFirst(pages: Pages, row: seq<Id>, t: nat, kp: nat, t2: nat)
    requires t < |row| && 1 <= kp < |Nodes(pages, row[t])| && t2 < |row|
    ensures Start(pages, row, t2) != Start(pages, row, t) + kp
  {
    hide Joined, Nodes;
    if t2 < t {
      StartGrows(pages, row, t2, t);
    } else if t2 > t {
      StartGrows(pages, row, t, t2);
    }
  }

  /** Another cut and another key for a child that is not the first of its page. */
  lemma KeyedRecut(pages: Pages, root: Id, lv: seq<seq<int>>, L: nat, t: nat, kp: nat, cuts: seq<nat>, c: nat,
                   keys: Keys, keys': Keys, ks: seq<int>)
    requires Rows(pages, root, lv) && Distinct(lv) && 1 <= L < |lv| - 1 && t < |lv[L - 1]|
             && 1 <= kp < |Nodes(pages, lv[L - 1][t])|
    requires |cuts| == |lv[L]| && KeyedTo(pages, lv, L, cuts, keys, ks)
    requires var j := Start(pages, lv[L - 1], t) + kp;
             j < |lv[L]| && Parts(ks, c, KeyOf(keys', lv[L][j])) && KeysBut(keys, keys', lv[L][j])
    ensures KeyedTo(pages, lv, L, cuts[Start(pages, lv[L - 1], t) + kp := c], keys', ks)
  {
    hide Joined, Nodes, Distinct, KeyOf, Parts;
    var row, j := lv[L - 1], Start(pages, lv[L - 1], t) + kp;
    var cuts' := cuts[j := c];
    assert lv[L] == Joined(pages, row);
    forall t2, k | 0 <= t2 < |row| && 1 <= k < |Nodes(pages, row[t2])|
      ensures Parts(ks, Cut(cuts', Start(pages, row, t2) + k), KeyOf(keys', Nodes(pages, row[t2])[k]))
    {
      NodeAt(pages, row, t2, k);
      Places(lv, L, Start(pages, row, t2) + k, L, j);
      assert Parts(ks, Cut(cuts, Start(pages, row, t2) + k), KeyOf(keys, Nodes(pages, row[t2])[k]));
    }
    forall t2 | 0 <= t2 < |row| ensures Cut(cuts', Start(pages, row, t2)) == Cut(cuts, Start(pages, row, t2)) {
      NotFirst(pages, row, t, kp, t2);
    }
    assert CutsUp(pages, row, cuts') == CutsUp(pages, row, cuts);
    KeysElsewhere(lv, L, j, keys, keys');
    SameToItself(pages, lv);
    KeyedSame(pages, root, lv, pages, lv, L - 1, CutsUp(pages, row, cuts), keys, keys', ks);
  }

  lemma SameToItself(pages: Pages, lv: seq<seq<int>>)
    ensures forall l :: 0 <= l < |lv| ==> SameOn(pages, pages, lv[l])
  {
  }

  /** One more child, not the first, in page t of row L - 1. */
  lemma KeyedLink(pages: Pages, root: Id, lv: seq<seq<int>>, L: nat, t: nat, kp: nat, rp: Id, cuts: seq<nat>, c: nat,
                  keys: Keys, keys': Keys, ks: seq<int>, pages': Pages, lv': seq<seq<int>>)
    requires Rows(pages, root, lv) && Distinct(lv) && 1 <= L < |lv| - 1 && t < |lv[L - 1]|
             && kp < |Nodes(pages, lv[L - 1][t])|
    requires |cuts| == |lv[L]| && KeyedTo(pages, lv, L, cuts, keys, ks) && Fresh(lv, rp)
    requires Start(pages, lv[L - 1], t) + kp + 1 <= |lv[L]|
    requires Parts(ks, c, KeyOf(keys', rp)) && KeysBut(keys, keys', rp)
    requires Nodes(pages', lv[L - 1][t]) == Inserted(Nodes(pages, lv[L - 1][t]), kp + 1, rp)
    requires SameOn(pages, pages', lv[L - 1][..t]) && SameOn(pages, pages', lv[L - 1][t + 1..])
    requires L < |lv'| && forall l :: 0 <= l < L ==> lv'[l] == lv[l]
    requires forall l :: 0 <= l < L - 1 ==> SameOn(pages, pages', lv[l])
    ensures KeyedTo(pages', lv', L, Inserted(cuts, Start(pages, lv[L - 1], t) + kp + 1, c), keys', ks)
  {
    hide Joined, Nodes, Distinct, KeyOf, Parts, SameOn, Rows;
    var row, j := lv[L - 1], Start(pages, lv[L - 1], t) + kp + 1;
    var cuts' := Inserted(cuts, j, c);
    JoinedEdit(pages, pages', row, t);
    KeysFresh(lv, rp, keys, keys');
    NodesInRow(pages, root, lv, L - 1, keys, keys');
    forall t2, k | 0 <= t2 < |row| && 1 <= k < |Nodes(pages', row[t2])|
      ensures Parts(ks, Cut(cuts', Start(pages', row, t2) + k), KeyOf(keys', Nodes(pages', row[t2])[k]))
    {
      LinkedNode(pages, pages', row, t, kp, rp, cuts, c, keys, keys', ks, t2, k);
    }
    forall t2 | 0 <= t2 < |row| ensures Cut(cuts', Start(pages', row, t2)) == Cut(cuts, Start(pages, row, t2)) {
      if t2 > t {
        StartGrows(pages, row, t, t2);
      } else if t2 < t {
        StartGrows(pages, row, t2, t);
      }
    }
    assert CutsUp(pages', row, cuts') == CutsUp(pages, row, cuts);
    KeyedSame(pages, root, lv, pages', lv', L - 1, CutsUp(pages, row, cuts), keys, keys', ks);
  }

  lemma LinkedNode(pages: Pages, pages': Pages, row: seq<Id>, t: nat, kp: nat, rp: Id, cuts: seq<nat>, c: nat,
                   keys: Keys, keys': Keys, ks: seq<int>, t2: nat, k: nat)
    requires t < |row| && kp < |Nodes(pages, row[t])| && Start(pages, row, t) + kp + 1 <= |cuts|
             && RowKeyed(pages, row, cuts, keys, ks)
    requires Parts(ks, c, KeyOf(keys', rp)) && Nodes(pages', row[t]) == Inserted(Nodes(pages, row[t]), kp + 1, rp)
    requires SameOn(pages, pages', row[..t]) && SameOn(pages, pages', row[t + 1..])
    requires forall i :: 0 <= i <= t ==> Start(pages', row, i) == Start(pages, row, i)
    requires forall i :: t < i <= |row| ==> Start(pages', row, i) == Start(pages, row, i) + 1
    requires forall t, k :: 0 <= t < |row| && 0 <= k < |Nodes(pages, row[t])| ==>
               KeyOf(keys', Nodes(pages, row[t])[k]) == KeyOf(keys, Nodes(pages, row[t])[k])
    requires t2 < |row| && 1 <= k < |Nodes(pages', row[t2])|
    ensures Parts(ks, Cut(Inserted(cuts, Start(pages, row, t) + kp + 1, c), Start(pages', row, t2) + k),
                  KeyOf(keys', Nodes(pages', row[t2])[k]))
  {
    hide Joined, Nodes, KeyOf, Parts, SameOn;
    var j := Start(pages, row, t) + kp + 1;
    if t2 == t {
      var k0 := if k > kp + 1 then k - 1 else k;
      if k != kp + 1 {
        assert Parts(ks, Cut(cuts, Start(pages, row, t) + k0), KeyOf(keys, Nodes(pages, row[t])[k0]));
      }
    } else {
      SameAt(pages, pages', row, t, t2);
      if t2 > t {
        StartGrows(pages, row, t, t2);
      } else {
        StartGrows(pages, row, t2, t);
      }
      assert Parts(ks, Cut(cuts, Start(pages, row, t2) + k), KeyOf(keys, Nodes(pages, row[t2])[k]));
    }
  }

  /** One child less, not the first, in page t of row L - 1. */
  lemma KeyedUnlink(pages: Pages, root: Id, lv: seq<seq<int>>, L: nat, t: nat, kp: nat, cuts: seq<nat>, keys: Keys,
                    ks: seq<int>, pages': Pages, lv': seq<seq<int>>)
    requires Rows(pages, root, lv) && 1 <= L < |lv| - 1 && t < |lv[L - 1]| && 1 <= kp < |Nodes(pages, lv[L - 1][t])|
    requires |cuts| == |lv[L]| && KeyedTo(pages, lv, L, cuts, keys, ks) && Start(pages, lv[L - 1], t) + kp < |lv[L]|
    requires Nodes(pages', lv[L - 1][t]) == Without(Nodes(pages, lv[L - 1][t]), kp)
    requires SameOn(pages, pages', lv[L - 1][..t]) && SameOn(pages, pages', lv[L - 1][t + 1..])
    requires L < |lv'| && forall l :: 0 <= l < L ==> lv'[l] == lv[l]
    requires forall l :: 0 <= l < L - 1 ==> SameOn(pages, pages', lv[l])
    ensures KeyedTo(pages', lv', L, Without(cuts, Start(pages, lv[L - 1], t) + kp), keys, ks)
  {
    hide Joined, Nodes, KeyOf, Parts, SameOn, Rows;
    var row, j := lv[L - 1], Start(pages, lv[L - 1], t) + kp;
    var cuts' := Without(cuts, j);
    JoinedEdit(pages, pages', row, t);
    forall t2, k | 0 <= t2 < |row| && 1 <= k < |Nodes(pages', row[t2])|
      ensures Parts(ks, Cut(cuts', Start(pages', row, t2) + k), KeyOf(keys, Nodes(pages', row[t2])[k]))
    {
      UnlinkedNode(pages, pages', row, t, kp, cuts, keys, ks, t2, k);
    }
    forall t2 | 0 <= t2 < |row| ensures Cut(cuts', Start(pages', row, t2)) == Cut(cuts, Start(pages, row, t2)) {
      if t2 > t {
        StartGrows(pages, row, t, t2);
      } else if t2 < t {
        StartGrows(pages, row, t2, t);
      }
    }
    assert CutsUp(pages', row, cuts') == CutsUp(pages, row, cuts);
    forall l | 1 <= l <= L - 1 ensures SameKeys(keys, keys, lv[l]) {
    }
    KeyedSame(pages, root, lv, pages', lv', L - 1, CutsUp(pages, row, cuts), keys, keys, ks);
  }

  lemma UnlinkedNode(pages: Pages, pages': Pages, row: seq<Id>, t: nat, kp: nat, cuts: seq<nat>, keys: Keys,
                     ks: seq<int>, t2: nat, k: nat)
    requires t < |row| && 1 <= kp < |Nodes(pages, row[t])| && Start(pages, row, t) + kp < |cuts|
             && RowKeyed(pages, row, cuts, keys, ks)
    requires Nodes(pages', row[t]) == Without(Nodes(pages, row[t]), kp)
    requires SameOn(pages, pages', row[..t]) && SameOn(pages, pages', row[t + 1..])
    requires forall i :: 0 <= i <= t ==> Start(pages', row, i) == Start(pages, row, i)
    requires forall i :: t < i <= |row| ==> Start(pages', row, i) == Start(pages, row, i) - 1
    requires t2 < |row| && 1 <= k < |Nodes(pages', row[t2])|
    ensures Parts(ks, Cut(Without(cuts, Start(pages, row, t) + kp), Start(pages', row, t2) + k),
                  KeyOf(keys, Nodes(pages', row[t2])[k]))
  {
    hide Joined, Nodes, KeyOf, Parts, SameOn;
    if t2 == t {
      var k0 := if k >= kp then k + 1 else k;
      assert Parts(ks, Cut(cuts, Start(pages, row, t) + k0), KeyOf(keys, Nodes(pages, row[t])[k0]));
    } else {
      SameAt(pages, pages', row, t, t2);
      if t2 > t {
        StartGrows(pages, row, t, t2);
      } else {
        StartGrows(pages, row, t2, t);
      }
      assert Parts(ks, Cut(cuts, Start(pages, row, t2) + k), KeyOf(keys, Nodes(pages, row[t2])[k]));
    }
  }

  // --------------------------------------------------- nodes between two pages

  /** Nodes have moved between page j and its right neighbour; the node that was
      the first on the right needs a key if it no longer is. */
  lemma RowShift(pages: Pages, pages': Pages, row: seq<Id>, j: nat, cuts: seq<nat>, keys: Keys, keys': Keys,
                 ks: seq<int>)
    requires Shifted(pages, pages', row, j) && RowKeyed(pages, row, cuts, keys, ks) && Nodes(pages', row[j]) != []
    requires (Nodes(pages, row[j]) != []
              && forall t, k :: 0 <= t < |row| && 1 <= k < |Nodes(pages, row[t])| ==>
                   KeyOf(keys', Nodes(pages, row[t])[k]) == KeyOf(keys, Nodes(pages, row[t])[k]))
    requires Nodes(pages, row[j + 1]) != [] && |Nodes(pages', row[j])| != |Nodes(pages, row[j])| ==>
               Parts(ks, Cut(cuts, Start(pages, row, j + 1)), KeyOf(keys', Nodes(pages, row[j + 1])[0]))
    ensures RowKeyed(pages', row, cuts, keys', ks)
    ensures CutsUp(pages', row, cuts) ==
            CutsUp(pages, row, cuts)[j + 1 := Cut(cuts, Start(pages, row, j) + |Nodes(pages', row[j])|)]
  {
    hide Joined, Nodes, KeyOf, Parts, SameOn;
    forall i | 0 <= i <= |row|
      ensures Start(pages', row, i) == if i == j + 1 then Start(pages, row, j) + |Nodes(pages', row[j])|
                                       else Start(pages, row, i)
    {
      StartShift(pages, pages', row, j, i);
    }
    forall t, k | 0 <= t < |row| && 1 <= k < |Nodes(pages', row[t])|
      ensures Parts(ks, Cut(cuts, Start(pages', row, t) + k), KeyOf(keys', Nodes(pages', row[t])[k]))
    {
      ShiftedNode(pages, pages', row, j, cuts, keys, keys', ks, t, k);
    }
  }

  lemma ShiftedNode(pages: Pages, pages': Pages, row: seq<Id>, j: nat, cuts: seq<nat>, keys: Keys, keys': Keys,
                    ks: seq<int>, t: nat, k: nat)
    requires Shifted(pages, pages', row, j) && RowKeyed(pages, row, cuts, keys, ks) && Nodes(pages', row[j]) != []
    requires (Nodes(pages, row[j]) != []
              && forall t, k :: 0 <= t < |row| && 1 <= k < |Nodes(pages, row[t])| ==>
                   KeyOf(keys', Nodes(pages, row[t])[k]) == KeyOf(keys, Nodes(pages, row[t])[k]))
    requires Nodes(pages, row[j + 1]) != [] && |Nodes(pages', row[j])| != |Nodes(pages, row[j])| ==>
               Parts(ks, Cut(cuts, Start(pages, row, j + 1)), KeyOf(keys', Nodes(pages, row[j + 1])[0]))
    requires forall i :: 0 <= i <= |row| ==>
               Start(pages', row, i) == if i == j + 1 then Start(pages, row, j) + |Nodes(pages', row[j])|
                                        else Start(pages, row, i)
    requires t < |row| && 1 <= k < |Nodes(pages', row[t])|
    ensures Parts(ks, Cut(cuts, Start(pages', row, t) + k), KeyOf(keys', Nodes(pages', row[t])[k]))
  {
    hide Joined, Nodes, KeyOf, Parts;
    JoinedAt(pages, row, j);
    if t == j || t == j + 1 {
      var A, B, A', B' := Nodes(pages, row[j]), Nodes(pages, row[j + 1]), Nodes(pages', row[j]),
          Nodes(pages', row[j + 1]);
      var g := if t == j then k else |A'| + k;
      assert (A' + B')[g] == (A + B)[g] == Nodes(pages', row[t])[k];
      if g < |A| {
        assert Parts(ks, Cut(cuts, Start(pages, row, j) + g), KeyOf(keys, A[g]));
      } else if g > |A| {
        assert Parts(ks, Cut(cuts, Start(pages, row, j + 1) + (g - |A|)), KeyOf(keys, B[g - |A|]));
      }
    } else {
      ShiftedAside(pages, pages', row, j, t);
      assert Parts(ks, Cut(cuts, Start(pages, row, t) + k), KeyOf(keys, Nodes(pages, row[t])[k]));
    }
  }

  lemma ShiftedAside(pages: Pages, pages': Pages, row: seq<Id>, j: nat, t: nat)
    requires Shifted(pages, pages', row, j) && t < |row| && t != j && t != j + 1
    ensures Nodes(pages', row[t]) == Nodes(pages, row[t])
  {
    hide Nodes;
    if t < j { assert row[..j][t] == row[t]; } else { assert row[j + 2..][t - j - 2] == row[t]; }
  }

  /** Page j has taken over the nodes of its right neighbour, the first of which needs a key. */
  lemma RowMerge(pages: Pages, pages': Pages, row: seq<Id>, j: nat, cuts: seq<nat>, keys: Keys, keys': Keys,
                 ks: seq<int>)
    requires Absorbed(pages, pages', row, j) && RowKeyed(pages, row, cuts, keys, ks)
    requires forall t, k :: 0 <= t < |row| && 1 <= k < |Nodes(pages, row[t])| ==>
               KeyOf(keys', Nodes(pages, row[t])[k]) == KeyOf(keys, Nodes(pages, row[t])[k])
    requires Nodes(pages, row[j + 1]) != [] ==>
               Parts(ks, Cut(cuts, Start(pages, row, j + 1)), KeyOf(keys', Nodes(pages, row[j + 1])[0]))
    ensures RowKeyed(pages', Without(row, j + 1), cuts, keys', ks)
    ensures CutsUp(pages', Without(row, j + 1), cuts) == Without(CutsUp(pages, row, cuts), j + 1)
  {
    hide Joined, Nodes, KeyOf, Parts, SameOn;
    var row' := Without(row, j + 1);
    forall t, k | 0 <= t < |row'| && 1 <= k < |Nodes(pages', row'[t])|
      ensures Parts(ks, Cut(cuts, Start(pages', row', t) + k), KeyOf(keys', Nodes(pages', row'[t])[k]))
    {
      MergedNode(pages, pages', row, j, cuts, keys, keys', ks, t, k);
    }
    var up, up' := CutsUp(pages, row, cuts), CutsUp(pages', row', cuts);
    forall i | 0 <= i < |up'| ensures up'[i] == Without(up, j + 1)[i] {
      StartAbsorb(pages, pages', row, j, i);
    }
    assert up' == Without(up, j + 1);
  }

  lemma MergedNode(pages: Pages, pages': Pages, row: seq<Id>, j: nat, cuts: seq<nat>, keys: Keys, keys': Keys,
                   ks: seq<int>, t: nat, k: nat)
    requires Absorbed(pages, pages', row, j) && RowKeyed(pages, row, cuts, keys, ks)
    requires forall t, k :: 0 <= t < |row| && 1 <= k < |Nodes(pages, row[t])| ==>
               KeyOf(keys', Nodes(pages, row[t])[k]) == KeyOf(keys, Nodes(pages, row[t])[k])
    requires Nodes(pages, row[j + 1]) != [] ==>
               Parts(ks, Cut(cuts, Start(pages, row, j + 1)), KeyOf(keys', Nodes(pages, row[j + 1])[0]))
    requires t < |row| - 1 && 1 <= k < |Nodes(pages', Without(row, j + 1)[t])|
    ensures Parts(ks, Cut(cuts, Start(pages', Without(row, j + 1), t) + k),
                  KeyOf(keys', Nodes(pages', Without(row, j + 1)[t])[k]))
  {
    hide Joined, Nodes, KeyOf, Parts;
    JoinedAt(pages, row, j);
    var row' := Without(row, j + 1);
    if t == j {
      StartAbsorb(pages, pages', row, j, j);
      var A, B := Nodes(pages, row[j]), Nodes(pages, row[j + 1]);
      if k < |A| {
        assert Parts(ks, Cut(cuts, Start(pages, row, j) + k), KeyOf(keys, A[k]));
      } else if k > |A| {
        assert Parts(ks, Cut(cuts, Start(pages, row, j + 1) + (k - |A|)), KeyOf(keys, B[k - |A|]));
      }
    } else {
      var t0 := if t < j then t else t + 1;
      assert row'[t] == row[t0];
      AbsorbedAside(pages, pages', row, j, t0);
      StartAbsorb(pages, pages', row, j, t);
      assert Start(pages', row', t) == Start(pages, row, t0);
      assert Nodes(pages', row'[t]) == Nodes(pages, row[t0]);
      assert Parts(ks, Cut(cuts, Start(pages, row, t0) + k), KeyOf(keys, Nodes(pages, row[t0])[k]));
    }
  }

  lemma AbsorbedAside(pages: Pages, pages': Pages, row: seq<Id>, j: nat, t: nat)
    requires Absorbed(pages, pages', row, j) && t < |row| && t != j && t != j + 1
    ensures Nodes(pages', row[t]) == Nodes(pages, row[t])
  {
    hide Nodes;
    if t < j { assert row[..j][t] == row[t]; } else { assert row[j + 2..][t - j - 2] == row[t]; }
  }

  // ------------------------------------------------------------- a page is torn

  /** Page j holds the first s of these nodes, and the new page on its right the others. */
  ghost predicate TornInto(pages: Pages, row: seq<Id>, j: nat, rp: Id, all: seq<int>, s: nat, pages': Pages) {
    && j < |row| && 1 <= s < |all| && Nodes(pages', row[j]) == all[..s] && Nodes(pages', rp) == all[s..] && rp != row[j]
    && forall i :: 0 <= i < |row| && i != j ==> Nodes(pages', row[i]) == Nodes(pages, row[i]) && row[i] != row[j]
  }

  lemma TornStarts(pages: Pages, row: seq<Id>, j: nat, rp: Id, all: seq<int>, s: nat, pages': Pages, i: nat)
    requires TornInto(pages, row, j, rp, all, s, pages') && i <= |row|
    ensures var row', e := Inserted(row, j + 1, rp), |all| - |Nodes(pages, row[j])|;
            && (i <= j ==> Start(pages', row', i) == Start(pages, row, i))
            && (i == j + 1 ==> Start(pages', row', i) == Start(pages, row, j) + s)
            && (i > j ==> Start(pages', row', i + 1) == Start(pages, row, i) + e)
  {
    hide Joined, Nodes;
    var row' := Inserted(row, j + 1, rp);
    var pages1 := pages[row[j] := all];
    NewNodes(pages, row[j], all);
    TornAside(pages, row, j, rp, all, s, pages');
    JoinedEdit(pages, pages1, row, j);
    assert Without(row', j + 1) == row;
    if i <= j {
      StartAbsorb(pages', pages1, row', j, i);
    } else if i < |row| {
      StartAbsorb(pages', pages1, row', j, i);
    } else {
      JoinedAbsorb(pages', pages1, row', j);
      WholeStart(pages', row');
      WholeStart(pages1, row);
    }
    if i == j + 1 {
      StartAbsorb(pages', pages1, row', j, j);
      JoinedAt(pages', row', j);
    }
  }

  lemma WholeStart(pages: Pages, row: seq<Id>)
    ensures Start(pages, row, |row|) == |Joined(pages, row)|
  {
    assert row[..|row|] == row;
  }

  lemma TornAside(pages: Pages, row: seq<Id>, j: nat, rp: Id, all: seq<int>, s: nat, pages': Pages)
    requires TornInto(pages, row, j, rp, all, s, pages')
    ensures var pages1, row' := pages[row[j] := all], Inserted(row, j + 1, rp);
            Absorbed(pages', pages1, row', j) && SameOn(pages, pages1, row[..j]) && SameOn(pages, pages1, row[j + 1..])
  {
    hide Nodes;
    var pages1, row' := pages[row[j] := all], Inserted(row, j + 1, rp);
    NewNodes(pages, row[j], all);
    assert row'[..j] == row[..j] && row'[j + 2..] == row[j + 1..];
    assert all[..s] + all[s..] == all;
    var tail := row[j + 1..];
    forall i | 0 <= i < |tail|
      ensures Nodes(pages1, tail[i]) == Nodes(pages, tail[i]) && Nodes(pages', tail[i]) == Nodes(pages, tail[i])
    {
      assert tail[i] == row[j + 1 + i];
    }
  }

  /** The page that is torn, the node that came in, and where both begin. */
  ghost predicate TornWith(pages: Pages, row: seq<Id>, j: nat, k: nat, x: int, replace: bool, rp: Id, s: nat,
                           pages': Pages, cuts: seq<nat>, cx: nat) {
    && j < |row| && 1 <= k && (if replace then k < |Nodes(pages, row[j])| else k <= |Nodes(pages, row[j])|)
    && TornInto(pages, row, j, rp, PutInto(Nodes(pages, row[j]), k, x, replace), s, pages')
    && |cuts| == |Joined(pages, row)| && (replace ==> Cut(cuts, Start(pages, row, j) + k) == cx)
  }

  lemma TornBounds(pages: Pages, row: seq<Id>, j: nat, k: nat, x: int, replace: bool, rp: Id, s: nat, pages': Pages,
                   cuts: seq<nat>, cx: nat)
    requires TornWith(pages, row, j, k, x, replace, rp, s, pages', cuts, cx)
    ensures var p := Start(pages, row, j) + k; if replace then p < |cuts| else p <= |cuts|
    ensures Start(pages, row, j) + |Nodes(pages, row[j])| <= |cuts|
    ensures |PutInto(Nodes(pages, row[j]), k, x, replace)| - |Nodes(pages, row[j])| == if replace then 0 else 1
  {
    hide Joined, Nodes;
    JoinedAt(pages, row, j);
  }

  /** The pages of the row begin where they did, and the new one at its first node. */
  lemma TornCuts(pages: Pages, row: seq<Id>, j: nat, k: nat, x: int, replace: bool, rp: Id, s: nat, pages': Pages,
                 cuts: seq<nat>, cx: nat)
    requires TornWith(pages, row, j, k, x, replace, rp, s, pages', cuts, cx)
    ensures var p, row' := Start(pages, row, j) + k, Inserted(row, j + 1, rp);
            && (if replace then p < |cuts| else p <= |cuts|)
            && var cuts' := PutInto(cuts, p, cx, replace);
               CutsUp(pages', row', cuts') ==
                   Inserted(CutsUp(pages, row, cuts), j + 1, Cut(cuts', Start(pages, row, j) + s))
  {
    hide Joined, Nodes, TornInto, TornWith, Inserted;
    TornBounds(pages, row, j, k, x, replace, rp, s, pages', cuts, cx);
    TornShape(pages, row, j, k, x, replace, rp, s, pages', cuts, cx);
    var p, row' := Start(pages, row, j) + k, Inserted(row, j + 1, rp);
    var cuts' := PutInto(cuts, p, cx, replace);
    var up, up' := CutsUp(pages, row, cuts), CutsUp(pages', row', cuts');
    var c := Cut(cuts', Start(pages, row, j) + s);
    forall i | 0 <= i < |up'| ensures up'[i] == Inserted(up, j + 1, c)[i] {
      TornCut(pages, row, j, k, x, replace, rp, s, pages', cuts, cx, i);
    }
    assert up' == Inserted(up, j + 1, c);
  }

  lemma TornShape(pages: Pages, row: seq<Id>, j: nat, k: nat, x: int, replace: bool, rp: Id, s: nat, pages': Pages,
                  cuts: seq<nat>, cx: nat)
    requires TornWith(pages, row, j, k, x, replace, rp, s, pages', cuts, cx)
    ensures j < |row|
  {
  }

  lemma TornCut(pages: Pages, row: seq<Id>, j: nat, k: nat, x: int, replace: bool, rp: Id, s: nat, pages': Pages,
                cuts: seq<nat>, cx: nat, i: nat)
    requires TornWith(pages, row, j, k, x, replace, rp, s, pages', cuts, cx) && i <= |row|
    ensures var p, row' := Start(pages, row, j) + k, Inserted(row, j + 1, rp);
            && (if replace then p < |cuts| else p <= |cuts|)
            && var cuts' := PutInto(cuts, p, cx, replace);
               Cut(cuts', Start(pages', row', i)) ==
                 if i <= j then Cut(cuts, Start(pages, row, i))
                 else if i == j + 1 then Cut(cuts', Start(pages, row, j) + s) else Cut(cuts, Start(pages, row, i - 1))
  {
    hide Joined, Nodes, TornInto, Inserted;
    TornBounds(pages, row, j, k, x, replace, rp, s, pages', cuts, cx);
    var all, p := PutInto(Nodes(pages, row[j]), k, x, replace), Start(pages, row, j) + k;
    TornStarts(pages, row, j, rp, all, s, pages', if i <= j + 1 then i else i - 1);
    if i < j {
      StartGrows(pages, row, i, j);
    } else if i > j + 1 {
      StartGrows(pages, row, j, i - 1);
    }
    if i != j + 1 {
      CutPut(cuts, p, cx, replace, Start(pages, row, if i <= j then i else i - 1));
    }
  }

  lemma CutPut(cuts: seq<nat>, p: nat, cx: nat, replace: bool, a: nat)
    requires if replace then p < |cuts| && Cut(cuts, p) == cx else p <= |cuts|
    ensures Cut(PutInto(cuts, p, cx, replace), if replace || a < p then a else a + 1) == Cut(cuts, a)
  {
  }

  /** The keys in the pages of a row one of whose pages was torn after a node came in at k. */
  lemma RowTorn(pages: Pages, row: seq<Id>, j: nat, k: nat, x: int, replace: bool, rp: Id, s: nat, pages': Pages,
                cuts: seq<nat>, cx: nat, keys: Keys, keys': Keys, ks: seq<int>)
    requires TornWith(pages, row, j, k, x, replace, rp, s, pages', cuts, cx)
    requires RowKeyed(pages, row, cuts, keys, ks) && Parts(ks, cx, KeyOf(keys', x))
             && OthersKeep(pages, row, j, k, x, replace, keys, keys')
    ensures var p := Start(pages, row, j) + k;
            && (if replace then p < |cuts| else p <= |cuts|)
            && RowKeyed(pages', Inserted(row, j + 1, rp), PutInto(cuts, p, cx, replace), keys', ks)
  {
    hide Joined, Nodes, KeyOf, Parts, TornInto, OthersKeep, RowKeyed, PutInto, Inserted;
    TornBounds(pages, row, j, k, x, replace, rp, s, pages', cuts, cx);
    var p, row', all := Start(pages, row, j) + k, Inserted(row, j + 1, rp),
        PutInto(Nodes(pages, row[j]), k, x, replace);
    forall t, i | 0 <= t < |row'| && 1 <= i < |Nodes(pages', row'[t])|
      ensures Parts(ks, Cut(PutInto(cuts, p, cx, replace), Start(pages', row', t) + i),
                    KeyOf(keys', Nodes(pages', row'[t])[i]))
    {
      TornNode(pages, row, j, k, x, replace, rp, s, pages', cuts, cx, keys, keys', ks, t, i);
    }
    MakeKeyed(pages', row', PutInto(cuts, p, cx, replace), keys', ks);
  }

  lemma MakeKeyed(pages: Pages, row: seq<Id>, cuts: seq<nat>, keys: Keys, ks: seq<int>)
    requires forall t, k :: 0 <= t < |row| && 1 <= k < |Nodes(pages, row[t])| ==>
               Parts(ks, Cut(cuts, Start(pages, row, t) + k), KeyOf(keys, Nodes(pages, row[t])[k]))
    ensures RowKeyed(pages, row, cuts, keys, ks)
  {
  }

  /** The nodes but the new one keep their keys, and it is none of them. */
  ghost predicate OthersKeep(pages: Pages, row: seq<Id>, j: nat, k: nat, x: int, replace: bool, keys: Keys,
                             keys': Keys) {
    forall t, i :: 0 <= t < |row| && 0 <= i < |Nodes(pages, row[t])| && !(replace && t == j && i == k) ==>
      Nodes(pages, row[t])[i] != x && KeyOf(keys', Nodes(pages, row[t])[i]) == KeyOf(keys, Nodes(pages, row[t])[i])
  }

  lemma TornNode(pages: Pages, row: seq<Id>, j: nat, k: nat, x: int, replace: bool, rp: Id, s: nat, pages': Pages,
                 cuts: seq<nat>, cx: nat, keys: Keys, keys': Keys, ks: seq<int>, t: nat, i: nat)
    requires TornWith(pages, row, j, k, x, replace, rp, s, pages', cuts, cx)
    requires RowKeyed(pages, row, cuts, keys, ks) && Parts(ks, cx, KeyOf(keys', x))
             && OthersKeep(pages, row, j, k, x, replace, keys, keys')
    requires t <= |row| && 1 <= i < |Nodes(pages', Inserted(row, j + 1, rp)[t])|
    ensures var p, row' := Start(pages, row, j) + k, Inserted(row, j + 1, rp);
            && (if replace then p < |cuts| else p <= |cuts|)
            && Parts(ks, Cut(PutInto(cuts, p, cx, replace), Start(pages', row', t) + i),
                     KeyOf(keys', Nodes(pages', row'[t])[i]))
  {
    hide Joined, Nodes, KeyOf, Parts, OthersKeep, RowKeyed, TornInto, PutInto;
    TornBounds(pages, row, j, k, x, replace, rp, s, pages', cuts, cx);
    if t == j || t == j + 1 {
      TornInner(pages, row, j, k, x, replace, rp, s, pages', cuts, cx, t, i);
      PutNode(pages, row, j, k, x, replace, cuts, cx, keys, keys', ks, if t == j then i else s + i);
    } else {
      var t0 := if t < j then t else t - 1;
      TornOuter(pages, row, j, k, x, replace, rp, s, pages', cuts, cx, t);
      OldNode(pages, row, j, t0, i, k, x, replace, Start(pages, row, j) + k, cuts, cx, keys, keys', ks);
    }
  }

  lemma TornInner(pages: Pages, row: seq<Id>, j: nat, k: nat, x: int, replace: bool, rp: Id, s: nat, pages': Pages,
                  cuts: seq<nat>, cx: nat, t: nat, i: nat)
    requires TornWith(pages, row, j, k, x, replace, rp, s, pages', cuts, cx) && (t == j || t == j + 1)
    requires i < |Nodes(pages', Inserted(row, j + 1, rp)[t])|
    ensures var row', i0, all := Inserted(row, j + 1, rp), if t == j then i
                                                           else s + i, PutInto(Nodes(pages, row[j]), k, x, replace);
            i0 < |all| && Nodes(pages', row'[t])[i] == all[i0]
                && Start(pages', row', t) + i == Start(pages, row, j) + i0
  {
    hide Joined, Nodes;
    TornStarts(pages, row, j, rp, PutInto(Nodes(pages, row[j]), k, x, replace), s, pages', t);
  }

  lemma TornOuter(pages: Pages, row: seq<Id>, j: nat, k: nat, x: int, replace: bool, rp: Id, s: nat, pages': Pages,
                  cuts: seq<nat>, cx: nat, t: nat)
    requires TornWith(pages, row, j, k, x, replace, rp, s, pages', cuts, cx) && t <= |row| && t != j && t != j + 1
    ensures var row', t0, p := Inserted(row, j + 1, rp), if t < j then t else t - 1, Start(pages, row, j) + k;
            && Nodes(pages', row'[t]) == Nodes(pages, row[t0])
            && Start(pages', row', t) == Start(pages, row, t0) + (if replace || t < j then 0 else 1)
            && (if t < j then Start(pages, row, t0) + |Nodes(pages, row[t0])| <= p && Start(pages, row, t0) < p
                else Start(pages, row, t0) >= p)
            && Start(pages, row, t0) + |Nodes(pages, row[t0])| <= |cuts|
  {
    hide Joined, Nodes;
    var row', t0 := Inserted(row, j + 1, rp), if t < j then t else t - 1;
    TornBounds(pages, row, j, k, x, replace, rp, s, pages', cuts, cx);
    assert row'[t] == row[t0];
    TornStarts(pages, row, j, rp, PutInto(Nodes(pages, row[j]), k, x, replace), s, pages', t0);
    if t0 < j {
      StartGrows(pages, row, t0, j);
    } else {
      StartGrows(pages, row, j, t0);
    }
    JoinedAt(pages, row, t0);
  }

  /** A node that stays has a right key. */
  lemma KeptKey(pages: Pages, row: seq<Id>, j: nat, k: nat, x: int, replace: bool, cuts: seq<nat>, keys: Keys,
                keys': Keys, ks: seq<int>, t: nat, i: nat)
    requires RowKeyed(pages, row, cuts, keys, ks) && OthersKeep(pages, row, j, k, x, replace, keys, keys')
    requires t < |row| && 1 <= i < |Nodes(pages, row[t])| && !(replace && t == j && i == k)
    ensures Parts(ks, Cut(cuts, Start(pages, row, t) + i), KeyOf(keys', Nodes(pages, row[t])[i]))
  {
    hide Joined, Nodes, KeyOf, Parts, Cut;
  }

  /** A node of the page with the new one among its nodes. */
  lemma PutNode(pages: Pages, row: seq<Id>, j: nat, k: nat, x: int, replace: bool, cuts: seq<nat>, cx: nat, keys: Keys,
                keys': Keys, ks: seq<int>, i: nat)
    requires j < |row| && 1 <= k && (if replace then k < |Nodes(pages, row[j])| else k <= |Nodes(pages, row[j])|)
    requires RowKeyed(pages, row, cuts, keys, ks) && Parts(ks, cx, KeyOf(keys', x))
             && Start(pages, row, j) + |Nodes(pages, row[j])| <= |cuts|
    requires (replace ==> Cut(cuts, Start(pages, row, j) + k) == cx)
             && OthersKeep(pages, row, j, k, x, replace, keys, keys')
    requires 1 <= i < |PutInto(Nodes(pages, row[j]), k, x, replace)|
    ensures Parts(ks, Cut(PutInto(cuts, Start(pages, row, j) + k, cx, replace), Start(pages, row, j) + i),
                  KeyOf(keys', PutInto(Nodes(pages, row[j]), k, x, replace)[i]))
  {
    hide Joined, Nodes, KeyOf, Parts, PutInto, Inserted, RowKeyed, OthersKeep;
    var N, b := Nodes(pages, row[j]), Start(pages, row, j);
    PutElement(N, k, x, replace, i);
    PutElement(cuts, b + k, cx, replace, b + i);
    if i != k {
      var i0 := if replace || i < k then i else i - 1;
      KeptKey(pages, row, j, k, x, replace, cuts, keys, keys', ks, j, i0);
    }
  }

  /** A node of another page. */
  lemma OldNode(pages: Pages, row: seq<Id>, j: nat, t: nat, i: nat, k: nat, x: int, replace: bool, p: nat,
                cuts: seq<nat>, cx: nat, keys: Keys, keys': Keys, ks: seq<int>)
    requires t < |row| && t != j && 1 <= i < |Nodes(pages, row[t])| && RowKeyed(pages, row, cuts, keys, ks)
             && (if replace then p < |cuts| else p <= |cuts|)
    requires OthersKeep(pages, row, j, k, x, replace, keys, keys')
    requires (Start(pages, row, t) + |Nodes(pages, row[t])| <= p || Start(pages, row, t) >= p)
             && (replace ==> Cut(cuts, p) == cx)
    requires Start(pages, row, t) + |Nodes(pages, row[t])| <= |cuts|
    ensures var e := if replace || Start(pages, row, t) < p then 0 else 1;
            Parts(ks, Cut(PutInto(cuts, p, cx, replace), Start(pages, row, t) + i + e),
                  KeyOf(keys', Nodes(pages, row[t])[i]))
  {
    hide Joined, Nodes, KeyOf, Parts;
    assert Parts(ks, Cut(cuts, Start(pages, row, t) + i), KeyOf(keys, Nodes(pages, row[t])[i]));
  }

  // -------------------------------------------------------------- other changes

  /** Where row l begins follows from where row l + 1 does. */
  lemma {:induction false} CutsAtUp(pages: Pages, lv: seq<seq<int>>, m: nat, cuts: seq<nat>, l: nat)
    requires l < m < |lv|
    ensures CutsAt(pages, lv, m, cuts, l) == CutsUp(pages, lv[l], CutsAt(pages, lv, m, cuts, l + 1))
    decreases m
  {
    if l < m - 1 {
      CutsAtUp(pages, lv, m - 1, CutsUp(pages, lv[m - 1], cuts), l);
    }
  }

  lemma {:induction false} CutsAtSize(pages: Pages, lv: seq<seq<int>>, m: nat, cuts: seq<nat>, l: nat)
    requires l <= m < |lv| && |cuts| == |lv[m]|
    ensures |CutsAt(pages, lv, m, cuts, l)| == |lv[l]|
    decreases m
  {
    if l < m {
      CutsAtSize(pages, lv, m - 1, CutsUp(pages, lv[m - 1], cuts), l);
    }
  }

  /** The root gives way to its only child. */
  lemma {:induction false} KeyedCollapse(pages: Pages, lv: seq<seq<int>>, m: nat, cuts: seq<nat>, keys: Keys,
                                         ks: seq<int>)
    requires 1 <= m < |lv| && KeyedTo(pages, lv, m, cuts, keys, ks)
    ensures KeyedTo(pages, lv[1..], m - 1, cuts, keys, ks)
  {
    hide RowKeyed, CutsUp;
    if m > 1 {
      KeyedCollapse(pages, lv, m - 1, CutsUp(pages, lv[m - 1], cuts), keys, ks);
      assert lv[1..][m - 2] == lv[m - 1];
    }
  }

  /** Rows whose pages have as many nodes as before, with the same keys. */
  ghost predicate AlikeKeyed(pages: Pages, row: seq<Id>, keys: Keys, pages': Pages, row': seq<Id>, keys': Keys) {
    && |row'| == |row|
    && (forall i :: 0 <= i < |row| ==>
          Start(pages', row', i) == Start(pages, row, i) && |Nodes(pages', row'[i])| == |Nodes(pages, row[i])|)
    && forall i, k :: 0 <= i < |row| && 0 <= k < |Nodes(pages, row[i])| && k < |Nodes(pages', row'[i])| ==>
         KeyOf(keys', Nodes(pages', row'[i])[k]) == KeyOf(keys, Nodes(pages, row[i])[k])
  }

  lemma RowAlike(pages: Pages, row: seq<Id>, keys: Keys, pages': Pages, row': seq<Id>, keys': Keys, cuts: seq<nat>,
                 ks: seq<int>)
    requires RowKeyed(pages, row, cuts, keys, ks) && AlikeKeyed(pages, row, keys, pages', row', keys')
    ensures RowKeyed(pages', row', cuts, keys', ks)
  {
    hide Joined, Nodes, KeyOf, Parts;
    forall t, k | 0 <= t < |row'| && 1 <= k < |Nodes(pages', row'[t])|
      ensures Parts(ks, Cut(cuts, Start(pages', row', t) + k), KeyOf(keys', Nodes(pages', row'[t])[k]))
    {
      assert Parts(ks, Cut(cuts, Start(pages, row, t) + k), KeyOf(keys, Nodes(pages, row[t])[k]));
    }
  }

  lemma {:induction false} KeyedAlike(pages: Pages, lv: seq<seq<int>>, keys: Keys, pages': Pages, lv': seq<seq<int>>,
                                      keys': Keys, m: nat, cuts: seq<nat>, ks: seq<int>)
    requires m < |lv| && m < |lv'| && KeyedTo(pages, lv, m, cuts, keys, ks)
    requires forall l :: 0 <= l < m ==> AlikeKeyed(pages, lv[l], keys, pages', lv'[l], keys')
    ensures KeyedTo(pages', lv', m, cuts, keys', ks)
  {
    hide Joined, Nodes, KeyOf, Parts, RowKeyed;
    if m > 0 {
      assert AlikeKeyed(pages, lv[m - 1], keys, pages', lv'[m - 1], keys');
      RowAlike(pages, lv[m - 1], keys, pages', lv'[m - 1], keys', cuts, ks);
      assert CutsUp(pages', lv'[m - 1], cuts) == CutsUp(pages, lv[m - 1], cuts);
      KeyedAlike(pages, lv, keys, pages', lv', keys', m - 1, CutsUp(pages, lv[m - 1], cuts), ks);
    }
  }

  /** The keys of the items, in order. */
  function ItemKeys(key: int -> int, items: seq<int>): (ks: seq<int>)
    ensures |ks| == |items| && forall i :: 0 <= i < |items| ==> ks[i] == key(items[i])
  {
    seq(|items|, i requires 0 <= i < |items| => key(items[i]))
  }

  /** The items are in order, and all keys of branch nodes are right. */
  ghost predicate RightKeys(pages: Pages, lv: seq<seq<int>>, keys: Keys, key: int -> int) {
    |lv| >= 2 && Keyed(pages, lv, keys, ItemKeys(key, lv[|lv| - 1]))
  }
}
