/** What an item that comes or goes does to the keys of branch nodes. */
module KeyedItems {
  import opened Sequences
  import opened Levels
  import opened Separators
  import opened KeyedMoves

  // ------------------------------------------------------------ an item goes

  function Earlier(s: nat, p: nat): nat { if s > p then s - 1 else s }

  ghost predicate AllEarlier(cuts: seq<nat>, cuts': seq<nat>, p: nat) {
    |cuts'| == |cuts| && forall i :: 0 <= i < |cuts| ==> cuts'[i] == Earlier(cuts[i], p)
  }

  lemma PartsWithout(ks: seq<int>, p: nat, s: nat, K: int)
    requires p < |ks| && Parts(ks, s, K)
    ensures Parts(Without(ks, p), Earlier(s, p), K)
  {
  }

  lemma RowWithout(pages: Pages, row: seq<Id>, cuts: seq<nat>, cuts': seq<nat>, keys: Keys, ks: seq<int>, p: nat)
    requires p < |ks| && RowKeyed(pages, row, cuts, keys, ks) && AllEarlier(cuts, cuts', p)
    ensures RowKeyed(pages, row, cuts', keys, Without(ks, p))
            && AllEarlier(CutsUp(pages, row, cuts), CutsUp(pages, row, cuts'), p)
  {
    hide Joined, Nodes, KeyOf, Parts, Without;
    forall t, k | 0 <= t < |row| && 1 <= k < |Nodes(pages, row[t])|
      ensures Parts(Without(ks, p), Cut(cuts', Start(pages, row, t) + k), KeyOf(keys, Nodes(pages, row[t])[k]))
    {
      PartsWithout(ks, p, Cut(cuts, Start(pages, row, t) + k), KeyOf(keys, Nodes(pages, row[t])[k]));
    }
  }

  lemma {:induction false} KeyedWithout(pages: Pages, lv: seq<seq<int>>, m: nat, cuts: seq<nat>, cuts': seq<nat>,
                                        keys: Keys, ks: seq<int>, p: nat)
    requires m < |lv| && p < |ks| && KeyedTo(pages, lv, m, cuts, keys, ks) && AllEarlier(cuts, cuts', p)
    ensures KeyedTo(pages, lv, m, cuts', keys, Without(ks, p))
  {
    hide RowKeyed, AllEarlier, Without, CutsUp;
    if m > 0 {
      RowWithout(pages, lv[m - 1], cuts, cuts', keys, ks, p);
      KeyedWithout(pages, lv, m - 1, CutsUp(pages, lv[m - 1], cuts), CutsUp(pages, lv[m - 1], cuts'), keys, ks, p);
    }
  }

  lemma SortedWithout(ks: seq<int>, p: nat)
    requires Sorted(ks) && p < |ks|
    ensures Sorted(Without(ks, p))
  {
  }

  /** Item k of leaf j is gone. */
  lemma KeysWithout(pages: Pages, root: Id, lv: seq<seq<int>>, j: nat, k: nat, keys: Keys, key: int -> int)
    requires Rows(pages, root, lv) && Distinct(lv) && |lv| >= 2 && RightKeys(pages, lv, keys, key) && j < |lv[|lv| - 2]|
             && k < |Nodes(pages, lv[|lv| - 2][j])|
    ensures var L := |lv| - 2;
            var mp, p := lv[L][j], Start(pages, lv[L], j) + k;
            && p < |lv[L + 1]|
            && RightKeys(pages[mp := Without(Nodes(pages, mp), k)], lv[L + 1 := Without(lv[L + 1], p)], keys, key)
  {
    hide Joined, Nodes, Distinct, SameOn, KeyedTo, Rows;
    var D := |lv| - 2;
    var row, mp, p := lv[D], lv[D][j], Start(pages, lv[D], j) + k;
    var nodes := Without(Nodes(pages, mp), k);
    RowBelow(pages, root, lv, D);
    NodeAt(pages, row, j, k);
    var pages', lv' := pages[mp := nodes], lv[D + 1 := Without(lv[D + 1], p)];
    LeafEdit(pages, root, lv, j, nodes);
    NewNodes(pages, mp, nodes);
    JoinedEdit(pages, pages', row, j);
    var ks, ks' := ItemKeys(key, lv[D + 1]), ItemKeys(key, lv'[D + 1]);
    assert ks' == Without(ks, p);
    SortedWithout(ks, p);
    forall i | 0 <= i < |row| ensures Start(pages', row, i) == Earlier(Start(pages, row, i), p) {
      if i < j {
        StartGrows(pages, row, i, j);
      } else if j < i {
        StartGrows(pages, row, j, i);
      }
    }
    KeyedWithout(pages, lv, D, Starts(pages, row), Starts(pages', row), keys, ks, p);
    forall l | 1 <= l <= D ensures SameKeys(keys, keys, lv[l]) {
    }
    KeyedSame(pages, root, lv, pages', lv', D, Starts(pages', row), keys, keys, ks');
  }

  // ----------------------------------------------------------- an item comes

  /** The keys in this row that lead to children up to i are at most K, and the others are greater. */
  ghost predicate RowBelongs(pages: Pages, row: seq<Id>, i: nat, keys: Keys, K: int) {
    forall t, k :: 0 <= t < |row| && 1 <= k < |Nodes(pages, row[t])| ==>
      if Start(pages, row, t) + k <= i then KeyOf(keys, Nodes(pages, row[t])[k]) <= K
      else K < KeyOf(keys, Nodes(pages, row[t])[k])
  }

  /** An item with key K belongs below page ix[m] of row m. */
  ghost predicate BelongsTo(pages: Pages, lv: seq<seq<int>>, m: nat, ix: seq<nat>, keys: Keys, K: int) {
    m < |lv| && m < |ix| && forall l :: 0 <= l < m ==> RowBelongs(pages, lv[l], ix[l + 1], keys, K)
  }

  ghost predicate LaterAfter(cuts: seq<nat>, cuts': seq<nat>, i: nat) {
    |cuts'| == |cuts| && forall g :: 0 <= g < |cuts| ==> cuts'[g] == cuts[g] + if g > i then 1 else 0
  }

  ghost predicate Bounded(cuts: seq<nat>, n: nat) { forall g :: 0 <= g < |cuts| ==> cuts[g] <= n }

  lemma Around(ks: seq<int>, p: nat, K: int)
    requires p <= |ks| && Sorted(Inserted(ks, p, K))
    ensures (forall i :: 0 <= i < p ==> ks[i] < K) && forall i :: p <= i < |ks| ==> K < ks[i]
  {
    var ks' := Inserted(ks, p, K);
    assert ks'[p] == K;
    forall i | 0 <= i < |ks| ensures if i < p then ks[i] < K else K < ks[i] {
      assert ks[i] == ks'[if i < p then i else i + 1];
    }
  }

  lemma PartsWith(ks: seq<int>, p: nat, K: int, s: nat, sep: int)
    requires p <= |ks| && Parts(ks, s, sep) && s <= |ks| && Sorted(Inserted(ks, p, K))
    ensures Parts(Inserted(ks, p, K), if sep <= K then s else s + 1, sep)
  {
    hide Sorted;
    Around(ks, p, K);
    assert s > p ==> K < ks[p] < sep;
    assert p > s ==> sep <= ks[s] < K;
    forall i | 0 <= i < |ks| + 1
      ensures if i < (if sep <= K then s else s + 1) then Inserted(ks, p, K)[i] < sep else sep <= Inserted(ks, p, K)[i]
    {
    }
  }

  lemma RowWith(pages: Pages, row: seq<Id>, i: nat, cuts: seq<nat>, cuts': seq<nat>, keys: Keys, ks: seq<int>, p: nat,
                K: int)
    requires p <= |ks| && Sorted(Inserted(ks, p, K)) && RowKeyed(pages, row, cuts, keys, ks)
             && RowBelongs(pages, row, i, keys, K)
    requires LaterAfter(cuts, cuts', i) && Bounded(cuts, |ks|) && |cuts| == |Joined(pages, row)|
    ensures RowKeyed(pages, row, cuts', keys, Inserted(ks, p, K))
  {
    hide Joined, Nodes, KeyOf, Parts, Inserted, Sorted, RowKeyed, RowBelongs, LaterAfter, Bounded;
    forall t, k | 0 <= t < |row| && 1 <= k < |Nodes(pages, row[t])|
      ensures Parts(Inserted(ks, p, K), Cut(cuts', Start(pages, row, t) + k), KeyOf(keys, Nodes(pages, row[t])[k]))
    {
      NodeWith(pages, row, i, cuts, cuts', keys, ks, p, K, t, k);
    }
    MakeKeyed(pages, row, cuts', keys, Inserted(ks, p, K));
  }

  lemma NodeWith(pages: Pages, row: seq<Id>, i: nat, cuts: seq<nat>, cuts': seq<nat>, keys: Keys, ks: seq<int>, p: nat,
                 K: int, t: nat, k: nat)
    requires p <= |ks| && Sorted(Inserted(ks, p, K)) && RowKeyed(pages, row, cuts, keys, ks)
             && RowBelongs(pages, row, i, keys, K)
    requires LaterAfter(cuts, cuts', i) && Bounded(cuts, |ks|) && |cuts| == |Joined(pages, row)|
    requires t < |row| && 1 <= k < |Nodes(pages, row[t])|
    ensures Parts(Inserted(ks, p, K), Cut(cuts', Start(pages, row, t) + k), KeyOf(keys, Nodes(pages, row[t])[k]))
  {
    hide Joined, Nodes, KeyOf, Parts, Inserted, Sorted, RowKeyed, RowBelongs, LaterAfter, Bounded;
    NodeAt(pages, row, t, k);
    var g, sep := Start(pages, row, t) + k, KeyOf(keys, Nodes(pages, row[t])[k]);
    KeyedNode(pages, row, cuts, keys, ks, t, k);
    BelongsNode(pages, row, i, keys, K, t, k);
    LaterCut(cuts, cuts', i, |ks|, g);
    PartsWith(ks, p, K, Cut(cuts, g), sep);
  }

  lemma KeyedNode(pages: Pages, row: seq<Id>, cuts: seq<nat>, keys: Keys, ks: seq<int>, t: nat, k: nat)
    requires RowKeyed(pages, row, cuts, keys, ks) && t < |row| && 1 <= k < |Nodes(pages, row[t])|
    ensures Parts(ks, Cut(cuts, Start(pages, row, t) + k), KeyOf(keys, Nodes(pages, row[t])[k]))
  {
  }

  lemma BelongsNode(pages: Pages, row: seq<Id>, i: nat, keys: Keys, K: int, t: nat, k: nat)
    requires RowBelongs(pages, row, i, keys, K) && t < |row| && 1 <= k < |Nodes(pages, row[t])|
    ensures KeyOf(keys, Nodes(pages, row[t])[k]) <= K <==> Start(pages, row, t) + k <= i
  {
  }

  lemma LaterCut(cuts: seq<nat>, cuts': seq<nat>, i: nat, n: nat, g: nat)
    requires LaterAfter(cuts, cuts', i) && Bounded(cuts, n) && g < |cuts|
    ensures Cut(cuts', g) == Cut(cuts, g) + (if g > i then 1 else 0) && Cut(cuts, g) <= n
  {
  }

  lemma UpWith(pages: Pages, row: seq<Id>, t: nat, k: nat, i: nat, cuts: seq<nat>, cuts': seq<nat>, n: nat)
    requires LaterAfter(cuts, cuts', i) && Bounded(cuts, n) && |cuts| == |Joined(pages, row)|
    requires t < |row| && k < |Nodes(pages, row[t])| && i == Start(pages, row, t) + k
             && forall t2 :: 0 <= t2 < |row| ==> Nodes(pages, row[t2]) != []
    ensures LaterAfter(CutsUp(pages, row, cuts), CutsUp(pages, row, cuts'), t) && Bounded(CutsUp(pages, row, cuts), n)
  {
    hide Joined, Nodes, LaterAfter, Bounded;
    forall t2 | 0 <= t2 < |row|
      ensures Start(pages, row, t2) < |cuts| && Cut(cuts', Start(pages, row, t2)) ==
              Cut(cuts, Start(pages, row, t2)) + if t2 > t then 1 else 0
      ensures Cut(cuts, Start(pages, row, t2)) <= n
    {
      NodeAt(pages, row, t2, 0);
      if t2 < t {
        StartGrows(pages, row, t2, t);
      } else if t < t2 {
        StartGrows(pages, row, t, t2);
      }
      LaterCut(cuts, cuts', i, n, Start(pages, row, t2));
    }
    MakeLater(CutsUp(pages, row, cuts), CutsUp(pages, row, cuts'), t, n);
  }

  lemma MakeLater(cuts: seq<nat>, cuts': seq<nat>, i: nat, n: nat)
    requires |cuts'| == |cuts|
             && forall g :: 0 <= g < |cuts| ==> cuts'[g] == cuts[g] + (if g > i then 1 else 0) && cuts[g] <= n
    ensures LaterAfter(cuts, cuts', i) && Bounded(cuts, n)
  {
  }

  /** The keys of all branch nodes are right with the item, if it belongs where it comes. */
  lemma {:induction false} KeyedWith(pages: Pages, root: Id, lv: seq<seq<int>>, m: nat, c: Stack, ix: seq<nat>,
                                     cuts: seq<nat>, cuts': seq<nat>, keys: Keys, ks: seq<int>, p: nat, K: int)
    requires Rows(pages, root, lv) && m < |lv| - 1 && p <= |ks| && Sorted(Inserted(ks, p, K))
             && KeyedTo(pages, lv, m, cuts, keys, ks)
    requires BelongsTo(pages, lv, m, ix, keys, K) && TracesTo(pages, lv, c, ix, m)
    requires LaterAfter(cuts, cuts', ix[m]) && Bounded(cuts, |ks|) && |cuts| == |lv[m]|
    requires forall l, i :: 0 <= l < m && 0 <= i < |lv[l]| ==> Nodes(pages, lv[l][i]) != []
    ensures KeyedTo(pages, lv, m, cuts', keys, Inserted(ks, p, K))
  {
    hide Joined, Nodes, RowKeyed, RowBelongs, LaterAfter, Bounded, Inserted, Sorted, CutsUp, Rows;
    if m > 0 {
      var row := lv[m - 1];
      RowBelow(pages, root, lv, m - 1);
      assert Link(pages, lv[m - 1], ix[m - 1], c.pg[m - 1], c.ki[m - 1], ix[m]);
      RowWith(pages, row, ix[m], cuts, cuts', keys, ks, p, K);
      UpWith(pages, row, ix[m - 1], c.ki[m - 1], ix[m], cuts, cuts', |ks|);
      KeyedWith(pages, root, lv, m - 1, c, ix, CutsUp(pages, row, cuts), CutsUp(pages, row, cuts'), keys, ks, p, K);
    }
  }

  /** An item with key K belongs in the leaf that ix leads to. */
  ghost predicate LeafBelongs(pages: Pages, lv: seq<seq<int>>, ix: seq<nat>, keys: Keys, K: int) {
    |lv| >= 2 && BelongsTo(pages, lv, |lv| - 2, ix, keys, K)
  }

  /** The item may come into the leaf that ix leads to, as number p: one with the
      same key, or a new one that belongs there and keeps the order. */
  ghost predicate MayCome(pages: Pages, lv: seq<seq<int>>, ix: seq<nat>, keys: Keys, key: int -> int, p: nat, x: int,
                          replace: bool) {
    && |lv| >= 2
    && var items := lv[|lv| - 1];
       if replace then p < |items| && key(x) == key(items[p])
       else p <= |items| && LeafBelongs(pages, lv, ix, keys, key(x))
            && Sorted(Inserted(ItemKeys(key, items), p, key(x)))
  }

  /** Where the leaves of the row begin once leaf j has one item more. */
  ghost function StartsAfter(pages: Pages, row: seq<Id>, j: nat, replace: bool): (r: seq<nat>)
    ensures |r| == |row| && forall i :: 0 <= i < |row| ==> r[i] == Start(pages, row, i) + if i > j && !replace then 1
            else 0
  {
    seq(|row|, i requires 0 <= i < |row| => Start(pages, row, i) + if i > j && !replace then 1 else 0)
  }

  /** The keys of branch nodes are right for the items with the new one. */
  lemma PutKeyed(pages: Pages, root: Id, lv: seq<seq<int>>, c: Stack, ix: seq<nat>, keys: Keys, key: int -> int, p: nat,
                 x: int, replace: bool)
    requires Rows(pages, root, lv) && NoneEmpty(pages, lv, 0) && RightKeys(pages, lv, keys, key)
             && TracesTo(pages, lv, c, ix, |lv| - 2)
    requires MayCome(pages, lv, ix, keys, key, p, x, replace)
    ensures var D := |lv| - 2;
            && |lv| >= 2 && |ix| == |lv| && (if replace then p < |lv[D + 1]| else p <= |lv[D + 1]|)
            && var ks' := ItemKeys(key, PutInto(lv[D + 1], p, x, replace));
               Sorted(ks') && KeyedTo(pages, lv, D, StartsAfter(pages, lv[D], ix[D], replace), keys, ks')
  {
    hide Joined, Nodes, KeyOf, KeyedTo, Sorted, Rows, BelongsTo;
    var D := |lv| - 2;
    var row, ks, ks' := lv[D], ItemKeys(key, lv[D + 1]), ItemKeys(key, PutInto(lv[D + 1], p, x, replace));
    TraceSizes(pages, lv, c, ix, D);
    if replace {
      assert ks' == ks;
      assert StartsAfter(pages, row, ix[D], true) == Starts(pages, row);
    } else {
      assert ks' == Inserted(ks, p, key(x));
      RowBelow(pages, root, lv, D);
      forall i | 0 <= i < |row| ensures Start(pages, row, i) <= |ks| {
        JoinedAt(pages, row, i);
      }
      KeyedWith(pages, root, lv, D, c, ix, Starts(pages, row), StartsAfter(pages, row, ix[D], false), keys, ks, p,
                key(x));
    }
  }

  /** The leaf with the new item, all cuts being where they are then. */
  lemma KeysWith(pages: Pages, root: Id, lv: seq<seq<int>>, c: Stack, ix: seq<nat>, keys: Keys, key: int -> int, p: nat,
                 x: int, replace: bool)
    requires Rows(pages, root, lv) && Distinct(lv) && NoneEmpty(pages, lv, 0) && RightKeys(pages, lv, keys, key)
             && TracesTo(pages, lv, c, ix, |lv| - 2)
    requires MayCome(pages, lv, ix, keys, key, p, x, replace)
    requires p == Start(pages, lv[|lv| - 2], ix[|lv| - 2]) + c.ki[|lv| - 2]
    requires var N, k := Nodes(pages, c.pg[|lv| - 2]), c.ki[|lv| - 2]; if replace then k < |N| else k <= |N|
    ensures var L := |lv| - 2;
            && |c.pg| == |c.ki| == L + 1 && (if replace then p < |lv[L + 1]| else p <= |lv[L + 1]|)
            && RightKeys(pages[c.pg[L] := PutInto(Nodes(pages, c.pg[L]), c.ki[L], x, replace)],
                         lv[L + 1 := PutInto(lv[L + 1], p, x, replace)], keys, key)
  {
    hide Joined, Nodes, Distinct, KeyOf, KeyedTo, Sorted, Rows, BelongsTo, SameOn, NoneEmpty;
    var D := |lv| - 2;
    TraceSizes(pages, lv, c, ix, D);
    var row, mp, j, k := lv[D], c.pg[D], ix[D], c.ki[D];
    PutKeyed(pages, root, lv, c, ix, keys, key, p, x, replace);
    var nodes := PutInto(Nodes(pages, mp), k, x, replace);
    var pages', lv' := pages[mp := nodes], lv[D + 1 := PutInto(lv[D + 1], p, x, replace)];
    LeafEdit(pages, root, lv, j, nodes);
    NewNodes(pages, mp, nodes);
    JoinedEdit(pages, pages', row, j);
    forall i | 0 <= i < |row| ensures Start(pages', row, i) == StartsAfter(pages, row, j, replace)[i] {
    }
    assert Starts(pages', row) == StartsAfter(pages, row, j, replace);
    forall l | 1 <= l <= D ensures SameKeys(keys, keys, lv[l]) {
    }
    KeyedSame(pages, root, lv, pages', lv', D, Starts(pages', row), keys, keys, ItemKeys(key, lv'[D + 1]));
  }

  /** Whatever belonged below a page belongs there still. */
  ghost predicate BelongKept(pages: Pages, lv: seq<seq<int>>, keys: Keys, pages': Pages, lv': seq<seq<int>>,
                             keys': Keys) {
    |lv'| == |lv| >= 2 && forall ix, K :: LeafBelongs(pages, lv, ix, keys, K) ==> LeafBelongs(pages', lv', ix, keys', K)
  }

  lemma BelongTwice(p0: Pages, lv0: seq<seq<int>>, k0: Keys, p1: Pages, lv1: seq<seq<int>>, k1: Keys, p2: Pages,
                    lv2: seq<seq<int>>, k2: Keys)
    requires BelongKept(p0, lv0, k0, p1, lv1, k1) && BelongKept(p1, lv1, k1, p2, lv2, k2)
    ensures BelongKept(p0, lv0, k0, p2, lv2, k2)
  {
    hide LeafBelongs;
  }

  lemma BelongsAlike(pages: Pages, lv: seq<seq<int>>, keys: Keys, pages': Pages, lv': seq<seq<int>>, keys': Keys)
    requires |lv'| == |lv| >= 2
             && forall l :: 0 <= l < |lv| - 2 ==> AlikeKeyed(pages, lv[l], keys, pages', lv'[l], keys')
    ensures BelongKept(pages, lv, keys, pages', lv', keys')
  {
    hide Joined, Nodes, KeyOf, AlikeKeyed, RowBelongs;
    forall ix, K | LeafBelongs(pages, lv, ix, keys, K) ensures LeafBelongs(pages', lv', ix, keys', K) {
      forall l | 0 <= l < |lv| - 2 ensures RowBelongs(pages', lv'[l], ix[l + 1], keys', K) {
        RowBelongsAlike(pages, lv[l], ix[l + 1], keys, K, pages', lv'[l], keys');
      }
    }
  }

  lemma RowBelongsAlike(pages: Pages, row: seq<Id>, i: nat, keys: Keys, K: int, pages': Pages, row': seq<Id>,
                        keys': Keys)
    requires RowBelongs(pages, row, i, keys, K) && AlikeKeyed(pages, row, keys, pages', row', keys')
    ensures RowBelongs(pages', row', i, keys', K)
  {
    hide Joined, Nodes, KeyOf;
    forall t, k | 0 <= t < |row'| && 1 <= k < |Nodes(pages', row'[t])|
      ensures KeyOf(keys', Nodes(pages', row'[t])[k]) == KeyOf(keys, Nodes(pages, row[t])[k])
              && Start(pages', row', t) == Start(pages, row, t)
    {
    }
  }

  lemma BelongKeptSelf(pages: Pages, lv: seq<seq<int>>, keys: Keys)
    requires |lv| >= 2
    ensures BelongKept(pages, lv, keys, pages, lv, keys)
  {
  }
}
