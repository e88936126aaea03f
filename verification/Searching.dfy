/** mdb_page_search, from the root, in a tree whose keys are right. */
module Searching {
  import opened Sequences
  import opened Levels
  import opened Separators
  import opened KeyedMoves
  import opened KeyedItems
  import opened Tracking
  import opened Positions
  import opened Insertion
  import TreeCursor

  /** The first lo items have keys below K, and those from hi on keys above. */
  ghost predicate Between(ks: seq<int>, lo: nat, hi: nat, K: int) {
    && (forall i :: 0 <= i < lo && i < |ks| ==> ks[i] < K)
    && (forall i :: hi <= i < |ks| ==> K < ks[i])
  }

  /** Where pages begin grows from page to page. */
  lemma {:induction false} LowGrows(pages: Pages, root: Id, lv: seq<seq<int>>, l: nat, g: nat, g': nat)
    requires Rows(pages, root, lv) && NoneEmpty(pages, lv, l) && l < |lv| && g < g' <= |lv[l]|
    ensures Low(pages, lv, l, g) < Low(pages, lv, l, g') <= |lv[|lv| - 1]|
    decreases |lv| - l
  {
    hide Joined, Nodes, Rows;
    if l < |lv| - 1 {
      RowBelow(pages, root, lv, l);
      StartGrows(pages, lv[l], g, g');
      JoinedAt(pages, lv[l], g);
      WholeStart(pages, lv[l]);
      if g' < |lv[l]| {
        StartGrows(pages, lv[l], g', |lv[l]|);
      }
      LowGrows(pages, root, lv, l + 1, Start(pages, lv[l], g), Start(pages, lv[l], g'));
    }
  }

  lemma LowStart(pages: Pages, lv: seq<seq<int>>, l: nat, i: nat)
    requires l < |lv| - 1 && i <= |lv[l]|
    ensures Low(pages, lv, l, i) == Low(pages, lv, l + 1, Start(pages, lv[l], i))
  {
  }

  /** A key in row l parts the items before its child from the others. */
  lemma SepParts(pages: Pages, root: Id, lv: seq<seq<int>>, keys: Keys, ks: seq<int>, l: nat, t: nat, k: nat)
    requires Rows(pages, root, lv) && NoneEmpty(pages, lv, 0) && Keyed(pages, lv, keys, ks) && l + 2 < |lv|
             && t < |lv[l]| && 1 <= k < |Nodes(pages, lv[l][t])|
    ensures var g := Start(pages, lv[l], t) + k;
            g < |lv[l + 1]| && 0 < Low(pages, lv, l + 1, g) < |ks|
                && Parts(ks, Low(pages, lv, l + 1, g), KeyOf(keys, Nodes(pages, lv[l][t])[k]))
  {
    hide Joined, Nodes, Rows, KeyOf, Parts, Low, NoneEmpty, LeafCuts, CutsUp, KeyedTo, Sorted;
    var g := Start(pages, lv[l], t) + k;
    RowBelow(pages, root, lv, l);
    NodeAt(pages, lv[l], t, k);
    RowRight(pages, lv, keys, ks, l);
    NoneEmptyFrom(pages, lv, l + 1);
    NoneEmptyAt(pages, lv, l + 1, g);
    LowIsCut(pages, root, lv, l + 1, g);
    LowGrows(pages, root, lv, l + 1, 0, g);
  }

  lemma NoneEmptyFrom(pages: Pages, lv: seq<seq<int>>, l: nat)
    requires NoneEmpty(pages, lv, 0)
    ensures NoneEmpty(pages, lv, l)
  {
  }

  /** The keys of the nodes of a page. */
  function NodeKeys(keys: Keys, nodes: seq<int>): (r: seq<int>)
    ensures |r| == |nodes| && forall k :: 0 <= k < |nodes| ==> r[k] == KeyOf(keys, nodes[k])
  {
    seq(|nodes|, k requires 0 <= k < |nodes| => KeyOf(keys, nodes[k]))
  }

  /** The keys in a branch page ascend. */
  lemma SepsAscend(pages: Pages, root: Id, lv: seq<seq<int>>, keys: Keys, ks: seq<int>, l: nat, t: nat)
    requires Rows(pages, root, lv) && NoneEmpty(pages, lv, 0) && Keyed(pages, lv, keys, ks) && l + 2 < |lv|
             && t < |lv[l]|
    ensures TreeCursor.Ascending(NodeKeys(keys, Nodes(pages, lv[l][t])), 1)
  {
    hide Joined, Nodes, Rows, KeyOf, Low, NoneEmpty, Keyed;
    var seps := NodeKeys(keys, Nodes(pages, lv[l][t]));
    forall i, j | 1 <= i < j < |seps| ensures seps[i] < seps[j] {
      SepParts(pages, root, lv, keys, ks, l, t, i);
      SepParts(pages, root, lv, keys, ks, l, t, j);
      NoneEmptyFrom(pages, lv, l + 1);
      LowGrows(pages, root, lv, l + 1, Start(pages, lv[l], t) + i, Start(pages, lv[l], t) + j);
      assert seps[i] <= ks[Low(pages, lv, l + 1, Start(pages, lv[l], t) + i)] < seps[j];
    }
  }

  /** Child i of page t of row l is the one to go on to. */
  ghost predicate Chosen(seps: seq<int>, i: nat, K: int) {
    && i < |seps|
    && (forall k :: 1 <= k <= i ==> seps[k] <= K)
    && (forall k :: i < k < |seps| ==> K < seps[k])
  }

  /** A key in a page beside the one the search is at. */
  lemma SepBeside(pages: Pages, root: Id, lv: seq<seq<int>>, keys: Keys, ks: seq<int>, l: nat, t: nat, K: int, t2: nat,
                  k: nat)
    requires Rows(pages, root, lv) && NoneEmpty(pages, lv, 0) && Keyed(pages, lv, keys, ks) && l + 2 < |lv|
             && t < |lv[l]|
    requires t2 < |lv[l]| && t2 != t && 1 <= k < |Nodes(pages, lv[l][t2])|
    requires Between(ks, Low(pages, lv, l, t), Low(pages, lv, l, t + 1), K)
    ensures if t2 < t then KeyOf(keys, Nodes(pages, lv[l][t2])[k]) <= K else K < KeyOf(keys, Nodes(pages, lv[l][t2])[k])
    ensures if t2 < t then Start(pages, lv[l], t2) + k < Start(pages, lv[l], t)
            else Start(pages, lv[l], t2) + k > Start(pages, lv[l], t) + |Nodes(pages, lv[l][t])|
  {
    hide Joined, Nodes, Rows, KeyOf, Low, NoneEmpty, Keyed;
    var g := Start(pages, lv[l], t2) + k;
    SepParts(pages, root, lv, keys, ks, l, t2, k);
    NoneEmptyFrom(pages, lv, l + 1);
    LowStart(pages, lv, l, t);
    LowStart(pages, lv, l, t + 1);
    RowBelow(pages, root, lv, l);
    JoinedAt(pages, lv[l], t);
    var c := Low(pages, lv, l + 1, g);
    if t2 < t {
      StartGrows(pages, lv[l], t2, t);
      LowGrows(pages, root, lv, l + 1, g, Start(pages, lv[l], t));
      assert ks[c] < K;
    } else {
      StartGrows(pages, lv[l], t, t2);
      LowGrows(pages, root, lv, l + 1, Start(pages, lv[l], t + 1), g);
      assert K < ks[c - 1];
    }
  }

  /** One step of the search down keeps what it is about. */
  lemma StepBetween(pages: Pages, root: Id, lv: seq<seq<int>>, keys: Keys, ks: seq<int>, l: nat, t: nat, i: nat, K: int)
    requires Rows(pages, root, lv) && NoneEmpty(pages, lv, 0) && Keyed(pages, lv, keys, ks) && l + 2 < |lv|
             && t < |lv[l]|
    requires Between(ks, Low(pages, lv, l, t), Low(pages, lv, l, t + 1), K)
             && Chosen(NodeKeys(keys, Nodes(pages, lv[l][t])), i, K)
    ensures var g := Start(pages, lv[l], t) + i;
            RowBelongs(pages, lv[l], g, keys, K)
                && Between(ks, Low(pages, lv, l + 1, g), Low(pages, lv, l + 1, g + 1), K)
  {
    hide Joined, Nodes, Rows, KeyOf, Low, NoneEmpty, Keyed;
    var g, N := Start(pages, lv[l], t) + i, Nodes(pages, lv[l][t]);
    forall t2, k | 0 <= t2 < |lv[l]| && 1 <= k < |Nodes(pages, lv[l][t2])|
      ensures if Start(pages, lv[l], t2) + k <= g then KeyOf(keys, Nodes(pages, lv[l][t2])[k]) <= K
              else K < KeyOf(keys, Nodes(pages, lv[l][t2])[k])
    {
      if t2 != t {
        SepBeside(pages, root, lv, keys, ks, l, t, K, t2, k);
      } else {
        assert NodeKeys(keys, N)[k] == KeyOf(keys, N[k]);
      }
    }
    LowStart(pages, lv, l, t);
    LowStart(pages, lv, l, t + 1);
    JoinedAt(pages, lv[l], t);
    if i > 0 {
      SepParts(pages, root, lv, keys, ks, l, t, i);
      assert NodeKeys(keys, N)[i] <= K;
    }
    if i + 1 < |N| {
      SepParts(pages, root, lv, keys, ks, l, t, i + 1);
      assert K < NodeKeys(keys, N)[i + 1];
    }
  }

  /** The search so far: the stack mc leads to page ix[l] of row l, and no item
      with key K belongs outside of it. */
  ghost predicate Sought(db: Database, mc: Stack, ix: seq<nat>, l: nat, K: int)
    reads db
  {
    && l < db.depth && |db.lv| == db.depth + 1 && TracesTo(db.pages, db.lv, mc, ix, l) && |ix| > l && ix[l] < |db.lv[l]|
    && BelongsTo(db.pages, db.lv, l, ix, db.keys, K)
    && Between(ItemKeys(db.key, db.Items()), Low(db.pages, db.lv, l, ix[l]), Low(db.pages, db.lv, l, ix[l] + 1), K)
  }

  /** The child of the branch page that leads on to the key. */
  method Route(db: Database, mc: Stack, l: nat, K: int, ghost ix: seq<nat>) returns (i: nat)
    requires db.Ok({}) && db.InOrder() && l + 1 < db.depth && TracesTo(db.pages, db.lv, mc, ix, l)
    ensures Chosen(NodeKeys(db.keys, Nodes(db.pages, mc.pg[l])), i, K)
  {
    hide Joined, Nodes, Distinct, Rows, KeyOf, TracesTo, Keyed, NoneEmpty, MinKeys;
    TraceSizes(db.pages, db.lv, mc, ix, l);
    RowsWithNodes(db.pages, db.lv);
    BranchSize(db.pages, db.lv, l, ix[l]);
    var seps := NodeKeys(db.keys, Nodes(db.pages, mc.pg[l]));
    SepsAscend(db.pages, db.root, db.lv, db.keys, ItemKeys(db.key, db.Items()), l, ix[l]);
    var exact;
    i, exact := TreeCursor.NodeSearch(seps, 1, K);
    if i == |seps| {
      i := |seps| - 1;
    } else if !exact {
      i := i - 1;
    }
  }

  lemma BranchSize(pages: Pages, lv: seq<seq<int>>, l: nat, i: nat)
    requires MinKeys(pages, lv, {}) && l + 2 < |lv| && i < |lv[l]|
    ensures |Nodes(pages, lv[l][i])| >= 2
  {
  }

  lemma SoughtRoot(db: Database, mc: Stack, ix: seq<nat>, K: int)
    requires db.Ok({}) && |mc.pg| == |mc.ki| == db.depth && |ix| == db.depth + 1 && mc.pg[0] == db.root && ix[0] == 0
    ensures Sought(db, mc, ix, 0, K)
  {
    hide Joined, Nodes, Distinct;
    LowEnds(db.pages, db.root, db.lv, 0);
  }

  /** The first page of a row begins at the first item, and past its last page nothing is left. */
  lemma {:induction false} LowEnds(pages: Pages, root: Id, lv: seq<seq<int>>, l: nat)
    requires Rows(pages, root, lv) && l < |lv|
    ensures Low(pages, lv, l, 0) == 0 && Low(pages, lv, l, |lv[l]|) == |lv[|lv| - 1]|
    decreases |lv| - l
  {
    hide Joined, Nodes;
    if l < |lv| - 1 {
      RowBelow(pages, root, lv, l);
      WholeStart(pages, lv[l]);
      StartZero(pages, lv[l]);
      LowEnds(pages, root, lv, l + 1);
    }
  }

  /** The search goes down to child i. */
  lemma SoughtDown(db: Database, mc: Stack, ix: seq<nat>, l: nat, i: nat, K: int)
    requires db.Ok({}) && db.InOrder() && Sought(db, mc, ix, l, K) && l + 1 < db.depth && |mc.pg| == |mc.ki| == db.depth
    requires Chosen(NodeKeys(db.keys, Nodes(db.pages, mc.pg[l])), i, K) && i < |Nodes(db.pages, mc.pg[l])|
             && |ix| == db.depth + 1 && ix[l] < |db.lv[l]|
    ensures Sought(db, mc.(pg := mc.pg[l + 1 := Nodes(db.pages, mc.pg[l])[i]], ki := mc.ki[l := i]),
                   ix[l + 1 := Start(db.pages, db.lv[l], ix[l]) + i], l + 1, K)
  {
    hide Joined, Nodes, Distinct, Rows, KeyOf, Keyed, NoneEmpty, MinKeys, RowBelongs, Between, Chosen, TracesTo;
    TraceSizes(db.pages, db.lv, mc, ix, l);
    RowsWithNodes(db.pages, db.lv);
    StepBetween(db.pages, db.root, db.lv, db.keys, ItemKeys(db.key, db.Items()), l, ix[l], i, K);
    DownTrace(db.pages, db.root, db.lv, mc, ix, l, i);
  }

  lemma DownTrace(pages: Pages, root: Id, lv: seq<seq<int>>, mc: Stack, ix: seq<nat>, l: nat, i: nat)
    requires Rows(pages, root, lv) && TracesTo(pages, lv, mc, ix, l) && l + 2 < |lv| && i < |Nodes(pages, mc.pg[l])|
    ensures var mc', ix' := mc.(pg := mc.pg[l + 1 := Nodes(pages, mc.pg[l])[i]], ki := mc.ki[l := i]),
            ix[l + 1 := Start(pages, lv[l], ix[l]) + i];
            TracesTo(pages, lv, mc', ix', l + 1) && ix'[l + 1] < |lv[l + 1]|
  {
    hide Joined, Nodes, Rows;
    RowBelow(pages, root, lv, l);
    NodeAt(pages, lv[l], ix[l], i);
    var mc', ix' := mc.(pg := mc.pg[l + 1 := Nodes(pages, mc.pg[l])[i]], ki := mc.ki[l := i]),
        ix[l + 1 := Start(pages, lv[l], ix[l]) + i];
    forall m | 0 <= m < l + 1
      ensures Link(pages, lv[m], ix'[m], mc'.pg[m], mc'.ki[m], ix'[m + 1]) && mc'.ki[m] < |Nodes(pages, mc'.pg[m])|
    {
      if m < l {
        assert Link(pages, lv[m], ix[m], mc.pg[m], mc.ki[m], ix[m + 1]);
      }
    }
  }

  /** mdb_page_search: the leaf where an item with key K belongs. */
  method PageSearch(db: Database, mc0: Stack, K: int) returns (mc: Stack, ghost ix: seq<nat>)
    requires db.Ok({}) && db.InOrder()
    ensures Sought(db, mc, ix, db.depth - 1, K) && |mc.pg| == |mc.ki| == db.depth && |ix| == db.depth + 1
    ensures mc.init && !mc.eof && mc.del == mc0.del
  {
    hide Joined, Nodes, Distinct, Rows, KeyOf, Keyed, NoneEmpty, MinKeys, RowBelongs, Between, Chosen, TracesTo, Sought;
    var root := db.root;
    mc := mc0.(pg := seq(db.depth, _ => root), ki := seq(db.depth, _ => 0));
    ix := seq(db.depth + 1, _ => 0);
    var l := 0;
    SoughtRoot(db, mc, ix, K);
    while l + 1 < db.depth
      invariant 0 <= l < db.depth && |ix| == db.depth + 1 && |mc.pg| == |mc.ki| == db.depth && Sought(db, mc, ix, l, K)
      invariant mc.init == mc0.init && mc.eof == mc0.eof && mc.del == mc0.del
    {
      SoughtTraces(db, mc, ix, l, K);
      var i := Route(db, mc, l, K, ix);
      ChosenSize(NodeKeys(db.keys, Nodes(db.pages, mc.pg[l])), i, K);
      SoughtDown(db, mc, ix, l, i, K);
      ix := ix[l + 1 := Start(db.pages, db.lv[l], ix[l]) + i];
      mc := mc.(pg := mc.pg[l + 1 := Nodes(db.pages, mc.pg[l])[i]], ki := mc.ki[l := i]);
      l := l + 1;
    }
    SoughtFlags(db, mc, mc.(init := true, eof := false), ix, l, K);
    mc := mc.(init := true, eof := false);
  }

  lemma SoughtTraces(db: Database, mc: Stack, ix: seq<nat>, l: nat, K: int)
    requires Sought(db, mc, ix, l, K)
    ensures |db.lv| == db.depth + 1 && l < db.depth && TracesTo(db.pages, db.lv, mc, ix, l) && |ix| == db.depth + 1
            && ix[l] < |db.lv[l]|
  {
  }

  lemma ChosenSize(seps: seq<int>, i: nat, K: int)
    requires Chosen(seps, i, K)
    ensures i < |seps|
  {
  }

  lemma SoughtFlags(db: Database, c: Stack, c': Stack, ix: seq<nat>, l: nat, K: int)
    requires Sought(db, c, ix, l, K) && c'.pg == c.pg && c'.ki == c.ki
    ensures Sought(db, c', ix, l, K)
  {
    hide Joined, Nodes;
  }

  /** The items before, in and after the leaf that was found. */
  lemma LeafItems(db: Database, mc: Stack, ix: seq<nat>, K: int)
    requires db.Ok({}) && db.InOrder() && Sought(db, mc, ix, db.depth - 1, K) && |mc.pg| == |mc.ki| == db.depth
             && |ix| == db.depth + 1
    ensures ix[db.depth - 1] < |db.lv[db.depth - 1]| && db.lv[db.depth - 1][ix[db.depth - 1]] == mc.pg[db.depth - 1]
    ensures var N, b, items := Nodes(db.pages, mc.pg[db.depth - 1]),
            Start(db.pages, db.lv[db.depth - 1], ix[db.depth - 1]), db.Items();
            && b + |N| <= |items|
            && (forall q :: 0 <= q < b ==> db.key(items[q]) < K)
            && (forall q :: 0 <= q < |N| ==> items[b + q] == N[q])
            && (forall q :: b + |N| <= q < |items| ==> K < db.key(items[q]))
  {
    hide Joined, Nodes, Distinct, Rows, KeyOf, NoneEmpty, MinKeys, RowBelongs, KeyedTo, Traces, TracesTo, Sorted;
    var D := db.depth - 1;
    SoughtTraces(db, mc, ix, D, K);
    TraceSizes(db.pages, db.lv, mc, ix, D);
    RowBelow(db.pages, db.root, db.lv, D);
    JoinedAt(db.pages, db.lv[D], ix[D]);
    LowStart(db.pages, db.lv, D, ix[D]);
    LowStart(db.pages, db.lv, D, ix[D] + 1);
    var N, b, items := Nodes(db.pages, mc.pg[D]), Start(db.pages, db.lv[D], ix[D]), db.Items();
    var ks := ItemKeys(db.key, items);
    assert Between(ks, b, b + |N|, K);
    forall q | 0 <= q < |N| ensures items[b + q] == N[q] {
      NodeAt(db.pages, db.lv[D], ix[D], q);
    }
    forall q | 0 <= q < |items| && !(b <= q < b + |N|)
      ensures if q < b then db.key(items[q]) < K else K < db.key(items[q])
    {
      assert ks[q] == db.key(items[q]);
    }
  }

  /** What the search in the leaf says about all items. */
  lemma LeafParts(key: int -> int, items: seq<int>, N: seq<int>, b: nat, K: int, i: nat)
    requires b + |N| <= |items| && (forall q :: 0 <= q < b ==> key(items[q]) < K)
    requires (forall q :: 0 <= q < |N| ==> items[b + q] == N[q])
             && forall q :: b + |N| <= q < |items| ==> K < key(items[q])
    requires TreeCursor.LowerBound(ItemKeys(key, N), 0, K, i)
    ensures Parts(ItemKeys(key, items), b + i, K) && b + i <= |items|
    ensures b + i < |items| && key(items[b + i]) == K <==> i < |N| && key(N[i]) == K
  {
    var keys, ks := ItemKeys(key, N), ItemKeys(key, items);
    forall q | 0 <= q < |ks| ensures if q < b + i then ks[q] < K else K <= ks[q] {
      if b <= q < b + |N| {
        assert items[b + (q - b)] == N[q - b] && keys[q - b] == ks[q];
      }
    }
    assert i < |N| ==> items[b + i] == N[i];
    assert i == |N| && b + i < |items| ==> K < key(items[b + i]);
  }

  /** The cursor in the leaf, at the index found. */
  lemma LeafFound(db: Database, mc: Stack, ix: seq<nat>, K: int, i: nat) returns (p: nat, mix: seq<nat>)
    requires db.Ok({}) && db.InOrder() && Sought(db, mc, ix, db.depth - 1, K) && |mc.pg| == |mc.ki| == db.depth
             && |ix| == db.depth + 1
    requires TreeCursor.LowerBound(ItemKeys(db.key, Nodes(db.pages, mc.pg[db.depth - 1])), 0, K, i)
    ensures var mc' := mc.(ki := mc.ki[db.depth - 1 := i]);
            && p <= |db.Items()| && Slot(db.pages, db.lv, mc', p, mix) && LeafBelongs(db.pages, db.lv, mix, db.keys, K)
            && Parts(ItemKeys(db.key, db.Items()), p, K)
            && (p < |db.Items()| && db.key(db.Items()[p]) == K
                <==> i < |Nodes(db.pages, mc.pg[db.depth - 1])| && db.key(Nodes(db.pages, mc.pg[db.depth - 1])[i]) == K)
            && (Inside(db.pages, mc') ==> AtIx(db.pages, db.lv, mc', p, mix))
  {
    hide Joined, Nodes, Distinct, Rows, KeyOf, MinKeys, RowBelongs, RightKeys, Traces, TracesTo, Parts, Between, Low,
         TreeCursor.LowerBound;
    var D := db.depth - 1;
    LeafItems(db, mc, ix, K);
    var N, b := Nodes(db.pages, mc.pg[D]), Start(db.pages, db.lv[D], ix[D]);
    LeafParts(db.key, db.Items(), N, b, K, i);
    p := b + i;
    mix := ix[db.depth := p];
    LowerBoundSize(ItemKeys(db.key, N), K, i);
    EndTrace(db.pages, db.lv, mc, ix, i, p);
  }

  lemma LowerBoundSize(keys: seq<int>, K: int, i: nat)
    requires TreeCursor.LowerBound(keys, 0, K, i)
    ensures i <= |keys|
  {
  }

  lemma EndTrace(pages: Pages, lv: seq<seq<int>>, mc: Stack, ix: seq<nat>, i: nat, p: nat)
    requires |lv| >= 2 && TracesTo(pages, lv, mc, ix, |lv| - 2) && p == Start(pages, lv[|lv| - 2], ix[|lv| - 2]) + i
    ensures |mc.ki| == |lv| - 1 && |ix| == |lv| && Traces(pages, lv, mc.(ki := mc.ki[|lv| - 2 := i]), ix[|lv| - 1 := p])
  {
    hide Joined, Nodes;
    var D := |lv| - 2;
    var c', ix' := mc.(ki := mc.ki[D := i]), ix[D + 1 := p];
    forall l | 0 <= l < D + 1 ensures Link(pages, lv[l], ix'[l], c'.pg[l], c'.ki[l], ix'[l + 1]) {
      if l < D {
        assert Link(pages, lv[l], ix[l], mc.pg[l], mc.ki[l], ix[l + 1]);
      }
    }
  }

  lemma PartsSorted(ks: seq<int>, p: nat, K: int)
    requires Sorted(ks) && p <= |ks| && Parts(ks, p, K) && (p < |ks| ==> ks[p] != K)
    ensures Sorted(Inserted(ks, p, K))
  {
    var ks' := Inserted(ks, p, K);
    forall i, j | 0 <= i < j < |ks'| ensures ks'[i] < ks'[j] {
      if i < p < j {
        assert ks[i] < K <= ks[p] <= ks[j - 1];
      }
    }
  }

  /** mdb_cursor_set from the root: the item with key K, or the place for one. */
  method Find(db: Database, mc0: Stack, K: int) returns (exact: bool, mc: Stack, ghost p: nat, ghost mix: seq<nat>)
    requires db.Ok({}) && db.InOrder()
    ensures p <= |db.Items()| && Parts(ItemKeys(db.key, db.Items()), p, K)
    ensures exact <==> exists y :: y in db.Items() && db.key(y) == K
    ensures exact ==> p < |db.Items()| && db.key(db.Items()[p]) == K
    ensures Slot(db.pages, db.lv, mc, p, mix) && |mc.pg| == |mc.ki| == db.depth && mc.init && !mc.eof
            && mc.del == mc0.del
    ensures exact ==> Inside(db.pages, mc) && AtIx(db.pages, db.lv, mc, p, mix)
    ensures forall x :: db.key(x) == K ==> MayCome(db.pages, db.lv, mix, db.keys, db.key, p, x, exact)
  {
    hide Joined, Nodes, Distinct, Rows, KeyOf, KeyedTo, NoneEmpty, MinKeys, Sought, Slot, AtIx, LeafBelongs, Sorted,
         Parts;
    ghost var ix;
    mc, ix := PageSearch(db, mc0, K);
    var top := db.depth - 1;
    var nodes := Nodes(db.pages, mc.pg[top]);
    LeafSorted(db, mc, ix, K);
    var keys := ItemKeys(db.key, nodes);
    var i;
    i, exact := TreeCursor.NodeSearch(keys, 0, K);
    p, mix := LeafFound(db, mc, ix, K, i);
    mc := mc.(ki := mc.ki[top := i]);
    assert i < |keys| ==> keys[i] == db.key(nodes[i]);
    NoOther(db.key, db.Items(), p, K);
    if !exact {
      PartsSorted(ItemKeys(db.key, db.Items()), p, K);
    }
  }

  lemma LeafSorted(db: Database, mc: Stack, ix: seq<nat>, K: int)
    requires db.Ok({}) && db.InOrder() && Sought(db, mc, ix, db.depth - 1, K) && |mc.pg| == db.depth
    ensures TreeCursor.Ascending(ItemKeys(db.key, Nodes(db.pages, mc.pg[db.depth - 1])), 0)
  {
    hide Joined, Nodes, Distinct, Rows, KeyedTo, MinKeys, TracesTo;
    var D := db.depth - 1;
    SoughtTraces(db, mc, ix, D, K);
    TraceSizes(db.pages, db.lv, mc, ix, D);
    RowBelow(db.pages, db.root, db.lv, D);
    var N, b := Nodes(db.pages, mc.pg[D]), Start(db.pages, db.lv[D], ix[D]);
    forall i, j | 0 <= i < j < |N| ensures db.key(N[i]) < db.key(N[j]) {
      NodeAt(db.pages, db.lv[D], ix[D], i);
      NodeAt(db.pages, db.lv[D], ix[D], j);
      assert ItemKeys(db.key, db.Items())[b + i] < ItemKeys(db.key, db.Items())[b + j];
    }
  }

  /** Only the item at the cut can have the key. */
  lemma NoOther(key: int -> int, items: seq<int>, p: nat, K: int)
    requires Sorted(ItemKeys(key, items)) && Parts(ItemKeys(key, items), p, K) && p <= |items|
    ensures forall y :: y in items && key(y) == K ==> p < |items| && y == items[p]
    ensures (exists y :: y in items && key(y) == K) <==> p < |items| && key(items[p]) == K
  {
    assert p < |items| ==> items[p] in items;
    forall y | y in items && key(y) == K ensures p < |items| && y == items[p] {
      var q :| 0 <= q < |items| && items[q] == y;
      assert ItemKeys(key, items)[q] == K;
      assert p < |items| ==> K <= ItemKeys(key, items)[p];
    }
  }
}
