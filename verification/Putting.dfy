/**
 mdb_cursor_put of an item into the leaf the cursor has been led to.

 The path of the cursor is touched first, which renumbers pages but leaves where
 the item belongs.  Then it comes into its leaf, or, if there is no room, the
 leaf is split.

 The leaf split is the page split of Splitting for the last row of pages, where
 the row that grows is that of the items themselves: `LeafReady` and
 `LeafKeyable` say that it may be done, `LeafSplit` and `SplitKeys` what it has
 come to.
 */
module Putting {
  import opened Sequences
  import opened Levels
  import opened Separators
  import opened KeyedMoves
  import opened KeyedItems
  import opened Tracking
  import opened Positions
  import opened Touching
  import opened Insertion
  import opened RowSplits
  import opened SplitSteps
  import opened Splitting

  /** For a stack of full height there is nothing below. */
  lemma WholeStack(pages: Pages, lv: seq<seq<int>>, c: Stack, q: nat)
    requires At(pages, lv, c, q)
    ensures |lv| >= 2 && |c.pg| == |c.ki| == |lv| - 1 && Top(c, |lv| - 1) == c && On(pages, lv, c, q)
  {
    hide Nodes, Traces;
  }

  /** The leaf of the acting cursor can be split. */
  lemma LeafReady(db: Database, me: nat, x: int, replace: bool, places: seq<nat>, mix: seq<nat>)
    requires db.Ok({}) && db.Spare() && db.Sized() && me < |db.cursors| == |places| && db.cursors[me].init
    requires Placed(db.pages, db.lv, db.cursors[me := db.cursors[me].(init := false)], places)
    requires Slot(db.pages, db.lv, db.cursors[me], places[me], mix) && (replace ==> Inside(db.pages, db.cursors[me]))
    requires 2 + (if replace then 1 else 0) <= |Nodes(db.pages, db.cursors[me].pg[db.depth - 1])|
    ensures CanSplit(db, me, db.depth - 1, x, replace, places, mix) && db.lv[..db.depth + 1] == db.lv
  {
    hide Joined, Nodes, Distinct, Rows, Traces, MinKeys, At, Unused;
    var mc, top := db.cursors[me], db.depth - 1;
    assert db.lv[..top + 2] == db.lv;
    TraceLink(db.pages, db.lv, mc, mix, top);
    SlotIndex(db.pages, db.root, db.lv, mc, places[me], mix);
    forall i | 0 <= i < |db.cursors| && i != me && db.cursors[i].init
      ensures On(db.pages, db.lv, db.cursors[i], places[i])
    {
      assert db.cursors[me := mc.(init := false)][i] == db.cursors[i];
      WholeStack(db.pages, db.lv, db.cursors[i], places[i]);
    }
  }

  lemma SlotIndex(pages: Pages, root: Id, lv: seq<seq<int>>, mc: Stack, p: nat, mix: seq<nat>)
    requires Rows(pages, root, lv) && |lv| >= 2 && Slot(pages, lv, mc, p, mix)
    ensures p <= |lv[|lv| - 1]| && (Inside(pages, mc) ==> p < |lv[|lv| - 1]|)
  {
    hide Joined, Nodes, Traces;
    TraceLink(pages, lv, mc, mix, |lv| - 2);
    JoinedAt(pages, lv[|lv| - 2], mix[|lv| - 2]);
  }

  /** What the leaf split needs to know about the keys. */
  ghost function LeafMarks(db: Database, p: nat, x: int, replace: bool, mix: seq<nat>): Marks
    reads db
    requires db.depth >= 1 && |db.lv| == db.depth + 1 == |mix| && if replace then p < |db.Items()|
                                                                  else p <= |db.Items()|
  {
    Marks(StartsAfter(db.pages, db.lv[db.depth - 1], mix[db.depth - 1], replace), [], 0,
          ItemKeys(db.key, PutInto(db.Items(), p, x, replace)))
  }

  lemma LeafKeyable(db: Database, me: nat, x: int, replace: bool, places: seq<nat>, mix: seq<nat>)
    requires db.Ok({}) && me < |db.cursors| == |places| && db.InOrder()
             && Slot(db.pages, db.lv, db.cursors[me], places[me], mix)
    requires MayCome(db.pages, db.lv, mix, db.keys, db.key, places[me], x, replace)
    ensures (if replace then places[me] < |db.Items()| else places[me] <= |db.Items()|) && |mix| == db.depth + 1
    ensures CanKey(db, me, db.depth - 1, x, replace, places, mix, LeafMarks(db, places[me], x, replace, mix))
  {
    hide Joined, Nodes, Distinct, Rows, Traces, TracesTo, MinKeys, NoneEmpty, LeafBelongs, KeyedTo, Sorted, PutInto;
    var D := db.depth - 1;
    RowsWithNodes(db.pages, db.lv);
    PartTrace(db.pages, db.lv, db.cursors[me], mix, D);
    TraceSizes(db.pages, db.lv, db.cursors[me], mix, D);
    PutKeyed(db.pages, db.root, db.lv, db.cursors[me], mix, db.keys, db.key, places[me], x, replace);
  }

  /** The keys are right again after the leaf split. */
  lemma SplitKeys(db0: seq<int>, lv0: seq<seq<int>>, db: Database, p: nat, x: int, replace: bool, m: Marks, n: nat)
    requires |lv0| >= 2 && db0 == lv0[|lv0| - 1] && (if replace then p < |db0| else p <= |db0|)
    requires KeysDone(lv0, db, |lv0| - 2, p, replace, m, n) && n == |db.lv| == db.depth + 1 && db.depth >= 1
    requires db.Items() == PutInto(db0, p, x, replace) && m.ks == ItemKeys(db.key, db.Items()) && Sorted(m.ks)
    ensures db.InOrder()
  {
    hide KeyedTo, Sorted, Starts;
  }

  /** After the split every stack has full height again. */
  lemma LeafSplit(pages0: Pages, lv0: seq<seq<int>>, cs0: seq<Stack>, db: Database, me: nat, x: int, replace: bool,
                  places: seq<nat>, n: nat)
    requires |lv0| >= 2 && HasSplit(pages0, lv0, cs0, db, me, |lv0| - 2, x, replace, places, n)
    requires forall i :: 0 <= i < |cs0| && i != me && cs0[i].init ==> |cs0[i].pg| == |lv0| - 1
    ensures db.Ok({}) && db.Spare() && n == |db.lv|
            && (if replace then places[me] < |lv0[|lv0| - 1]| else places[me] <= |lv0[|lv0| - 1]|)
    ensures db.Items() == PutInto(lv0[|lv0| - 1], places[me], x, replace)
    ensures Carried(cs0, places, places[me], replace, me, db.pages, db.lv, db.cursors)
    ensures At(db.pages, db.lv, db.cursors[me], places[me]) && Inside(db.pages, db.cursors[me]) && |db.cursors| == |cs0|
    ensures db.cursors[me].init == cs0[me].init && db.cursors[me].eof == cs0[me].eof
            && db.cursors[me].del == cs0[me].del
  {
    hide Joined, Nodes, Distinct, Rows, Traces, MinKeys, At, Unused, SameOn;
    assert lv0[..|lv0|] == lv0 && lv0[|lv0|..] == [];
    assert db.lv[..n] == db.lv;
    forall i | 0 <= i < |cs0| && i != me && cs0[i].init
      ensures At(db.pages, db.lv, db.cursors[i], After(places[i], places[me], replace))
    {
      assert Follows(lv0[..|lv0|], cs0[i], places[i], places[me], replace, db.pages, db.lv[..n], db.cursors[i]);
      assert cs0[i].pg[|lv0| - 1..] == [];
      assert Top(db.cursors[i], n - 1) == db.cursors[i];
    }
  }

  /** All that the split of the leaf starts from. */
  lemma SplitReady(db: Database, me: nat, x: int, replace: bool, places: seq<nat>, mix: seq<nat>)
    requires db.Ok({}) && db.Spare() && db.Sized() && me < |db.cursors| == |places| && db.cursors[me].init
    requires Placed(db.pages, db.lv, db.cursors[me := db.cursors[me].(init := false)], places)
    requires Slot(db.pages, db.lv, db.cursors[me], places[me], mix) && (replace ==> Inside(db.pages, db.cursors[me]))
    requires 2 + (if replace then 1 else 0) <= |Nodes(db.pages, db.cursors[me].pg[db.depth - 1])|
    requires db.InOrder() && MayCome(db.pages, db.lv, mix, db.keys, db.key, places[me], x, replace)
    ensures CanSplit(db, me, db.depth - 1, x, replace, places, mix) && |mix| == |db.lv| == db.depth + 1 >= 2
    ensures if replace then places[me] < |db.Items()| else places[me] <= |db.Items()|
    ensures CanKey(db, me, db.depth - 1, x, replace, places, mix, LeafMarks(db, places[me], x, replace, mix))
    ensures Sorted(ItemKeys(db.key, PutInto(db.Items(), places[me], x, replace)))
    ensures forall i :: 0 <= i < |db.cursors| && i != me && db.cursors[i].init ==> |db.cursors[i].pg| == |db.lv| - 1
  {
    hide Joined, Nodes, Distinct, Rows, Traces, MinKeys, At, Unused, Database.Sized, CanSplit, Placed, RightKeys,
         MayCome, CanKey, Slot, Sorted, PutInto, Inside, Database.Spare, Database.WellFormed, KeyedTo;
    SlotIndex(db.pages, db.root, db.lv, db.cursors[me], places[me], mix);
    LeafReady(db, me, x, replace, places, mix);
    Heights(db.pages, db.lv, db.cursors, me, places);
    LeafKeyable(db, me, x, replace, places, mix);
    PutSorted(db.pages, db.lv, mix, db.keys, db.key, places[me], x, replace);
  }

  /** The split of a leaf makes one more. */
  lemma OneLeafMore(sizes: Sizes, keys: Keys, depth: nat, pages0: Pages, lv0: seq<seq<int>>, mc: Stack, x: int,
                    replace: bool, mix: seq<nat>, pages: Pages, lv: seq<seq<int>>)
    requires depth >= 1 && |lv0| == depth + 1
    requires PickedHalves(sizes, keys, depth, pages0, lv0, mc, depth - 1, x, replace, mix, pages, lv, |lv|)
    ensures |lv| >= 2 && |lv[|lv| - 2]| == |lv0[|lv0| - 2]| + 1
  {
    hide Nodes, PutInto, TornInto, Picked;
  }

  /** What the split of the leaf comes to. */
  lemma LeafDone(pages0: Pages, lv0: seq<seq<int>>, cs0: seq<Stack>, keys0: Keys, depth0: nat, db: Database, me: nat,
                 x: int, replace: bool, places: seq<nat>, mix: seq<nat>, m: Marks, n: nat)
    requires me < |cs0| == |places|
    requires |lv0| == depth0 + 1 >= 2 && HasSplit(pages0, lv0, cs0, db, me, depth0 - 1, x, replace, places, n)
    requires forall i :: 0 <= i < |cs0| && i != me && cs0[i].init ==> |cs0[i].pg| == |lv0| - 1
    requires PickedHalves(db.sizes, keys0, depth0, pages0, lv0, cs0[me], depth0 - 1, x, replace, mix, db.pages, db.lv,
                          n)
    requires KeysDone(lv0, db, depth0 - 1, places[me], replace, m, n)
    requires (if replace then places[me] < |lv0[depth0]| else places[me] <= |lv0[depth0]|)
             && m.ks == ItemKeys(db.key, PutInto(lv0[depth0], places[me], x, replace)) && Sorted(m.ks)
    ensures db.Ok({}) && db.Spare() && db.InOrder() && n == |db.lv| >= 2
    ensures db.Items() == PutInto(lv0[depth0], places[me], x, replace)
    ensures Carried(cs0, places, places[me], replace, me, db.pages, db.lv, db.cursors) && |db.cursors| == |cs0|
    ensures At(db.pages, db.lv, db.cursors[me], places[me]) && db.cursors[me].init == cs0[me].init
    ensures |lv0| >= 2 && |db.lv| >= 2 && |db.lv[|db.lv| - 2]| == |lv0[|lv0| - 2]| + 1
  {
    hide Joined, Nodes, Distinct, Rows, Traces, MinKeys, At, Unused, Carried, HasSplit, Placed, RightKeys, KeysDone,
         Sorted, PutInto, Inside, Database.Spare, Database.WellFormed, KeyedTo, Tree, PickedHalves, Database.InOrder,
         ItemKeys;
    LeafSplit(pages0, lv0, cs0, db, me, x, replace, places, n);
    OneLeafMore(db.sizes, keys0, depth0, pages0, lv0, cs0[me], x, replace, mix, db.pages, db.lv);
    SplitKeys(lv0[depth0], lv0, db, places[me], x, replace, m, n);
  }

  /** The leaf of the acting cursor has no room for the item. */
  method SplitLeaf(db: Database, me: nat, x: int, replace: bool, ghost places: seq<nat>, ghost mix: seq<nat>)
    requires db.Ok({}) && db.Spare() && db.Sized() && me < |db.cursors| == |places| && db.cursors[me].init
    requires Placed(db.pages, db.lv, db.cursors[me := db.cursors[me].(init := false)], places)
    requires Slot(db.pages, db.lv, db.cursors[me], places[me], mix) && (replace ==> Inside(db.pages, db.cursors[me]))
    requires 2 + (if replace then 1 else 0) <= |Nodes(db.pages, db.cursors[me].pg[db.depth - 1])|
    requires db.InOrder() && MayCome(db.pages, db.lv, mix, db.keys, db.key, places[me], x, replace)
    requires db.Writable(db.cursors[me], db.depth)
    requires db.depth <= |db.cursors[me].ki| && !db.sizes.leafRoom(Rest(db.pages, db.cursors[me], db.depth, replace), x)
    modifies db
    ensures db.Intact()
    ensures |db.lv| >= 2 && |old(db.lv)| >= 2 && |db.lv[|db.lv| - 2]| == |old(db.lv)[|old(db.lv)| - 2]| + 1
    ensures PickedHalves(db.sizes, old(db.keys), old(db.depth), old(db.pages), old(db.lv), old(db.cursors)[me],
                         old(db.depth) - 1, x, replace, mix, db.pages, db.lv, |db.lv|)
    ensures if replace then places[me] < |old(db.Items())| else places[me] <= |old(db.Items())|
    ensures db.Ok({}) && db.Spare() && db.InOrder() && db.Items() == PutInto(old(db.Items()), places[me], x, replace)
    ensures Carried(old(db.cursors), places, places[me], replace, me, db.pages, db.lv, db.cursors)
    ensures At(db.pages, db.lv, db.cursors[me], places[me]) && db.cursors[me].init
  {
    hide Joined, Nodes, Distinct, Rows, Traces, MinKeys, At, Unused, Carried, Database.Sized, CanSplit, HasSplit,
         Placed, RightKeys, MayCome, CanKey, KeysDone, Slot, Sorted, PutInto, Inside, Database.Spare,
         Database.WellFormed, KeyedTo, Tree, PickedHalves, Apart, CleanKept, Database.InOrder,
         ItemKeys;
    SplitReady(db, me, x, replace, places, mix);
    ghost var keys0, depth0 := db.keys, db.depth;
    ghost var lv0, pages0, cs0 := db.lv, db.pages, db.cursors;
    ghost var marks := LeafMarks(db, places[me], x, replace, mix);
    ghost var n := Split(db, me, db.depth - 1, x, replace, places, mix, marks);
    LeafDone(pages0, lv0, cs0, keys0, depth0, db, me, x, replace, places, mix, marks, n);
  }

  /** mdb_cursor_put: the path is touched, and the item comes into its leaf, which is split if need be. */
  method Put(db: Database, me: nat, x: int, replace: bool, ghost places: seq<nat>, ghost mix: seq<nat>)
    requires db.Ok({}) && db.Spare() && db.Sized() && me < |db.cursors| == |places| && db.cursors[me].init
    requires Placed(db.pages, db.lv, db.cursors[me := db.cursors[me].(init := false)], places)
    requires Slot(db.pages, db.lv, db.cursors[me], places[me], mix) && (replace ==> Inside(db.pages, db.cursors[me]))
    requires db.InOrder() && MayCome(db.pages, db.lv, mix, db.keys, db.key, places[me], x, replace)
    requires db.Intact()
    modifies db
    ensures db.Intact() && CleanKept(old(db.pages), old(db.dirty), old(db.next), db.pages, db.dirty)
    ensures |db.lv| >= 2 && |old(db.lv)| >= 2 && 0 < old(db.depth) <= |old(db.cursors)[me].pg|
            && |old(db.cursors)[me].ki| == |old(db.cursors)[me].pg|
    ensures if db.sizes.leafRoom(Rest(old(db.pages), old(db.cursors)[me], old(db.depth), replace), x) then
              |db.lv| == |old(db.lv)| && forall l :: 0 <= l < |db.lv| - 1 ==> |db.lv[l]| == |old(db.lv)[l]|
            else |db.lv[|db.lv| - 2]| == |old(db.lv)[|old(db.lv)| - 2]| + 1
    ensures if replace then places[me] < |old(db.Items())| else places[me] <= |old(db.Items())|
    ensures db.Ok({}) && db.Spare() && db.InOrder() && db.Items() == PutInto(old(db.Items()), places[me], x, replace)
    ensures Carried(old(db.cursors), places, places[me], replace, me, db.pages, db.lv, db.cursors)
    ensures At(db.pages, db.lv, db.cursors[me], places[me]) && db.cursors[me].init
  {
    hide Joined, Nodes, Distinct, Rows, Traces, MinKeys, At, Unused, Carried, Database.Sized, Placed, RightKeys,
         MayCome, BelongKept, Apart, CleanKept;
    ghost var pages0, lv0, keys0, cs0 := db.pages, db.lv, db.keys, db.cursors;
    ghost var loose0, next0, dirty0 := db.loose, db.next, db.dirty;
    CursorTouch(db, me, places, mix);
    MayComeStill(pages0, lv0, keys0, db.pages, db.lv, db.keys, mix, db.key, places[me], x, replace);
    ghost var pages1, lv1, cs1 := db.pages, db.lv, db.cursors;
    var mc, top := db.cursors[me], db.depth - 1;
    var nodes := Nodes(db.pages, mc.pg[top]);
    SlotIndex(db.pages, db.root, db.lv, mc, places[me], mix);
    if replace {
      nodes := Without(nodes, mc.ki[top]);
    }
    if db.sizes.leafRoom(nodes, x) {
      AddNode(db, me, x, replace, places, mix);
    } else {
      FullLeaf(db, nodes, x);
      SplitLeaf(db, me, x, replace, places, mix);
    }
    CarriedFlags(cs0, cs1, places, places[me], replace, me, db.pages, db.lv, db.cursors);
    ApartKeeps(db.base, db.first, pages0, loose0, next0, dirty0, db.pages, db.loose, db.next, db.dirty);
  }

  lemma MayComeStill(pages: Pages, lv: seq<seq<int>>, keys: Keys, pages': Pages, lv': seq<seq<int>>, keys': Keys,
                     mix: seq<nat>, key: int -> int, p: nat, x: int, replace: bool)
    requires MayCome(pages, lv, mix, keys, key, p, x, replace) && BelongKept(pages, lv, keys, pages', lv', keys')
             && lv'[|lv'| - 1] == lv[|lv| - 1]
    ensures MayCome(pages', lv', mix, keys', key, p, x, replace)
  {
    hide LeafBelongs, Sorted;
  }

  lemma PutSorted(pages: Pages, lv: seq<seq<int>>, mix: seq<nat>, keys: Keys, key: int -> int, p: nat, x: int,
                  replace: bool)
    requires RightKeys(pages, lv, keys, key) && MayCome(pages, lv, mix, keys, key, p, x, replace)
    ensures var items := lv[|lv| - 1];
            (if replace then p < |items| else p <= |items|) && Sorted(ItemKeys(key, PutInto(items, p, x, replace)))
  {
    hide KeyedTo, LeafBelongs, Starts;
    var items := lv[|lv| - 1];
    var ks := ItemKeys(key, items);
    assert ItemKeys(key, PutInto(items, p, x, replace)) == if replace then ks else Inserted(ks, p, key(x));
  }

  lemma FullLeaf(db: Database, nodes: seq<int>, x: int)
    requires db.Sized() && !db.sizes.leafRoom(nodes, x)
    ensures |nodes| >= 2
  {
  }

  lemma Heights(pages: Pages, lv: seq<seq<int>>, cs: seq<Stack>, me: nat, places: seq<nat>)
    requires me < |cs| && Placed(pages, lv, cs[me := cs[me].(init := false)], places)
    ensures forall i :: 0 <= i < |cs| && i != me && cs[i].init ==> |cs[i].pg| == |lv| - 1
  {
    hide At;
    forall i | 0 <= i < |cs| && i != me && cs[i].init ensures |cs[i].pg| == |lv| - 1 {
      assert cs[me := cs[me].(init := false)][i] == cs[i];
      WholeStack(pages, lv, cs[i], places[i]);
    }
  }

  lemma CarriedFlags(cs0: seq<Stack>, cs1: seq<Stack>, places: seq<nat>, p: nat, replace: bool, me: nat, pages: Pages,
                     lv: seq<seq<int>>, cs: seq<Stack>)
    requires |cs1| == |cs0| && (forall i :: 0 <= i < |cs0| ==> FlagsKept(cs0[i], cs1[i]))
             && Carried(cs1, places, p, replace, me, pages, lv, cs)
    ensures Carried(cs0, places, p, replace, me, pages, lv, cs)
  {
    hide At;
  }
}
