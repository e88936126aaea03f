/**
 mdb_rebalance, with all that it does to other pages.

 A page that is too empty gets a node of its neighbour, or goes into it or takes
 it in.  Both pages are touched first.  A node that moves changes the separator
 in the parent, and a longer one may not fit: then the node of the parent is
 deleted and the parent split with the new one in its place (`UpdateKey`).  After
 a merge the parent may be too empty in turn.

 `Refilling` is what every step of this may rely on, and `Stepped` and `Refilled`
 what it leaves: the items, the keys of branch nodes, the acting cursor, and
 every other cursor on the item it was on.
 */
module Rebalancing {
  import opened Sequences
  import opened Levels
  import opened Separators
  import opened KeyedMoves
  import opened Tracking
  import opened Touching
  import opened Positions
  import opened Insertion
  import opened RowSplits
  import opened SplitSteps
  import opened Splitting

  // ------------------------------------------- cursors across a branch split

  /** The upper part of a stack and its place in a row of pages. */
  lemma PrefixAt(pages: Pages, lv: seq<seq<int>>, c: Stack, ix: seq<nat>, n: nat)
    requires 1 <= n < |lv| - 1 && |c.pg| == |c.ki| == |lv| - 1 && |ix| == |lv| && Traces(pages, lv, c, ix)
    ensures AtIx(pages, lv[..n + 1], Top(c, n), ix[n], ix[..n + 1]) && On(pages, lv[..n + 1], c, ix[n])
    ensures ix[n] < |lv[n]|
  {
    hide Joined, Nodes;
    var up, c0, ux := lv[..n + 1], Top(c, n), ix[..n + 1];
    forall l | 0 <= l < |up| - 1
      ensures Link(pages, up[l], ux[l], c0.pg[l], c0.ki[l], ux[l + 1]) && c0.ki[l] < |Nodes(pages, c0.pg[l])|
    {
      TraceLink(pages, lv, c, ix, l);
    }
    TraceLink(pages, lv, c, ix, n);
  }

  /** A stack has one trace. */
  lemma {:induction false} TraceUnique(pages: Pages, rows: seq<seq<int>>, c: Stack, ix: seq<nat>, ix2: seq<nat>, n: nat)
    requires Traces(pages, rows, c, ix) && Traces(pages, rows, c, ix2) && n < |rows|
    ensures |ix| == |ix2| == |rows| && ix[n] == ix2[n]
  {
    hide Joined, Nodes;
    if n > 0 {
      TraceUnique(pages, rows, c, ix, ix2, n - 1);
      TraceLink(pages, rows, c, ix, n - 1);
      TraceLink(pages, rows, c, ix2, n - 1);
    }
  }

  /** The lower rows under a new path. */
  lemma SplicedBelow(pages: Pages, lv: seq<seq<int>>, c: Stack, ix: seq<nat>, top: nat,
                     pages': Pages, lv': seq<seq<int>>, c': Stack, n: nat, ux: seq<nat>)
    requires 1 <= top < |lv| - 1 && |c.pg| == |c.ki| == |lv| - 1 && |ix| == |lv| && Traces(pages, lv, c, ix)
    requires 2 <= n && |lv'| == |lv| + n - top - 1 && lv'[n - 1..] == lv[top..] && SameBelow(c, top, c', n - 1)
    requires forall l :: top <= l < |lv| - 1 ==> SameOn(pages, pages', lv[l])
    requires |ux| == n && Traces(pages', lv'[..n], Top(c', n - 1), ux) && Inside(pages', Top(c', n - 1))
             && ux[n - 1] == ix[top]
    ensures Traces(pages', lv', c', ux + ix[top + 1..])
    ensures var d := n - top - 1;
            Nodes(pages', c'.pg[|lv'| - 2]) == Nodes(pages, c.pg[|lv| - 2]) && c'.ki[|lv'| - 2] == c.ki[|lv| - 2]
                                  && c'.pg[|lv'| - 2] == c.pg[|lv| - 2]
  {
    hide Joined, Nodes, SameOn;
    var d := n - 1 - top;
    var ix' := ux + ix[top + 1..];
    forall l | 0 <= l < |lv'| - 1
      ensures Link(pages', lv'[l], ix'[l], c'.pg[l], c'.ki[l], ix'[l + 1])
              && (l + 2 < |lv'| ==> c'.ki[l] < |Nodes(pages', c'.pg[l])|)
      ensures l == |lv'| - 2 ==>
                Nodes(pages', c'.pg[l]) == Nodes(pages, c.pg[l - d]) && c'.pg[l] == c.pg[l - d]
                && c'.ki[l] == c.ki[l - d]
    {
      if l < n - 1 {
        TraceLink(pages', lv'[..n], Top(c', n - 1), ux, l);
        assert Top(c', n - 1).pg[l] == c'.pg[l] && Top(c', n - 1).ki[l] == c'.ki[l];
        assert ix'[l] == ux[l] && ix'[l + 1] == ux[l + 1];
      } else {
        var m := l - d;
        assert lv'[n - 1..][l - n + 1] == lv[top..][l - n + 1] && c'.pg[n - 1..][l - n + 1] == c.pg[top..][l - n + 1];
        assert c'.ki[n - 1..][l - n + 1] == c.ki[top..][l - n + 1];
        TraceLink(pages, lv, c, ix, m);
        LinkSame(pages, pages', lv[m], ix[m], c.pg[m]);
        assert ix'[l + 1] == ix[m + 1] && ix'[l] == ix[m];
      }
    }
  }

  /** A branch page of row top - 1 was split, the row below it being what it was. */
  ghost predicate Repaged(pages: Pages, lv: seq<seq<int>>, top: nat, pages': Pages, root': Id, lv': seq<seq<int>>,
                          n: nat) {
    && 1 <= top < |lv| - 1 && 2 <= n < |lv'| && |lv'| == |lv| + n - top - 1 && lv'[n - 1..] == lv[top..]
    && Rows(pages', root', lv') && forall l :: top <= l < |lv| - 1 ==> SameOn(pages, pages', lv[l])
  }

  lemma SplitStands(pages: Pages, lv: seq<seq<int>>, page: Id, c: Stack, ix: seq<nat>, top: nat, p: nat,
                    pages': Pages, root': Id, lv': seq<seq<int>>, n: nat, c': Stack)
    requires Repaged(pages, lv, top, pages', root', lv', n) && Stands(pages, lv, page, c, ix) && c.init
    requires Follows(lv[..top + 1], c, ix[top], p, true, pages', lv'[..n], c')
    ensures |c'.pg| == |c'.ki| == |lv'| - 1 && StandsSame(pages, c, ix, page, pages', lv', page, c')
  {
    hide Joined, Nodes, Traces, SameOn, Rows, Inside;
    PrefixAt(pages, lv, c, ix, top);
    var up := lv'[..n];
    UpperRows(pages', root', lv', n);
    var ux :| AtIx(pages', up, Top(c', n - 1), ix[top], ux);
    assert lv'[n - 1] == lv'[n - 1..][0] == lv[top..][0] == lv[top];
    AtInside(pages', root', up, Top(c', n - 1), ix[top]);
    SplicedBelow(pages, lv, c, ix, top, pages', lv', c', n, ux);
    assert |c'.pg[n - 1..]| == |c.pg[top..]|;
    var ix' := ux + ix[top + 1..];
    assert ix'[|lv'| - 1] == ix[|lv| - 1];
    assert |lv'| - 2 > n - 1 ==> ix'[|lv'| - 2] == ix[|lv| - 2];
    assert lv'[|lv'| - 2] == lv'[n - 1..][|lv'| - 1 - n] == lv[top..][|lv'| - 1 - n] == lv[|lv| - 2];
    InsideSame(pages, c, pages', c');
    assert Stands(pages', lv', page, c', ix');
  }

  lemma InsideSame(pages: Pages, c: Stack, pages': Pages, c': Stack)
    requires |c.pg| == |c.ki| > 0 && |c'.pg| == |c'.ki| > 0 && c'.ki[|c'.ki| - 1] == c.ki[|c.ki| - 1]
    requires Nodes(pages', c'.pg[|c'.pg| - 1]) == Nodes(pages, c.pg[|c.pg| - 1])
    ensures Inside(pages', c') <==> Inside(pages, c)
  {
  }

  /** Every cursor keeps its place when a branch page is split. */
  lemma SplitKept(pages: Pages, lv: seq<seq<int>>, page: Id, c: Stack, q: nat, top: nat, p: nat,
                  pages': Pages, root': Id, lv': seq<seq<int>>, n: nat, c': Stack)
    requires Repaged(pages, lv, top, pages', root', lv', n) && (c.init ==> On(pages, lv[..top + 1], c, q))
    requires Follows(lv[..top + 1], c, q, p, true, pages', lv'[..n], c')
    ensures Kept(pages, lv, page, c, pages', lv', page, c')
  {
    hide Joined, Nodes, Traces, SameOn, Rows, Inside, Follows;
    if c.init {
      forall ix | Stands(pages, lv, page, c, ix) ensures StandsSame(pages, c, ix, page, pages', lv', page, c') {
        PrefixAt(pages, lv, c, ix, top);
        var ux :| AtIx(pages, lv[..top + 1], Top(c, top), q, ux);
        TraceUnique(pages, lv[..top + 1], Top(c, top), ux, ix[..top + 1], top);
        SplitStands(pages, lv, page, c, ix, top, p, pages', root', lv', n, c');
      }
    }
    FollowsFlags(lv[..top + 1], c, q, p, pages', lv'[..n], c');
  }

  lemma FollowsFlags(rows: seq<seq<int>>, c: Stack, q: nat, p: nat, pages': Pages, rows': seq<seq<int>>, c': Stack)
    requires Follows(rows, c, q, p, true, pages', rows', c')
    ensures |c'.pg| == |c'.ki| && c'.init == c.init && c'.eof == c.eof && c'.del == c.del
  {
  }

  // ----------------------------------------------------------- mdb_update_key

  /** The places of all cursors in row top. */
  lemma FindPlaces(pages: Pages, lv: seq<seq<int>>, page: Id, cs: seq<Stack>, top: nat) returns (places: seq<nat>)
    requires 1 <= top < |lv| - 1 && forall i :: 0 <= i < |cs| && cs[i].init ==> SomeStand(pages, lv, page, cs[i])
    ensures |places| == |cs| && forall i :: 0 <= i < |cs| && cs[i].init ==> On(pages, lv[..top + 1], cs[i], places[i])
  {
    hide Joined, Nodes, Traces, Inside, On;
    places := [];
    while |places| < |cs|
      invariant |places| <= |cs|
                && forall i :: 0 <= i < |places| && cs[i].init ==> On(pages, lv[..top + 1], cs[i], places[i])
    {
      var i, q := |places|, 0;
      if cs[i].init {
        assert SomeStand(pages, lv, page, cs[i]);
        var ix :| Stands(pages, lv, page, cs[i], ix);
        PrefixAt(pages, lv, cs[i], ix, top);
        q := ix[top];
      }
      places := places + [q];
    }
  }

  /** The copy of a cursor that mdb_update_key works on: the stack down to the
      parent, with the index of the node that gets the separator. */
  function AtParent(mc: Stack, top: nat, k: nat): Stack
    requires |mc.pg| == |mc.ki| >= top > 0
  {
    mc.(pg := mc.pg[..top], ki := mc.ki[..top - 1] + [k])
  }

  lemma ParentSlot(pages: Pages, lv: seq<seq<int>>, mc: Stack, ix: seq<nat>, top: nat, k: nat)
    requires 1 <= top < |lv| - 1 && |mc.pg| == |mc.ki| == |lv| - 1 && |ix| == |lv| && Traces(pages, lv, mc, ix)
             && k < |Nodes(pages, mc.pg[top - 1])|
    ensures ix[top - 1] < |lv[top - 1]|
    ensures var p := Start(pages, lv[top - 1], ix[top - 1]) + k;
            Slot(pages, lv[..top + 1], AtParent(mc, top, k), p, ix[..top] + [p])
  {
    hide Joined, Nodes;
    TraceLink(pages, lv, mc, ix, top - 1);
    var p := Start(pages, lv[top - 1], ix[top - 1]) + k;
    var up, c0, ux := lv[..top + 1], AtParent(mc, top, k), ix[..top] + [p];
    forall l | 0 <= l < |up| - 1
      ensures Link(pages, up[l], ux[l], c0.pg[l], c0.ki[l], ux[l + 1])
              && (l + 2 < |up| ==> c0.ki[l] < |Nodes(pages, c0.pg[l])|)
    {
      TraceLink(pages, lv, mc, ix, l);
    }
  }

  lemma ParentAdmits(pages: Pages, root: Id, lv: seq<seq<int>>, mc: Stack, ix: seq<nat>, top: nat, k: nat)
    requires Rows(pages, root, lv)
    requires 1 <= top < |lv| - 1 && |mc.pg| == |mc.ki| == |lv| - 1 && |ix| == |lv| && Traces(pages, lv, mc, ix)
             && k < |Nodes(pages, mc.pg[top - 1])|
    ensures ix[top - 1] < |lv[top - 1]|
    ensures Admissible(pages, lv, top, Start(pages, lv[top - 1], ix[top - 1]) + k, Nodes(pages, mc.pg[top - 1])[k],
                       true)
  {
    hide Joined, Nodes, Traces;
    TraceLink(pages, lv, mc, ix, top - 1);
    NodeAt(pages, lv[top - 1], ix[top - 1], k);
  }

  lemma LongKey(db: Database, nodes: seq<int>, k: nat, sep: int)
    requires db.Sized() && !db.sizes.fits(db.keys, nodes, k, sep)
    ensures |nodes| >= 4
  {
  }

  /** The branch page above row top can be split to get a longer separator in. */
  lemma ReadyForKey(db: Database, cs0: seq<Stack>, me: nat, mc: Stack, top: nat, k: nat, page: Id, ix: seq<nat>,
                    places: seq<nat>)
    requires db.Ok({}) && db.Spare() && db.Sized() && 0 < top < db.depth == |mc.pg| == |mc.ki| && mc.init && me < |cs0|
    requires k < |Nodes(db.pages, mc.pg[top - 1])| && |Nodes(db.pages, mc.pg[top - 1])| >= 4
    requires Stands(db.pages, db.lv, page, mc, ix) && db.cursors == cs0[me := mc] + [AtParent(mc, top, k)]
    requires |places| == |cs0|
             && forall i :: 0 <= i < |cs0| && cs0[me := mc][i].init ==>
                  On(db.pages, db.lv[..top + 1], cs0[me := mc][i], places[i])
    ensures ix[top - 1] < |db.lv[top - 1]|
    ensures var p := Start(db.pages, db.lv[top - 1], ix[top - 1]) + k;
            CanSplit(db, |cs0|, top - 1, Nodes(db.pages, mc.pg[top - 1])[k], true, places + [p], ix[..top] + [p])
  {
    hide Joined, Nodes, Distinct, Rows, Traces, MinKeys, Slot, On, Admissible, Unused;
    StandsTraces(db.pages, db.lv, page, mc, ix);
    ParentSlot(db.pages, db.lv, mc, ix, top, k);
    ParentAdmits(db.pages, db.root, db.lv, mc, ix, top, k);
    var p := Start(db.pages, db.lv[top - 1], ix[top - 1]) + k;
    forall i | 0 <= i < |db.cursors| && i != |cs0| && db.cursors[i].init
      ensures On(db.pages, db.lv[..top + 1], db.cursors[i], (places + [p])[i])
    {
      assert db.cursors[i] == cs0[me := mc][i];
    }
  }

  /** The keys for the split of a branch page whose node k gets another key. */
  lemma KeyableHere(pages: Pages, root: Id, lv: seq<seq<int>>, keys: Keys, key: int -> int, mc: Stack, ix: seq<nat>,
                    top: nat, k: nat)
    requires Rows(pages, root, lv) && 1 <= top < |lv| - 1 && |mc.pg| == |mc.ki| == |lv| - 1 && |ix| == |lv|
             && Traces(pages, lv, mc, ix)
    requires RightKeys(pages, lv, keys, key) && 1 <= k < |Nodes(pages, mc.pg[top - 1])|
    ensures ix[top - 1] < |lv[top - 1]|
    ensures var p, cuts, ks := Start(pages, lv[top - 1], ix[top - 1]) + k, LeafCuts(pages, lv, top),
            ItemKeys(key, lv[|lv| - 1]);
            && p < |lv[top]|
            && Keyable(pages, lv, keys, key, k, top - 1, Nodes(pages, mc.pg[top - 1])[k], true, p, ix[..top] + [p],
                       Marks(CutsUp(pages, lv[top - 1], cuts), cuts, Cut(cuts, p), ks))
  {
    hide Joined, Nodes, Traces, KeyedTo, CutsUp, LeafCuts, Rows, Sorted, Parts, KeyOf;
    TraceLink(pages, lv, mc, ix, top - 1);
    var row, ks := lv[top - 1], ItemKeys(key, lv[|lv| - 1]);
    var cuts, p := LeafCuts(pages, lv, top), Start(pages, row, ix[top - 1]) + k;
    RowRight(pages, lv, keys, ks, top - 1);
    RowBelow(pages, root, lv, top - 1);
    NodeAt(pages, row, ix[top - 1], k);
    assert Parts(ks, Cut(cuts, Start(pages, row, ix[top - 1]) + k), KeyOf(keys, Nodes(pages, row[ix[top - 1]])[k]));
  }

  /** The rows from row l on, items included, are as they were, wherever the root is now. */
  ghost predicate RowsFrom(lv0: seq<seq<int>>, l: nat, lv: seq<seq<int>>) {
    l <= |lv0| && |lv0| - l <= |lv| && lv[|lv| - (|lv0| - l)..] == lv0[l..]
  }

  /** The row that was row l, counted from the items up. */
  function RowUp(lv0: seq<seq<int>>, l: nat, lv: seq<seq<int>>): seq<int> {
    if l <= |lv0| && 0 < |lv0| - l <= |lv| then lv[|lv| - (|lv0| - l)] else []
  }

  /** After the split of a branch page the rows below it are as they were, and its row has one page more. */
  lemma RowsAfterSplit(pages0: Pages, lv0: seq<seq<int>>, cs0: seq<Stack>, db: Database, me: nat, top: nat, x: int,
                       p: nat, places: seq<nat>, mix: seq<nat>, sizes: Sizes, keys: Keys, depth: nat, n: nat)
    requires me < |cs0| && 1 <= top < |lv0| - 1 && HasSplit(pages0, lv0, cs0, db, me, top - 1, x, true, places, n)
    requires Admissible(pages0, lv0, top, p, x, true) && places[me] == p
    requires PickedHalves(sizes, keys, depth, pages0, lv0, cs0[me], top - 1, x, true, mix, db.pages, db.lv, n)
    ensures RowsFrom(lv0, top, db.lv) && SameOn(pages0, db.pages, lv0[top])
    ensures |RowUp(lv0, top - 1, db.lv)| == |lv0[top - 1]| + 1
  {
    hide Joined, Nodes, Distinct, Rows, Traces, MinKeys, Slot, On, Unused, Inside, Follows, SameOn, TornInto, Picked;
    assert lv0[top][p := x] == lv0[top];
    assert db.lv[..n][n - 1] == db.lv[n - 1];
    assert db.lv[n - 1..] == [lv0[top]] + lv0[top + 1..] == lv0[top..];
  }

  /** All keys are right after the split. */
  lemma KeysAfter(db: Database, pages0: Pages, root0: Id, lv0: seq<seq<int>>, cs1: seq<Stack>, keys1: Keys, top: nat,
                  x: Id, p: nat, places: seq<nat>, ups: seq<nat>, n: nat)
    requires Rows(pages0, root0, lv0) && 1 <= top < |lv0| - 1 && RightKeys(pages0, lv0, keys1, db.key) && p < |lv0[top]|
             && |LeafCuts(pages0, lv0, top)| == |lv0[top]|
    requires |cs1| > 0 && |places| == |cs1| && places[|cs1| - 1] == p && Admissible(pages0, lv0, top, p, x, true)
    requires HasSplit(pages0, lv0, cs1, db, |cs1| - 1, top - 1, x, true, places, n)
             && KeysKept(lv0, top - 1, keys1, db.keys)
    requires var cuts := LeafCuts(pages0, lv0, top);
             KeysDone(lv0, db, top - 1, p, true, Marks(ups, cuts, Cut(cuts, p), ItemKeys(db.key, lv0[|lv0| - 1])), n)
    ensures db.InOrder()
  {
    hide Joined, Nodes, Traces, KeyedTo, CutsUp, LeafCuts, Rows, SameOn, SameKeys, Tree, MinKeys, AllFollow, At, Unused,
         KeyOf, Sorted;
    var cuts := LeafCuts(pages0, lv0, top);
    assert PutInto(cuts, p, Cut(cuts, p), true) == cuts;
    assert lv0[top][p := x] == lv0[top];
    assert db.lv[..n][n - 1] == db.lv[n - 1];
    assert db.lv[n - 1..] == [lv0[top]] + lv0[top + 1..] == lv0[top..];
    assert db.lv[|db.lv| - 1] == db.lv[n - 1..][|db.lv| - n] == lv0[top..][|lv0| - 1 - top] == lv0[|lv0| - 1];
    RightFrom(pages0, root0, lv0, keys1, ItemKeys(db.key, lv0[|lv0| - 1]), top, db.pages, db.lv, n - 1, db.keys);
  }

  /** The new key is too long for its page: its node is put in anew, and the page
      is split. */
  method SplitForKey(db: Database, me: nat, mc: Stack, top: nat, k: nat, ghost page: Id, ghost ix: seq<nat>)
    returns (mc': Stack)
    requires db.Ok({}) && db.Spare() && db.Sized() && 0 < top < db.depth == |mc.pg| == |mc.ki| && mc.init
             && me < |db.cursors|
    requires 1 <= k < |Nodes(db.pages, mc.pg[top - 1])| && |Nodes(db.pages, mc.pg[top - 1])| >= 4
    requires Stands(db.pages, db.lv, page, mc, ix) && db.AllStand(me, page) && db.InOrder()
    requires db.Writable(mc, top)
    modifies db
    ensures db.Intact()
    ensures db.Ok({}) && db.Spare() && db.InOrder() && db.Items() == old(db.Items())
    ensures |db.cursors| == |old(db.cursors)|
    ensures |mc'.pg| == |mc'.ki| == db.depth && mc'.init && mc'.del == mc.del && mc'.eof == mc.eof
    ensures top < |old(db.lv)| && |RowUp(old(db.lv), top - 1, db.lv)| == |old(db.lv)[top - 1]| + 1
    ensures RowsFrom(old(db.lv), top, db.lv) && SameOn(old(db.pages), db.pages, old(db.lv)[top])
    ensures StandsSame(old(db.pages), mc, ix, page, db.pages, db.lv, page, mc')
    ensures forall i :: 0 <= i < |db.cursors| && i != me ==>
              Kept(old(db.pages), old(db.lv), page, old(db.cursors)[i], db.pages, db.lv, page, db.cursors[i])
  {
    hide Joined, Nodes, Distinct, Rows, Traces, MinKeys, Slot, On, Admissible, Kept, StandsSame, Stands, CanSplit,
         HasSplit, Unused, Inside, Database.Sized, Keyable, KeysDone, KeysKept, RightKeys, LeafCuts, CutsUp,
         PickedHalves, RowsFrom, RowUp;
    StandsTraces(db.pages, db.lv, page, mc, ix);
    var pgno := Nodes(db.pages, mc.pg[top - 1])[k];
    ghost var pages0, lv0, cs0 := db.pages, db.lv, db.cursors;
    ghost var root0, keys1, depth0 := db.root, db.keys, db.depth;
    db.cursors := db.cursors[me := mc];
    ghost var cs1 := db.cursors;
    ghost var places := FindPlaces(pages0, lv0, page, cs1, top);
    db.cursors := db.cursors + [AtParent(mc, top, k)];
    ReadyForKey(db, cs0, me, mc, top, k, page, ix, places);
    ParentAdmits(pages0, db.root, lv0, mc, ix, top, k);
    ghost var p := Start(pages0, lv0[top - 1], ix[top - 1]) + k;
    KeyableHere(pages0, root0, lv0, keys1, db.key, mc, ix, top, k);
    ghost var cuts := LeafCuts(pages0, lv0, top);
    CutsSize(pages0, lv0, keys1, db.key, top);
    ghost var n := Split(db, |db.cursors| - 1, top - 1, pgno, true, places + [p], ix[..top] + [p],
                         Marks(CutsUp(pages0, lv0[top - 1], cuts), cuts, Cut(cuts, p),
                               ItemKeys(db.key, lv0[|lv0| - 1])));
    RowsAfterSplit(pages0, lv0, cs1 + [AtParent(mc, top, k)], db, |cs1|, top, pgno, p, places + [p], ix[..top] + [p],
                   db.sizes, keys1, depth0, n);
    KeysAfter(db, pages0, root0, lv0, cs1 + [AtParent(mc, top, k)], keys1, top, pgno, p, places + [p],
              CutsUp(pages0, lv0[top - 1], cuts), n);
    KeySplit(db, pages0, lv0, cs1, me, mc, top, k, page, ix, places, n);
    mc' := db.cursors[me];
    db.cursors := db.cursors[..|db.cursors| - 1];
  }

  /** mdb_update_key on the separator that leads to child k of the parent: the
      parent is split if the new key is too long for it. */
  method UpdateKey(db: Database, me: nat, mc: Stack, top: nat, k: nat, sep: int, ghost page: Id, ghost ix: seq<nat>)
    returns (mc': Stack)
    requires db.Ok({}) && db.Spare() && db.Sized() && 0 < top < db.depth == |mc.pg| == |mc.ki| && mc.init
             && me < |db.cursors|
    requires 1 <= k < |Nodes(db.pages, mc.pg[top - 1])| && Stands(db.pages, db.lv, page, mc, ix)
    requires db.AllStand(me, page)
             && RightKeys(db.pages, db.lv, db.keys[Nodes(db.pages, mc.pg[top - 1])[k] := sep], db.key)
    requires db.Writable(mc, top)
    modifies db
    ensures db.Intact()
    ensures db.Ok({}) && db.Spare() && db.InOrder() && db.Items() == old(db.Items())
    ensures |db.cursors| == |old(db.cursors)|
    ensures |mc'.pg| == |mc'.ki| == db.depth && mc'.init && mc'.del == mc.del && mc'.eof == mc.eof
    ensures top < |old(db.lv)|
    ensures RowsFrom(old(db.lv), top, db.lv) && SameOn(old(db.pages), db.pages, old(db.lv)[top])
    ensures if db.sizes.fits(old(db.keys), Nodes(old(db.pages), mc.pg[top - 1]), k, sep) then
              db.pages == old(db.pages) && db.lv == old(db.lv)
            else |RowUp(old(db.lv), top - 1, db.lv)| == |old(db.lv)[top - 1]| + 1
    ensures StandsSame(old(db.pages), mc, ix, page, db.pages, db.lv, page, mc')
    ensures forall i :: 0 <= i < |db.cursors| && i != me ==>
              Kept(old(db.pages), old(db.lv), page, old(db.cursors)[i], db.pages, db.lv, page, db.cursors[i])
  {
    hide Joined, Nodes, Distinct, Rows, Traces, MinKeys, Slot, On, Admissible, Kept, StandsSame, Stands, CanSplit,
         HasSplit, Unused, Inside, Database.Sized, Keyable, KeysDone, KeysKept, RightKeys, LeafCuts, CutsUp;
    StandsTraces(db.pages, db.lv, page, mc, ix);
    mc' := mc;
    var pgno := Nodes(db.pages, mc.pg[top - 1])[k];
    var fits := db.sizes.fits(db.keys, Nodes(db.pages, mc.pg[top - 1]), k, sep);
    if !fits {
      LongKey(db, Nodes(db.pages, mc.pg[top - 1]), k, sep);
    }
    db.keys := db.keys[pgno := sep];
    if fits {
      StandsStill(db.pages, db.lv, page, mc, ix);
      forall i | 0 <= i < |db.cursors|
        ensures Kept(db.pages, db.lv, page, db.cursors[i], db.pages, db.lv, page, db.cursors[i])
      {
        KeptStill(db.pages, db.lv, page, db.cursors[i]);
      }
      return;
    }
    mc' := SplitForKey(db, me, mc, top, k, page, ix);
  }

  lemma CutsSize(pages: Pages, lv: seq<seq<int>>, keys: Keys, key: int -> int, top: nat)
    requires 1 <= top < |lv| - 1 && RightKeys(pages, lv, keys, key)
    ensures |LeafCuts(pages, lv, top)| == |lv[top]|
  {
    hide LeafCuts;
    RowRight(pages, lv, keys, ItemKeys(key, lv[|lv| - 1]), top - 1);
  }

  /** What the split of the parent has left. */
  lemma KeySplit(db: Database, pages0: Pages, lv0: seq<seq<int>>, cs1: seq<Stack>, me: nat, mc: Stack, top: nat, k: nat,
                 page: Id, ix: seq<nat>, places: seq<nat>, n: nat)
    requires 1 <= top < |lv0| - 1 && |mc.pg| == |mc.ki| == |lv0| - 1 && |ix| == |lv0|
             && k < |Nodes(pages0, mc.pg[top - 1])| && ix[top - 1] < |lv0[top - 1]|
    requires me < |cs1| == |places| && cs1[me] == mc && mc.init && Stands(pages0, lv0, page, mc, ix)
    requires forall i :: 0 <= i < |cs1| && cs1[i].init ==> On(pages0, lv0[..top + 1], cs1[i], places[i])
    requires var p := Start(pages0, lv0[top - 1], ix[top - 1]) + k;
             HasSplit(pages0, lv0, cs1 + [AtParent(mc, top, k)], db, |cs1|, top - 1, Nodes(pages0, mc.pg[top - 1])[k],
                      true, places + [p], n)
             && Admissible(pages0, lv0, top, p, Nodes(pages0, mc.pg[top - 1])[k], true)
    ensures db.Ok({}) && db.Spare() && db.Items() == lv0[|lv0| - 1] && |db.cursors| == |cs1| + 1
    ensures |db.cursors[me].pg| == |db.cursors[me].ki| == db.depth
    ensures db.cursors[me].init == mc.init && db.cursors[me].del == mc.del && db.cursors[me].eof == mc.eof
    ensures StandsSame(pages0, mc, ix, page, db.pages, db.lv, page, db.cursors[me])
    ensures forall i :: 0 <= i < |cs1| ==> Kept(pages0, lv0, page, cs1[i], db.pages, db.lv, page, db.cursors[i])
  {
    hide Joined, Nodes, Distinct, Rows, Traces, MinKeys, Slot, On, Kept, StandsSame, Stands, Unused, Inside, Follows,
         SameOn;
    var x, p := Nodes(pages0, mc.pg[top - 1])[k], Start(pages0, lv0[top - 1], ix[top - 1]) + k;
    assert lv0[top][p := x] == lv0[top];
    assert db.lv[..n][n - 1] == db.lv[n - 1];
    assert db.lv[n - 1..] == [lv0[top]] + lv0[top + 1..] == lv0[top..];
    assert db.lv[n - 1..][|db.lv| - n] == lv0[top..][|lv0| - 1 - top];
    assert db.lv[..n] + lv0[top + 1..] == db.lv;
    forall i | 0 <= i < |cs1|
      ensures Kept(pages0, lv0, page, cs1[i], db.pages, db.lv, page, db.cursors[i])
    {
      assert (cs1 + [AtParent(mc, top, k)])[i] == cs1[i] && (places + [p])[i] == places[i];
      SplitKept(pages0, lv0, page, cs1[i], places[i], top, p, db.pages, db.root, db.lv, n, db.cursors[i]);
    }
    KeptOnce(pages0, lv0, page, mc, ix, db.pages, db.lv, db.cursors[me]);
  }

  lemma KeptOnce(pages: Pages, lv: seq<seq<int>>, page: Id, c: Stack, ix: seq<nat>, pages': Pages, lv': seq<seq<int>>,
                 c': Stack)
    requires Kept(pages, lv, page, c, pages', lv', page, c') && c.init && Stands(pages, lv, page, c, ix)
    ensures StandsSame(pages, c, ix, page, pages', lv', page, c') && |c'.pg| == |c'.ki| == |lv'| - 1
    ensures c'.init == c.init && c'.eof == c.eof && c'.del == c.del
  {
    hide Traces, Nodes;
    assert StandsSame(pages, c, ix, page, pages', lv', page, c');
  }

  // ------------------------------------------------------------ mdb_rebalance

  /** What is kept still has a place. */
  lemma StillStanding(db: Database, me: nat, p0: Pages, lv0: seq<seq<int>>, page0: Id, cs0: seq<Stack>, page: Id)
    requires |cs0| == |db.cursors|
    requires forall i :: 0 <= i < |cs0| && i != me && cs0[i].init ==> SomeStand(p0, lv0, page0, cs0[i])
    requires forall i :: 0 <= i < |cs0| && i != me ==>
               Kept(p0, lv0, page0, cs0[i], db.pages, db.lv, page, db.cursors[i])
    ensures db.AllStand(me, page)
  {
    hide Traces, Nodes, Inside;
    forall i | 0 <= i < |db.cursors| && i != me && db.cursors[i].init
      ensures SomeStand(db.pages, db.lv, page, db.cursors[i])
    {
      assert SomeStand(p0, lv0, page0, cs0[i]);
      var ix :| Stands(p0, lv0, page0, cs0[i], ix);
      assert StandsSame(p0, cs0[i], ix, page0, db.pages, db.lv, page, db.cursors[i]);
    }
  }

  lemma SameTrace(pages: Pages, c: Stack, ix: seq<nat>, page: Id, pages': Pages, lv': seq<seq<int>>, page': Id,
                  c': Stack) returns (ix': seq<nat>)
    requires |c.pg| == |c.ki| > 0 && |ix| > 0 && StandsSame(pages, c, ix, page, pages', lv', page', c')
    ensures Stands(pages', lv', page', c', ix') && |lv'| >= 2 && |ix'| == |lv'| && ix'[|lv'| - 1] == ix[|ix| - 1]
            && |c'.pg| == |c'.ki| == |lv'| - 1
    ensures (Inside(pages, c) ==> Inside(pages', c')) && (c.pg[|c.pg| - 1] == page ==> c'.pg[|c'.pg| - 1] == page')
  {
    hide Traces, Nodes, Inside;
    ix' :| Stands(pages', lv', page', c', ix') && ix'[|lv'| - 1] == ix[|ix| - 1]
      && (Inside(pages, c) ==> Inside(pages', c')) && (c.pg[|c.pg| - 1] == page ==> c'.pg[|c'.pg| - 1] == page');
  }

  lemma SameTwice(p0: Pages, c0: Stack, ix0: seq<nat>, g0: Id, p1: Pages, c1: Stack, ix1: seq<nat>, g1: Id, p2: Pages,
                  lv2: seq<seq<int>>, g2: Id, c2: Stack)
    requires |c0.pg| == |c0.ki| > 0 && |ix0| > 0 && |c1.pg| == |c1.ki| > 0 && |ix1| > 0 && |c2.pg| == |c2.ki| > 0
    requires ix1[|ix1| - 1] == ix0[|ix0| - 1] && (Inside(p0, c0) ==> Inside(p1, c1))
             && (c0.pg[|c0.pg| - 1] == g0 ==> c1.pg[|c1.pg| - 1] == g1)
    requires StandsSame(p1, c1, ix1, g1, p2, lv2, g2, c2)
    ensures StandsSame(p0, c0, ix0, g0, p2, lv2, g2, c2)
  {
    hide Traces, Nodes, Inside;
    var ix2 := SameTrace(p1, c1, ix1, g1, p2, lv2, g2, c2);
  }

  /** The acting cursor c and all others keep their places. */
  ghost predicate Stepped(p0: Pages, lv0: seq<seq<int>>, g0: Id, cs0: seq<Stack>, c0: Stack, ix0: seq<nat>,
                          p1: Pages, lv1: seq<seq<int>>, g1: Id, cs1: seq<Stack>, c1: Stack, me: nat) {
    && |cs1| == |cs0| && (forall i :: 0 <= i < |cs0| && i != me ==> Kept(p0, lv0, g0, cs0[i], p1, lv1, g1, cs1[i]))
    && |c0.pg| == |c0.ki| > 0 && |ix0| > 0 && StandsSame(p0, c0, ix0, g0, p1, lv1, g1, c1)
    && c1.init == c0.init && c1.eof == c0.eof && c1.del == c0.del
  }

  lemma SteppedTwice(p0: Pages, lv0: seq<seq<int>>, g0: Id, cs0: seq<Stack>, c0: Stack, ix0: seq<nat>,
                     p1: Pages, lv1: seq<seq<int>>, g1: Id, cs1: seq<Stack>, c1: Stack, ix1: seq<nat>,
                     p2: Pages, lv2: seq<seq<int>>, g2: Id, cs2: seq<Stack>, c2: Stack, me: nat)
    requires Stepped(p0, lv0, g0, cs0, c0, ix0, p1, lv1, g1, cs1, c1, me)
             && Stepped(p1, lv1, g1, cs1, c1, ix1, p2, lv2, g2, cs2, c2, me)
    requires ix1[|ix1| - 1] == ix0[|ix0| - 1] && (Inside(p0, c0) ==> Inside(p1, c1))
             && (c0.pg[|c0.pg| - 1] == g0 ==> c1.pg[|c1.pg| - 1] == g1)
    ensures Stepped(p0, lv0, g0, cs0, c0, ix0, p2, lv2, g2, cs2, c2, me)
  {
    hide Kept, StandsSame, Inside;
    forall i | 0 <= i < |cs0| && i != me ensures Kept(p0, lv0, g0, cs0[i], p2, lv2, g2, cs2[i]) {
      KeptTwice(p0, lv0, g0, cs0[i], p1, lv1, g1, cs1[i], p2, lv2, g2, cs2[i]);
    }
    SameSize(p1, c1, ix1, g1, p2, lv2, g2, c2);
    SameTwice(p0, c0, ix0, g0, p1, c1, ix1, g1, p2, lv2, g2, c2);
  }

  lemma SameSize(p1: Pages, c1: Stack, ix1: seq<nat>, g1: Id, p2: Pages, lv2: seq<seq<int>>, g2: Id, c2: Stack)
    requires |c1.pg| == |c1.ki| > 0 && |ix1| > 0 && StandsSame(p1, c1, ix1, g1, p2, lv2, g2, c2)
    ensures |c2.pg| == |c2.ki| == |lv2| - 1 > 0
  {
    hide Traces, Nodes, Inside;
  }

  /** What is at stake while the page of row top on mc is refilled. */
  ghost predicate Refilling(db: Database, me: nat, mc: Stack, top: nat, ix: seq<nat>)
    reads db
  {
    && db.depth == |mc.pg| == |mc.ki| > top && mc.init && me < |db.cursors|
    && db.Ok({mc.pg[top]}) && db.Spare() && db.Sized() && db.InOrder()
    && db.Writable(mc, top + 1)
    && Stands(db.pages, db.lv, mc.pg[db.depth - 1], mc, ix) && db.AllStand(me, mc.pg[db.depth - 1])
  }

  /** mdb_page_touch of the page of row top on c, which is mc or a copy of it on a neighbour. */
  method TouchBeside(db: Database, me: nat, mc: Stack, c: Stack, top: nat, ghost ix: seq<nat>, ghost cix: seq<nat>)
    returns (mc': Stack, c': Stack, ghost ix': seq<nat>)
    requires Refilling(db, me, mc, top, ix) && |c.pg| == db.depth && TracesTo(db.pages, db.lv, c, cix, top)
    requires top > 0 ==> db.first <= c.pg[top - 1]
    modifies db
    ensures |mc'.pg| == |mc'.ki| == |mc.pg| > top && Refilling(db, me, mc', top, ix') && db.depth == old(db.depth)
            && db.Items() == old(db.Items())
    ensures |c'.pg| > top && db.first <= c'.pg[top]
    ensures |c'.pg| == |c.pg| && c' == c.(pg := c.pg[top := c'.pg[top]])
            && mc' == Retargeted(mc, top, c.pg[top], c'.pg[top])
    ensures RowRenumbered(old(db.lv), db.lv, top)
    ensures Stepped(old(db.pages), old(db.lv), mc.pg[old(db.depth) - 1], old(db.cursors), mc, ix, db.pages, db.lv,
                    mc'.pg[db.depth - 1], db.cursors, mc', me)
    ensures |ix| > 0 && |ix'| > 0 && ix'[|ix'| - 1] == ix[|ix| - 1]
            && (Inside(old(db.pages), mc) ==> Inside(db.pages, mc'))
    ensures AllTraced(old(db.pages), old(db.lv), top, c.pg[top], c'.pg[top], db.pages, db.lv)
    ensures |Nodes(db.pages, c'.pg[top])| == |Nodes(old(db.pages), c.pg[top])|
    ensures forall y :: y != c'.pg[top] ==> |Nodes(db.pages, y)| == |Nodes(old(db.pages), y)|
  {
    hide Joined, Nodes, Distinct, Rows, Traces, TracesTo, Kept, MinKeys, Stands, Inside, StandsSame, Unused, RightKeys,
         Database.Sized, AllKept, AllTraced, Retargeted;
    ghost var p0, lv0, cs0, g0 := db.pages, db.lv, db.cursors, mc.pg[db.depth - 1];
    c' := Touch(db, c, top, cix, {mc.pg[top]});
    ghost var g1 := if g0 == c.pg[top] then c'.pg[top] else g0;
    mc' := Retargeted(mc, top, c.pg[top], c'.pg[top]);
    RetargetedShape(mc, top, c.pg[top], c'.pg[top]);
    TouchedAll(db, me, p0, lv0, cs0, g0, top, c.pg[top], c'.pg[top]);
    TouchedMe(p0, db.root, lv0, mc, ix, top, c, cix, c'.pg[top], db.pages, db.lv);
    ix' := SameTrace(p0, mc, ix, g0, db.pages, db.lv, g1, mc');
    StillStanding(db, me, p0, lv0, g0, cs0, g1);
  }

  lemma TouchedAll(db: Database, me: nat, p0: Pages, lv0: seq<seq<int>>, cs0: seq<Stack>, page: Id, top: nat, mp: Id,
                   np: Id)
    requires AllKept(p0, lv0, top, mp, np, db.pages, db.lv) && |db.cursors| == |cs0|
    requires forall i :: 0 <= i < |cs0| ==> db.cursors[i] == Retargeted(cs0[i], top, mp, np)
    ensures forall i :: 0 <= i < |cs0| ==>
              Kept(p0, lv0, page, cs0[i], db.pages, db.lv, if page == mp then np else page, db.cursors[i])
  {
    hide Kept, Retargeted;
    forall i | 0 <= i < |cs0|
      ensures Kept(p0, lv0, page, cs0[i], db.pages, db.lv, if page == mp then np else page, db.cursors[i])
    {
      assert KeptOver(p0, lv0, page, cs0[i], top, mp, np, db.pages, db.lv);
    }
  }

  lemma TouchedMe(p0: Pages, root: Id, lv0: seq<seq<int>>, mc: Stack, ix: seq<nat>, top: nat, c: Stack, cix: seq<nat>,
                  np: Id, p1: Pages, lv1: seq<seq<int>>)
    requires Distinct(lv0) && TracesTo(p0, lv0, c, cix, top) && |mc.pg| == |mc.ki| == |lv0| - 1 > top && mc.init
    requires Stands(p0, lv0, mc.pg[|mc.pg| - 1], mc, ix) && AllKept(p0, lv0, top, c.pg[top], np, p1, lv1)
    ensures |ix| > 0
    ensures var mc', g0 := Retargeted(mc, top, c.pg[top], np), mc.pg[|mc.pg| - 1];
            && |mc'.pg| == |mc'.ki| == |mc.pg| && mc'.init == mc.init && mc'.eof == mc.eof && mc'.del == mc.del
            && StandsSame(p0, mc, ix, g0, p1, lv1, if g0 == c.pg[top] then np else g0, mc')
            && mc'.pg[|mc.pg| - 1] == (if g0 == c.pg[top] then np else g0)
            && Renamed({mc.pg[top]}, c.pg[top], np) == {mc'.pg[top]}
  {
    hide Joined, Nodes, Distinct, Traces, Inside;
    var g0 := mc.pg[|mc.pg| - 1];
    assert KeptOver(p0, lv0, g0, mc, top, c.pg[top], np, p1, lv1);
    TraceLink(p0, lv0, mc, ix, |lv0| - 2);
    if top < |lv0| - 2 {
      Places(lv0, |lv0| - 2, ix[|lv0| - 2], top, cix[top]);
    }
  }

  /** mn is a copy of mc on the page beside it, to the left or to the right. */
  ghost predicate SideBySide(pages: Pages, lv: seq<seq<int>>, mc: Stack, mn: Stack, top: nat, fromleft: bool,
                             nix: seq<nat>) {
    && |mc.pg| == |mc.ki| == |mn.pg| == |mn.ki| == |lv| - 1 > top > 0
    && TracesTo(pages, lv, mn, nix, top) && mn.pg[top - 1] == mc.pg[top - 1]
    && (if fromleft then mc.ki[top - 1] > 0 && mn.ki[top - 1] == mc.ki[top - 1] - 1
        else mn.ki[top - 1] == mc.ki[top - 1] + 1)
  }

  /** It is on the node next to the page of mc. */
  ghost predicate Neighbours(pages: Pages, lv: seq<seq<int>>, mc: Stack, mn: Stack, top: nat, fromleft: bool,
                             nix: seq<nat>) {
    && SideBySide(pages, lv, mc, mn, top, fromleft, nix)
    && (if fromleft then mn.ki[top] + 1 == |Nodes(pages, mn.pg[top])| else mn.ki[top] == 0)
  }

  lemma NeighboursApart(pages: Pages, root: Id, lv: seq<seq<int>>, mc: Stack, ix: seq<nat>, mn: Stack, top: nat,
                        fromleft: bool, nix: seq<nat>)
    requires Tree(pages, root, lv) && Traces(pages, lv, mc, ix) && |ix| == |lv|
             && SideBySide(pages, lv, mc, mn, top, fromleft, nix)
    ensures mc.pg[top] != mn.pg[top]
    ensures mn.ki[top - 1] < |Nodes(pages, mc.pg[top - 1])|
            && Nodes(pages, mc.pg[top - 1])[mn.ki[top - 1]] == mn.pg[top]
    ensures mc.ki[top - 1] < |Nodes(pages, mc.pg[top - 1])|
  {
    hide Joined, Nodes, Distinct, Rows;
    PartTrace(pages, lv, mc, ix, top);
    PointsTo(pages, root, lv, mc, ix, top);
    PointsTo(pages, root, lv, mn, nix, top);
    assert Link(pages, lv[top - 1], ix[top - 1], mc.pg[top - 1], mc.ki[top - 1], ix[top]);
    assert Link(pages, lv[top - 1], nix[top - 1], mn.pg[top - 1], mn.ki[top - 1], nix[top]);
    Places(lv, top - 1, ix[top - 1], top - 1, nix[top - 1]);
    Places(lv, top, ix[top], top, nix[top]);
  }

  lemma RefillingTree(db: Database, me: nat, mc: Stack, top: nat, ix: seq<nat>)
    requires Refilling(db, me, mc, top, ix)
    ensures Tree(db.pages, db.root, db.lv) && Traces(db.pages, db.lv, mc, ix) && |ix| == |db.lv| == db.depth + 1
            && |mc.pg| == |mc.ki| == db.depth > top
    ensures db.Writable(mc, top + 1)
    ensures TracesTo(db.pages, db.lv, mc, ix, top)
  {
    hide Joined, Nodes, Distinct, Rows, Traces, MinKeys, Inside, TracesTo, Unused;
    PartTrace(db.pages, db.lv, mc, ix, top);
  }

  /** mdb_page_touch of the neighbour and of the page itself. */
  method TouchBoth(db: Database, me: nat, mc: Stack, mn: Stack, top: nat, fromleft: bool, ghost ix: seq<nat>,
                   ghost nix: seq<nat>) returns (mc': Stack, mn': Stack, ghost ix': seq<nat>)
    requires Refilling(db, me, mc, top, ix) && Neighbours(db.pages, db.lv, mc, mn, top, fromleft, nix)
    modifies db
    ensures |mc'.pg| == |mc'.ki| == |mc.pg| > top && Refilling(db, me, mc', top, ix') && db.depth == old(db.depth)
            && db.Items() == old(db.Items())
    ensures Neighbours(db.pages, db.lv, mc', mn', top, fromleft, nix) && mc'.ki == mc.ki && mn'.ki == mn.ki
    ensures RowRenumbered(old(db.lv), db.lv, top)
    ensures Stepped(old(db.pages), old(db.lv), mc.pg[old(db.depth) - 1], old(db.cursors), mc, ix, db.pages, db.lv,
                    mc'.pg[db.depth - 1], db.cursors, mc', me)
    ensures db.first <= mn'.pg[top]
    ensures |ix| > 0 && |ix'| > 0 && ix'[|ix'| - 1] == ix[|ix| - 1]
            && (Inside(old(db.pages), mc) ==> Inside(db.pages, mc'))
    ensures |Nodes(db.pages, mc'.pg[top])| == |Nodes(old(db.pages), mc.pg[top])|
    ensures |Nodes(db.pages, mn'.pg[top])| == |Nodes(old(db.pages), mn.pg[top])|
  {
    hide Joined, Nodes, Distinct, Rows, Traces, TracesTo, Inside, Refilling, Stepped, AllTraced;
    ghost var p0, lv0, cs0, g0 := db.pages, db.lv, db.cursors, mc.pg[top];
    RefillingTree(db, me, mc, top, ix);
    NeighboursApart(db.pages, db.root, db.lv, mc, ix, mn, top, fromleft, nix);
    var mc1, c;
    ghost var ix1;
    mc1, mn', ix1 := TouchBeside(db, me, mc, mn, top, ix, nix);
    assert mc1 == mc;
    RefillingTree(db, me, mc1, top, ix1);
    TracedOn(p0, lv0, mn, nix, top, top, mn.pg[top], mn'.pg[top], db.pages, db.lv);
    assert mn' == Retargeted(mn, top, mn.pg[top], mn'.pg[top]);
    NeighboursApart(db.pages, db.root, db.lv, mc1, ix1, mn', top, fromleft, nix);
    ghost var p1, lv1, cs1 := db.pages, db.lv, db.cursors;
    mc', c, ix' := TouchBeside(db, me, mc1, mc1, top, ix1, ix1);
    RefillingTree(db, me, mc', top, ix');
    TracedOn(p1, lv1, mn', nix, top, top, mc1.pg[top], c.pg[top], db.pages, db.lv);
    assert mn' == Retargeted(mn', top, mc1.pg[top], c.pg[top]);
    NeighboursApart(db.pages, db.root, db.lv, mc', ix', mn', top, fromleft, nix);
    SteppedTwice(p0, lv0, mc.pg[|mc.pg| - 1], cs0, mc, ix, p1, lv1, mc1.pg[|mc.pg| - 1], cs1, mc1, ix1, db.pages, db.lv,
                 mc'.pg[|mc.pg| - 1], db.cursors, mc', me);
  }

  lemma SteppedBy(db: Database, p0: Pages, lv0: seq<seq<int>>, g0: Id, cs0: seq<Stack>, c0: Stack, ix0: seq<nat>,
                  g1: Id, c1: Stack, me: nat)
    requires |db.cursors| == |cs0|
             && forall i :: 0 <= i < |cs0| && i != me ==> Kept(p0, lv0, g0, cs0[i], db.pages, db.lv, g1, db.cursors[i])
    requires |c0.pg| == |c0.ki| > 0 && |ix0| > 0 && StandsSame(p0, c0, ix0, g0, db.pages, db.lv, g1, c1)
    requires c1.init == c0.init && c1.eof == c0.eof && c1.del == c0.del
    ensures Stepped(p0, lv0, g0, cs0, c0, ix0, db.pages, db.lv, g1, db.cursors, c1, me)
  {
    hide Kept, StandsSame;
  }

  /** A page of n nodes in row top was not left as it was: a neighbour has given
      it a node, or has been merged with it. */
  ghost predicate Relieved(lv0: seq<seq<int>>, top: nat, n: nat, pages: Pages, lv: seq<seq<int>>) {
    && top < |lv0| && RowsFrom(lv0, top + 1, lv)
    && var row := RowUp(lv0, top, lv);
    || |row| + 1 == |lv0[top]|
    || (|row| == |lv0[top]| && exists i :: 0 <= i < |row| && |Nodes(pages, row[i])| == n + 1)
  }

  lemma BorrowRelieves(lv0: seq<seq<int>>, lv1: seq<seq<int>>, top: nat, n: nat, mc: Stack, ix: seq<nat>, p1: Pages,
                       p2: Pages, p3: Pages, lv3: seq<seq<int>>)
    requires RowRenumbered(lv0, lv1, top) && Traces(p1, lv1, mc, ix) && top < |lv1| - 1
             && |mc.pg| == |mc.ki| == |lv1| - 1
    requires |Nodes(p2, mc.pg[top])| == n + 1 && RowsFrom(lv1, top, lv3) && SameOn(p2, p3, lv1[top])
    ensures Relieved(lv0, top, n, p3, lv3)
  {
    hide Joined, Nodes, Traces;
    TraceLink(p1, lv1, mc, ix, top);
    var row := lv3[|lv3| - (|lv1| - top)..];
    assert row[0] == lv1[top] && row[1..] == lv1[top..][1..] == lv1[top + 1..] == lv0[top + 1..];
    assert row[1..] == lv3[|lv3| - (|lv0| - (top + 1))..];
    assert lv1[top][ix[top]] == mc.pg[top];
  }

  lemma MergeRelieves(lv0: seq<seq<int>>, lv2: seq<seq<int>>, top: nat, n: nat, pages: Pages, lv3: seq<seq<int>>)
    requires |lv2| == |lv0| > top && |lv2[top]| == |lv0[top]| - 1
    requires (forall l :: 0 <= l < |lv0| && l != top ==> lv2[l] == lv0[l]) && RowsFrom(lv2, top, lv3)
    ensures Relieved(lv0, top, n, pages, lv3)
  {
    hide Nodes;
    var row := lv3[|lv3| - (|lv2| - top)..];
    assert row[0] == lv2[top] && row[1..] == lv2[top..][1..] == lv2[top + 1..] == lv0[top + 1..];
    assert row[1..] == lv3[|lv3| - (|lv0| - (top + 1))..];
  }

  /** A neighbour that gives a node away rather than being merged. */
  predicate Spares(sizes: Sizes, keys: Keys, leaf: bool, nodes: seq<int>) {
    sizes.fill(keys, leaf, nodes) && |nodes| > if leaf then 1 else 2
  }

  /** mdb_node_move from a neighbour that can spare a node; the separator of the
      page on the right follows. */
  method BorrowAndUpdate(db: Database, me: nat, mc: Stack, mn: Stack, top: nat, fromleft: bool, ghost ix: seq<nat>,
                         ghost nix: seq<nat>) returns (mc': Stack)
    requires Refilling(db, me, mc, top, ix) && Neighbours(db.pages, db.lv, mc, mn, top, fromleft, nix)
    requires top < db.depth - 1 ==> Nodes(db.pages, mc.pg[top]) != []
    requires |mn.pg| > top && Spares(db.sizes, db.keys, top == db.depth - 1, Nodes(db.pages, mn.pg[top]))
    modifies db
    ensures db.Intact()
    ensures |mc'.pg| == |mc'.ki| == db.depth > 0 && db.Ok({}) && db.Spare() && db.InOrder()
            && db.Items() == old(db.Items())
    ensures Relieved(old(db.lv), top, |Nodes(old(db.pages), mc.pg[top])|, db.pages, db.lv)
    ensures Stepped(old(db.pages), old(db.lv), mc.pg[old(db.depth) - 1], old(db.cursors), mc, ix, db.pages, db.lv,
                    mc'.pg[db.depth - 1], db.cursors, mc', me)
  {
    hide Joined, Nodes, Distinct, Rows, Traces, Kept, MinKeys, Stands, Inside, StandsSame, Unused, RightKeys,
         Database.Sized, Stepped, TracesTo, RowsFrom, RowUp, Relieved, RowRenumbered, SameOn, Apart;
    ghost var p0, lv0, cs0, g0 := db.pages, db.lv, db.cursors, mc.pg[db.depth - 1];
    var mc1, mn1;
    ghost var ix1;
    mc1, mn1, ix1 := TouchBoth(db, me, mc, mn, top, fromleft, ix, nix);
    ghost var p1, lv1, cs1, g1 := db.pages, db.lv, db.cursors, mc1.pg[db.depth - 1];
    RefillingTree(db, me, mc1, top, ix1);
    NeighboursApart(db.pages, db.root, db.lv, mc1, ix1, mn1, top, fromleft, nix);
    var mc2, sep := db.Borrow(me, mc1, mn1, top, fromleft, ix1);
    BorrowedRight(p1, db.root, lv1, mc1, ix1, mn1, top, fromleft, nix);
    ghost var p2, cs2, g2 := db.pages, db.cursors, mc2.pg[db.depth - 1];
    ghost var ix2 := SameTrace(p1, mc1, ix1, g1, p2, lv1, g2, mc2);
    StillStanding(db, me, p1, lv1, g1, cs1, g2);
    SteppedBy(db, p1, lv1, g1, cs1, mc1, ix1, g2, mc2, me);
    SteppedTwice(p0, lv0, g0, cs0, mc, ix, p1, lv1, g1, cs1, mc1, ix1, p2, lv1, g2, cs2, mc2, me);
    mc' := UpdateKey(db, me, mc2, top, if fromleft then mc2.ki[top - 1] else mc2.ki[top - 1] + 1, sep, g2, ix2);
    ghost var ix3 := SameTrace(p2, mc2, ix2, g2, db.pages, db.lv, g2, mc');
    SteppedBy(db, p2, lv1, g2, cs2, mc2, ix2, g2, mc', me);
    SteppedTwice(p0, lv0, g0, cs0, mc, ix, p2, lv1, g2, cs2, mc2, ix2, db.pages, db.lv, g2, db.cursors, mc', me);
    BorrowRelieves(lv0, lv1, top, |Nodes(p0, mc.pg[top])|, mc1, ix1, p1, p2, db.pages, db.lv);
  }

  /** The page on the right, and its node in the parent. */
  lemma BorrowedRight(pages: Pages, root: Id, lv: seq<seq<int>>, mc: Stack, ix: seq<nat>, mn: Stack, top: nat,
                      fromleft: bool, nix: seq<nat>)
    requires Tree(pages, root, lv) && Traces(pages, lv, mc, ix) && |ix| == |lv|
             && SideBySide(pages, lv, mc, mn, top, fromleft, nix)
    ensures var k := if fromleft then mc.ki[top - 1] else mc.ki[top - 1] + 1;
            1 <= k < |Nodes(pages, mc.pg[top - 1])| && Nodes(pages, mc.pg[top - 1])[k] == if fromleft then mc.pg[top]
            else mn.pg[top]
  {
    hide Joined, Nodes, Distinct, Rows;
    PartTrace(pages, lv, mc, ix, top);
    PointsTo(pages, root, lv, mc, ix, top);
    PointsTo(pages, root, lv, mn, nix, top);
  }

  /** What mdb_rebalance has achieved. */
  ghost predicate Refilled(p0: Pages, lv0: seq<seq<int>>, cs0: seq<Stack>, db: Database, me: nat, mc: Stack,
                           ix: seq<nat>, mc': Stack)
    reads db
  {
    && |mc.pg| == |mc.ki| > 0 && |ix| > 0 && |lv0| > 0
    && |db.cursors| == |cs0| && |mc'.pg| == |mc'.ki| == db.depth && db.Spare() && db.Intact()
    && (db.depth == 0 ==> lv0[|lv0| - 1] == [] && !mc'.init && db.WellFormed() && forall i ::
          0 <= i < |cs0| && i != me ==> !db.cursors[i].init)
    && (db.depth > 0 ==>
          && db.Ok({}) && db.InOrder() && db.Items() == lv0[|lv0| - 1]
          && mc'.init && mc'.del == mc.del && (mc'.eof ==> mc.eof)
          && StandsSame(p0, mc, ix, mc.pg[|mc.pg| - 1], db.pages, db.lv, mc'.pg[db.depth - 1], mc')
          && forall i :: 0 <= i < |cs0| && i != me ==>
               Kept(p0, lv0, mc.pg[|mc.pg| - 1], cs0[i], db.pages, db.lv, mc'.pg[db.depth - 1], db.cursors[i]))
  }

  lemma RefilledIntact(db: Database, me: nat, mc: Stack, ix: seq<nat>, mc': Stack, p0: Pages, lv0: seq<seq<int>>,
                       cs0: seq<Stack>)
    requires Refilled(p0, lv0, cs0, db, me, mc, ix, mc')
    ensures db.Intact()
  {
  }

  lemma RefilledNow(db: Database, p0: Pages, lv0: seq<seq<int>>, cs0: seq<Stack>, me: nat, mc: Stack, ix: seq<nat>,
                    mc': Stack)
    requires |mc.pg| > 0 && |lv0| > 0 && mc.init && |mc'.pg| == |mc'.ki| == db.depth > 0 && db.Ok({}) && db.Spare()
             && db.Intact() && db.InOrder() && db.Items() == lv0[|lv0| - 1]
    requires Stepped(p0, lv0, mc.pg[|mc.pg| - 1], cs0, mc, ix, db.pages, db.lv, mc'.pg[db.depth - 1], db.cursors, mc',
                     me)
    ensures Refilled(p0, lv0, cs0, db, me, mc, ix, mc')
  {
    hide Kept, StandsSame, Unused;
  }

  /** First the pages were touched and merged, then the parent was refilled. */
  lemma RefilledAfter(db: Database, p0: Pages, lv0: seq<seq<int>>, cs0: seq<Stack>, me: nat, mc: Stack, ix: seq<nat>,
                      p1: Pages, lv1: seq<seq<int>>, cs1: seq<Stack>, mc1: Stack, ix1: seq<nat>, mc': Stack)
    requires |mc.pg| > 0 && |mc1.pg| > 0 && |ix| > 0
    requires Stepped(p0, lv0, mc.pg[|mc.pg| - 1], cs0, mc, ix, p1, lv1, mc1.pg[|mc1.pg| - 1], cs1, mc1, me)
    requires |ix1| > 0 && ix1[|ix1| - 1] == ix[|ix| - 1] && (Inside(p0, mc) ==> Inside(p1, mc1)) && |lv0| > 0
             && |lv1| > 0 && lv1[|lv1| - 1] == lv0[|lv0| - 1]
    requires Refilled(p1, lv1, cs1, db, me, mc1, ix1, mc')
    ensures Refilled(p0, lv0, cs0, db, me, mc, ix, mc')
            && (db.depth > 0 ==> Refilled(p0, lv0, cs0, db, me, mc, ix, mc'.(eof := false)))
  {
    hide Kept, StandsSame, Unused, Inside;
    if db.depth > 0 {
      forall i | 0 <= i < |cs0| && i != me
        ensures Kept(p0, lv0, mc.pg[|mc.pg| - 1], cs0[i], db.pages, db.lv, mc'.pg[db.depth - 1], db.cursors[i])
      {
        KeptTwice(p0, lv0, mc.pg[|mc.pg| - 1], cs0[i], p1, lv1, mc1.pg[|mc1.pg| - 1], cs1[i], db.pages, db.lv,
                  mc'.pg[db.depth - 1], db.cursors[i]);
      }
      SameTwice(p0, mc, ix, mc.pg[|mc.pg| - 1], p1, mc1, ix1, mc1.pg[|mc1.pg| - 1], db.pages, db.lv,
                mc'.pg[db.depth - 1], mc');
      StandsTwice(p0, mc, ix, p1, mc1, ix1, db.pages, db.lv, mc');
    }
  }

  /** A page that mdb_rebalance leaves as it is. */
  predicate Filled(sizes: Sizes, keys: Keys, leaf: bool, nodes: seq<int>) {
    sizes.fill(keys, leaf, nodes) && |nodes| >= if leaf then 1 else 2
  }

  lemma RowsKept(lv: seq<seq<int>>, l: nat)
    requires l <= |lv|
    ensures RowsFrom(lv, l, lv) && (1 <= l ==> RowsFrom(lv, l, lv[1..]))
  {
    assert 1 <= l ==> lv[1..][|lv[1..]| - (|lv| - l)..] == lv[l..];
  }

  lemma RelievedRows(lv0: seq<seq<int>>, top: nat, n: nat, pages: Pages, lv: seq<seq<int>>)
    requires Relieved(lv0, top, n, pages, lv)
    ensures RowsFrom(lv0, top + 1, lv)
  {
  }

  /** The page has enough. */
  lemma StaysAsIs(db: Database, me: nat, mc: Stack, top: nat, ix: seq<nat>)
    requires Refilling(db, me, mc, top, ix)
    requires |Nodes(db.pages, mc.pg[top])| >= if top == db.depth - 1 then 1 else 2
    ensures Refilled(db.pages, db.lv, db.cursors, db, me, mc, ix, mc)
  {
    hide Joined, Nodes, Distinct, Rows, Traces, Kept, MinKeys, Stands, Inside, StandsSame, Unused, RightKeys,
         Database.Sized, TracesTo, Apart;
    StandsTraces(db.pages, db.lv, mc.pg[db.depth - 1], mc, ix);
    Enough(db.pages, db.lv, mc, ix, top);
    StandsStill(db.pages, db.lv, mc.pg[db.depth - 1], mc, ix);
    forall i | 0 <= i < |db.cursors|
      ensures Kept(db.pages, db.lv, mc.pg[db.depth - 1], db.cursors[i], db.pages, db.lv, mc.pg[db.depth - 1],
                   db.cursors[i])
    {
      KeptStill(db.pages, db.lv, mc.pg[db.depth - 1], db.cursors[i]);
    }
  }

  /** The root has too few nodes. */
  method RefillRoot(db: Database, me: nat, mc: Stack, ghost ix: seq<nat>) returns (mc': Stack)
    requires Refilling(db, me, mc, 0, ix) && (0 < db.depth - 1 ==> Nodes(db.pages, mc.pg[0]) != [])
    modifies db
    ensures db.depth > 0 ==> RowsFrom(old(db.lv), 1, db.lv)
    ensures Refilled(old(db.pages), old(db.lv), old(db.cursors), db, me, mc, ix, mc')
  {
    hide Joined, Nodes, Distinct, Rows, Traces, Kept, MinKeys, Stands, Inside, StandsSame, Unused, RightKeys,
         Database.Sized, TracesTo, Stepped, RowsFrom, Apart;
    StandsTraces(db.pages, db.lv, mc.pg[db.depth - 1], mc, ix);
    RowsKept(db.lv, 1);
    mc' := db.RootCase(me, mc, ix);
  }

  /** The page has a neighbour to take a node from, or to be merged with. */
  method RefillBeside(db: Database, me: nat, mc: Stack, top: nat, ghost ix: seq<nat>) returns (mc': Stack)
    requires Refilling(db, me, mc, top, ix) && (top < db.depth - 1 ==> Nodes(db.pages, mc.pg[top]) != []) && top > 0
    modifies db
    ensures db.depth > 0 ==>
              RowsFrom(old(db.lv), top + 1, db.lv)
              && Relieved(old(db.lv), top, |Nodes(old(db.pages), mc.pg[top])|, db.pages, db.lv)
    ensures Refilled(old(db.pages), old(db.lv), old(db.cursors), db, me, mc, ix, mc')
    decreases top, 1
  {
    hide Joined, Nodes, Distinct, Rows, Traces, Kept, MinKeys, Stands, Inside, StandsSame, Unused, RightKeys,
         Database.Sized, TracesTo, Stepped, RowsFrom, RowUp, Relieved, Apart, Refilled, Neighbours;
    var leaf := top == db.depth - 1;
    var minkeys := if leaf then 1 else 2;
    RefillingTree(db, me, mc, top, ix);
    ghost var p0, lv0, cs0 := db.pages, db.lv, db.cursors;
    var mn, fromleft := db.Neighbour(mc, top, ix);
    ghost var nix := NeighbourTrace(db.pages, db.root, db.lv, mc, ix, mn, top, fromleft);
    var nn := Nodes(db.pages, mn.pg[top]);
    if db.sizes.fill(db.keys, leaf, nn) && |nn| > minkeys {
      mc' := BorrowAndUpdate(db, me, mc, mn, top, fromleft, ix, nix);
      RefilledNow(db, p0, lv0, cs0, me, mc, ix, mc');
    } else {
      mc' := AbsorbAndGoOn(db, me, mc, mn, top, fromleft, ix, nix);
    }
    if db.depth > 0 {
      RelievedRows(lv0, top, |Nodes(p0, mc.pg[top])|, db.pages, db.lv);
    }
  }

  /** mdb_rebalance: refills the page of the cursor at row top, and the rows
      above it as far as needed. */
  method Rebalance(db: Database, me: nat, mc: Stack, top: nat, ghost ix: seq<nat>) returns (mc': Stack)
    requires Refilling(db, me, mc, top, ix) && (top < db.depth - 1 ==> Nodes(db.pages, mc.pg[top]) != [])
    modifies db
    ensures db.depth > 0 ==> RowsFrom(old(db.lv), top + 1, db.lv)
    ensures if Filled(db.sizes, old(db.keys), top == old(db.depth) - 1, Nodes(old(db.pages), mc.pg[top])) then
              db.pages == old(db.pages) && db.lv == old(db.lv) && db.depth == old(db.depth)
            else top > 0 && db.depth > 0 ==>
                   Relieved(old(db.lv), top, |Nodes(old(db.pages), mc.pg[top])|, db.pages, db.lv)
    ensures CleanKept(old(db.pages), old(db.dirty), old(db.next), db.pages, db.dirty)
    ensures Refilled(old(db.pages), old(db.lv), old(db.cursors), db, me, mc, ix, mc')
    decreases top, 2
  {
    hide Nodes, RowsFrom, Relieved, Refilled, CleanKept, Apart;
    ghost var pages0, loose0, next0, dirty0 := db.pages, db.loose, db.next, db.dirty;
    var leaf := top == db.depth - 1;
    var nodes := Nodes(db.pages, mc.pg[top]);
    if db.sizes.fill(db.keys, leaf, nodes) && |nodes| >= if leaf then 1 else 2 {
      RefillingTree(db, me, mc, top, ix);
      RowsKept(db.lv, top + 1);
      ApartKeeps(db.base, db.first, pages0, loose0, next0, dirty0, db.pages, db.loose, db.next, db.dirty);
      StaysAsIs(db, me, mc, top, ix);
      return mc;
    }
    if top == 0 {
      mc' := RefillRoot(db, me, mc, ix);
    } else {
      mc' := RefillBeside(db, me, mc, top, ix);
    }
    RefilledIntact(db, me, mc, ix, mc', old(db.pages), old(db.lv), old(db.cursors));
    ApartKeeps(db.base, db.first, pages0, loose0, next0, dirty0, db.pages, db.loose, db.next, db.dirty);
  }

  lemma NeighbourTrace(pages: Pages, root: Id, lv: seq<seq<int>>, mc: Stack, ix: seq<nat>, mn: Stack, top: nat,
                       fromleft: bool) returns (nix: seq<nat>)
    requires Tree(pages, root, lv) && Traces(pages, lv, mc, ix) && |mc.pg| == |mc.ki| == |lv| - 1 > top > 0
             && |ix| == |lv|
    requires |mn.pg| == |mn.ki| == |mc.pg| && mn.pg[..top] == mc.pg[..top] && mn.ki[..top - 1] == mc.ki[..top - 1]
    requires var P, k := Nodes(pages, mc.pg[top - 1]), mc.ki[top - 1];
      if fromleft then
        0 < k < |P| && mn.pg[top] == P[k - 1] && mn.ki[top - 1] == k - 1 && mn.ki[top] + 1 == |Nodes(pages, mn.pg[top])|
      else k == 0 && 1 < |P| && mn.pg[top] == P[1] && mn.ki[top - 1] == 1 && mn.ki[top] == 0
    ensures Neighbours(pages, lv, mc, mn, top, fromleft, nix)
  {
    hide Joined, Nodes, Distinct, Rows;
    PartTrace(pages, lv, mc, ix, top);
    var t, k := ix[top - 1], mn.ki[top - 1];
    nix := ix[top := if fromleft then ix[top] - 1 else ix[top] + 1];
    assert mn.pg[top - 1] == mn.pg[..top][top - 1] == mc.pg[top - 1];
    assert Link(pages, lv[top - 1], ix[top - 1], mc.pg[top - 1], mc.ki[top - 1], ix[top]);
    RowBelow(pages, root, lv, top - 1);
    NodeAt(pages, lv[top - 1], t, k);
    forall l | 0 <= l < top
      ensures Link(pages, lv[l], nix[l], mn.pg[l], mn.ki[l], nix[l + 1]) && mn.ki[l] < |Nodes(pages, mn.pg[l])|
    {
      assert mn.pg[l] == mn.pg[..top][l] == mc.pg[l];
      assert Link(pages, lv[l], ix[l], mc.pg[l], mc.ki[l], ix[l + 1]);
      if l < top - 1 {
        assert mn.ki[l] == mn.ki[..top - 1][l] == mc.ki[l];
      }
    }
  }

  /** mdb_page_touch of the page that takes the other one in: the left one. */
  method TouchLeft(db: Database, me: nat, mc: Stack, mn: Stack, top: nat, fromleft: bool, ghost ix: seq<nat>,
                   ghost nix: seq<nat>) returns (mc': Stack, mn': Stack, ghost ix': seq<nat>)
    requires Refilling(db, me, mc, top, ix) && SideBySide(db.pages, db.lv, mc, mn, top, fromleft, nix)
    modifies db
    ensures |mc.pg| > top && |mc'.pg| > top && |Nodes(db.pages, mc'.pg[top])| == |Nodes(old(db.pages), mc.pg[top])|
    ensures |mc'.pg| == |mc'.ki| == |mc.pg| > top && Refilling(db, me, mc', top, ix') && db.depth == old(db.depth)
            && db.Items() == old(db.Items())
    ensures SideBySide(db.pages, db.lv, mc', mn', top, fromleft, nix)
    ensures RowRenumbered(old(db.lv), db.lv, top)
    ensures Stepped(old(db.pages), old(db.lv), mc.pg[old(db.depth) - 1], old(db.cursors), mc, ix, db.pages, db.lv,
                    mc'.pg[db.depth - 1], db.cursors, mc', me)
    ensures db.first <= if fromleft then mn'.pg[top] else mc'.pg[top]
    ensures |ix| > 0 && |ix'| > 0 && ix'[|ix'| - 1] == ix[|ix| - 1]
            && (Inside(old(db.pages), mc) ==> Inside(db.pages, mc'))
  {
    hide Joined, Nodes, Distinct, Rows, Traces, TracesTo, Inside, Refilling, Stepped, AllTraced;
    ghost var p0, lv0 := db.pages, db.lv;
    RefillingTree(db, me, mc, top, ix);
    NeighboursApart(db.pages, db.root, db.lv, mc, ix, mn, top, fromleft, nix);
    if fromleft {
      mc', mn', ix' := TouchBeside(db, me, mc, mn, top, ix, nix);
      TracedOn(p0, lv0, mn, nix, top, top, mn.pg[top], mn'.pg[top], db.pages, db.lv);
      assert mn' == Retargeted(mn, top, mn.pg[top], mn'.pg[top]);
    } else {
      var c;
      mc', c, ix' := TouchBeside(db, me, mc, mc, top, ix, ix);
      mn' := mn;
      TracedOn(p0, lv0, mn, nix, top, top, mc.pg[top], c.pg[top], db.pages, db.lv);
      assert mn' == Retargeted(mn, top, mc.pg[top], c.pg[top]);
    }
    RefillingTree(db, me, mc', top, ix');
    NeighboursApart(db.pages, db.root, db.lv, mc', ix', mn', top, fromleft, nix);
  }

  /** The page is merged with a neighbour, into the left one of the two. */
  method MergeBeside(db: Database, me: nat, mc: Stack, mn: Stack, top: nat, fromleft: bool, ghost ix: seq<nat>,
                     ghost nix: seq<nat>) returns (mc': Stack, ghost ix': seq<nat>)
    requires Refilling(db, me, mc, top, ix) && Neighbours(db.pages, db.lv, mc, mn, top, fromleft, nix)
    requires top < db.depth - 1 ==> Nodes(db.pages, mc.pg[top]) != []
    modifies db
    ensures |mc'.pg| == |mc'.ki| == db.depth == old(db.depth) && top > 0 && Refilling(db, me, mc', top - 1, ix')
            && Nodes(db.pages, mc'.pg[top - 1]) != [] && db.Items() == old(db.Items())
    ensures |db.lv| == |old(db.lv)| > top && |db.lv[top]| == |old(db.lv)[top]| - 1
            && forall l :: 0 <= l < |db.lv| && l != top ==> db.lv[l] == old(db.lv)[l]
    ensures Stepped(old(db.pages), old(db.lv), mc.pg[old(db.depth) - 1], old(db.cursors), mc, ix, db.pages, db.lv,
                    mc'.pg[db.depth - 1], db.cursors, mc', me)
    ensures |ix| > 0 && |ix'| > 0 && ix'[|ix'| - 1] == ix[|ix| - 1]
            && (Inside(old(db.pages), mc) ==> Inside(db.pages, mc'))
  {
    hide Joined, Nodes, Distinct, Rows, Traces, Kept, MinKeys, Stands, Inside, StandsSame, Unused, RightKeys,
         Database.Sized, TracesTo, Stepped, RowUp, Apart;
    ghost var p0, lv0, cs0, g0 := db.pages, db.lv, db.cursors, mc.pg[db.depth - 1];
    var mc1, mn1;
    ghost var ix1;
    mc1, mn1, ix1 := TouchLeft(db, me, mc, mn, top, fromleft, ix, nix);
    ghost var p1, lv1, cs1, g1 := db.pages, db.lv, db.cursors, mc1.pg[db.depth - 1];
    RefillingTree(db, me, mc1, top, ix1);
    NeighboursApart(db.pages, db.root, db.lv, mc1, ix1, mn1, top, fromleft, nix);
    mc', ix' := db.Absorb(me, mc1, mn1, top, fromleft, ix1);
    ghost var g2 := mc'.pg[db.depth - 1];
    StillStanding(db, me, p1, lv1, g1, cs1, g2);
    MakeSame(p1, mc1, ix1, db.pages, db.lv, mc', ix');
    SteppedBy(db, p1, lv1, g1, cs1, mc1, ix1, g2, mc', me);
    SteppedTwice(p0, lv0, g0, cs0, mc, ix, p1, lv1, g1, cs1, mc1, ix1, db.pages, db.lv, g2, db.cursors, mc', me);
  }

  /** The page is merged with a neighbour, and the parent rebalanced. */
  method AbsorbAndGoOn(db: Database, me: nat, mc: Stack, mn: Stack, top: nat, fromleft: bool, ghost ix: seq<nat>,
                       ghost nix: seq<nat>) returns (mc': Stack)
    requires Refilling(db, me, mc, top, ix) && Neighbours(db.pages, db.lv, mc, mn, top, fromleft, nix)
    requires top < db.depth - 1 ==> Nodes(db.pages, mc.pg[top]) != []
    requires |mn.pg| > top && !Spares(db.sizes, db.keys, top == db.depth - 1, Nodes(db.pages, mn.pg[top]))
    modifies db
    ensures db.depth > 0 ==> Relieved(old(db.lv), top, |Nodes(old(db.pages), mc.pg[top])|, db.pages, db.lv)
    ensures Refilled(old(db.pages), old(db.lv), old(db.cursors), db, me, mc, ix, mc')
    decreases top, 0
  {
    hide Nodes, Stepped, Refilled, Relieved, Refilling, Inside, RowsFrom, RowUp, Spares;
    ghost var p0, lv0, cs0 := db.pages, db.lv, db.cursors;
    RefillingTree(db, me, mc, top, ix);
    var mc2;
    ghost var ix2;
    mc2, ix2 := MergeBeside(db, me, mc, mn, top, fromleft, ix, nix);
    ghost var p2, lv2, cs2 := db.pages, db.lv, db.cursors;
    mc' := Rebalance(db, me, mc2, top - 1, ix2);
    if db.depth > 0 {
      MergeRelieves(lv0, lv2, top, |Nodes(p0, mc.pg[top])|, db.pages, db.lv);
    }
    RefilledAfter(db, p0, lv0, cs0, me, mc, ix, p2, lv2, cs2, mc2, ix2, mc');
    if db.depth > 0 {
      mc' := mc'.(eof := false);
    }
  }

  lemma MakeSame(p1: Pages, c1: Stack, ix1: seq<nat>, p2: Pages, lv2: seq<seq<int>>, c2: Stack, ix2: seq<nat>)
    requires |c1.pg| == |c1.ki| > 0 && |ix1| > 0 && |c2.pg| > 0 && Stands(p2, lv2, c2.pg[|c2.pg| - 1], c2, ix2)
             && |ix2| == |ix1| && ix2[|ix2| - 1] == ix1[|ix1| - 1]
    requires Inside(p1, c1) ==> Inside(p2, c2)
    ensures StandsSame(p1, c1, ix1, c1.pg[|c1.pg| - 1], p2, lv2, c2.pg[|c2.pg| - 1], c2)
  {
    hide Traces, Nodes, Inside;
  }
}
