/**
 mdb_cursor_del0: the item goes, its page is refilled, and cursors past its end
 move on.

 A cursor that was on the deleted item is left at the same index, where the next
 item is now, or past the last one of its page, and gets C_DEL, so that a step to
 the next item does not skip one.  Then the page is refilled, which may move
 everything.  `Midway` is what is known of a cursor until then.

 The last loop of the source looks for cursors that are past the end of the
 page, moves them to the next one with mdb_cursor_sibling, and sets C_EOF when
 there is none.  `Followed` is where all cursors are in the end.
 */
module Deletion {
  import opened Sequences
  import opened Levels
  import opened Tracking
  import opened Separators
  import opened KeyedItems
  import opened Positions
  import opened Rebalancing

  lemma FullTrace(pages: Pages, lv: seq<seq<int>>, c: Stack, ix: seq<nat>)
    requires |lv| >= 2 && TracesTo(pages, lv, c, ix, |lv| - 2)
    ensures var D := |lv| - 1; Traces(pages, lv, c, ix[D := Start(pages, lv[D - 1], ix[D - 1]) + c.ki[D - 1]])
  {
    var D := |lv| - 1;
    var ix' := ix[D := Start(pages, lv[D - 1], ix[D - 1]) + c.ki[D - 1]];
    forall l | 0 <= l < |lv| - 1 ensures Link(pages, lv[l], ix'[l], c.pg[l], c.ki[l], ix'[l + 1]) {
      if l < D - 1 {
        assert Link(pages, lv[l], ix[l], c.pg[l], c.ki[l], ix[l + 1]);
      }
    }
  }

  /** One step down: the page that the stack at row T leads to. */
  lemma StepDown(pages: Pages, root: Id, lv: seq<seq<int>>, c: Stack, ix: seq<nat>, T: nat)
    requires Rows(pages, root, lv) && TracesTo(pages, lv, c, ix, T) && T + 2 < |lv| && c.ki[T] < |Nodes(pages, c.pg[T])|
    ensures var mp := Nodes(pages, c.pg[T])[c.ki[T]];
            TracesTo(pages, lv, c.(pg := c.pg[T + 1 := mp], ki := c.ki[T + 1 := 0]),
                     ix[T + 1 := Start(pages, lv[T], ix[T]) + c.ki[T]], T + 1)
  {
    hide Joined, Nodes;
    NodeAt(pages, lv[T], ix[T], c.ki[T]);
    var c', ix' := c.(pg := c.pg[T + 1 := Nodes(pages, c.pg[T])[c.ki[T]]], ki := c.ki[T + 1 := 0]),
        ix[T + 1 := Start(pages, lv[T], ix[T]) + c.ki[T]];
    forall l | 0 <= l < T + 1
      ensures Link(pages, lv[l], ix'[l], c'.pg[l], c'.ki[l], ix'[l + 1]) && c'.ki[l] < |Nodes(pages, c'.pg[l])|
    {
      if l < T {
        assert Link(pages, lv[l], ix[l], c.pg[l], c.ki[l], ix[l + 1]);
      }
    }
  }

  /** mdb_cursor_sibling to the right, of the page at row top. */
  method Sibling(pages: Pages, mc: Stack, top: nat, ghost root: Id, ghost lv: seq<seq<int>>, ghost ix: seq<nat>)
    returns (found: bool, mc': Stack, ghost ix': seq<nat>)
    requires Tree(pages, root, lv) && MinKeys(pages, lv, {}) && TracesTo(pages, lv, mc, ix, top)
    ensures !found ==> mc' == mc && ix[top] + 1 == |lv[top]|
    ensures found ==> TracesTo(pages, lv, mc', ix', top) && ix'[top] == ix[top] + 1 && mc'.ki[top] == 0
    ensures mc'.init == mc.init && mc'.eof == mc.eof && mc'.del == mc.del
    decreases top
  {
    hide Joined, Nodes, Distinct, MinKeys, TracesTo, Rows;
    mc', ix' := mc, ix;
    TraceSizes(pages, lv, mc, ix, top);
    if top == 0 {
      OneRoot(pages, root, lv);
      return false, mc, ix;
    }
    UpTrace(pages, lv, mc, ix, top);
    JoinedAt(pages, lv[top - 1], ix[top - 1]);
    if mc.ki[top - 1] + 1 >= |Nodes(pages, mc.pg[top - 1])| {
      found, mc', ix' := Sibling(pages, mc, top - 1, root, lv, ix);
      if !found {
        WholeRow(pages, lv, root, top - 1);
        return;
      }
      TraceSizes(pages, lv, mc', ix', top - 1);
      PageKeys(pages, lv, top - 1, ix'[top - 1]);
    } else {
      mc' := mc'.(ki := mc'.ki[top - 1 := mc'.ki[top - 1] + 1]);
      IndexAside(pages, lv, mc, ix, top - 1, mc'.ki[top - 1]);
    }
    TraceSizes(pages, lv, mc', ix', top - 1);
    StepDown(pages, root, lv, mc', ix', top - 1);
    StartNext(pages, lv[top - 1], ix[top - 1]);
    var mp := Nodes(pages, mc'.pg[top - 1])[mc'.ki[top - 1]];
    ix' := ix'[top := Start(pages, lv[top - 1], ix'[top - 1]) + mc'.ki[top - 1]];
    mc' := mc'.(pg := mc'.pg[top := mp], ki := mc'.ki[top := 0]);
    found := true;
  }

  lemma StartNext(pages: Pages, row: seq<Id>, j: nat)
    requires j < |row|
    ensures Start(pages, row, j + 1) == Start(pages, row, j) + |Nodes(pages, row[j])|
  {
    JoinedAt(pages, row, j);
  }

  lemma UpTrace(pages: Pages, lv: seq<seq<int>>, c: Stack, ix: seq<nat>, T: nat)
    requires TracesTo(pages, lv, c, ix, T) && T > 0
    ensures |c.pg| == |c.ki| == |lv| - 1 > T && |ix| == |lv|
    ensures TracesTo(pages, lv, c, ix, T - 1) && Link(pages, lv[T - 1], ix[T - 1], c.pg[T - 1], c.ki[T - 1], ix[T])
    ensures c.ki[T - 1] < |Nodes(pages, c.pg[T - 1])|
  {
    assert Link(pages, lv[T - 1], ix[T - 1], c.pg[T - 1], c.ki[T - 1], ix[T]);
  }

  lemma IndexAside(pages: Pages, lv: seq<seq<int>>, c: Stack, ix: seq<nat>, T: nat, k: nat)
    requires TracesTo(pages, lv, c, ix, T)
    ensures |c.ki| > T && TracesTo(pages, lv, c.(ki := c.ki[T := k]), ix, T)
  {
  }

  lemma OneRoot(pages: Pages, root: Id, lv: seq<seq<int>>)
    requires Rows(pages, root, lv)
    ensures |lv| >= 2 && lv[0] == [root]
  {
  }

  lemma PageKeys(pages: Pages, lv: seq<seq<int>>, l: nat, i: nat)
    requires MinKeys(pages, lv, {}) && l < |lv| - 1 && i < |lv[l]|
    ensures Nodes(pages, lv[l][i]) != []
  {
  }

  // ------------------------------------------------------------- positions

  /** Where item q is when item p has gone. */
  function Shift(q: nat, p: nat): nat { if q > p then q - 1 else q }

  /** A cursor c that was on item q has become c', after item p was deleted:
      it is on the same item, or has C_DEL set and is on the one that followed,
      or has C_EOF set if none did.  The acting cursor gets C_DEL last. */
  ghost predicate Followed(c: Stack, q: nat, p: nat, mine: bool, pages: Pages, lv: seq<seq<int>>, c': Stack)
    requires |lv| > 0
  {
    && |c'.pg| == |c'.ki| && c'.init == c.init
    && (c.init ==>
          && At(pages, lv, c', Shift(q, p)) && (mine || c'.del == (c.del || q == p))
          && (c'.eof ==> c.eof || Shift(q, p) == |lv[|lv| - 1]|)
          && (q == p == |lv[|lv| - 1]| ==> c'.eof))
  }

  /** The same in the middle of the work: the cursor may still be past the
      items of the given page, and the acting cursor has no C_DEL yet. */
  ghost predicate Midway(c: Stack, q: nat, p: nat, mine: bool, pages: Pages, lv: seq<seq<int>>, page: Id, c': Stack) {
    && |c'.pg| == |c'.ki| && c'.init == c.init
    && (c.init ==>
          && (mine || c'.del == (c.del || q == p)) && (c'.eof ==> c.eof)
          && exists ix :: MidwayIx(q, p, pages, lv, page, c', ix))
  }

  ghost predicate MidwayIx(q: nat, p: nat, pages: Pages, lv: seq<seq<int>>, page: Id, c': Stack, ix: seq<nat>) {
    Stands(pages, lv, page, c', ix) && ix[|lv| - 1] == Shift(q, p) && (q == p ==> c'.pg[|c'.pg| - 1] == page)
  }

  /** After the item has gone from the leaf, and before the page is refilled. */
  lemma ShrunkFollows(pages: Pages, root: Id, lv: seq<seq<int>>, j: nat, k: nat, c: Stack, q: nat)
    requires |lv| >= 2 && Tree(pages, root, lv) && j < |lv[|lv| - 2]| && k < |Nodes(pages, lv[|lv| - 2][j])|
    requires c.init && At(pages, lv, c, q)
    ensures var L := |lv| - 2;
            var mp := lv[L][j];
            var pages' := pages[mp := Without(Nodes(pages, mp), k)];
            var p := Start(pages, lv[L], j) + k;
            && p < |lv[L + 1]|
            && var lv' := lv[L + 1 := Without(lv[L + 1], p)];
            && Tree(pages', root, lv') && |c.pg| == |c.ki|
            && var c' := Shrunk(c, L, mp, k);
            Midway(c, q, p, false, pages', lv', mp, c')
  {
    hide Joined, Nodes, Distinct, Rows, Traces;
    var L := |lv| - 2;
    var mp := lv[L][j];
    var ix :| AtIx(pages, lv, c, q, ix);
    ShrunkKeeps(pages, root, lv, j, k, c, ix);
    var pages' := pages[mp := Without(Nodes(pages, mp), k)];
    var p := Start(pages, lv[L], j) + k;
    AtItem(pages, root, lv, c, q);
    var ix' := ix[L + 1 := Shift(q, p)];
    assert MidwayIx(q, p, pages', lv[L + 1 := Without(lv[L + 1], p)], mp, Shrunk(c, L, mp, k), ix');
  }

  lemma KeptMidway(c0: Stack, q: nat, p: nat, pages: Pages, lv: seq<seq<int>>, page: Id, c: Stack,
                   pages': Pages, lv': seq<seq<int>>, page': Id, c': Stack)
    requires Midway(c0, q, p, false, pages, lv, page, c) && Kept(pages, lv, page, c, pages', lv', page', c')
    ensures Midway(c0, q, p, false, pages', lv', page', c')
  {
    hide Traces, Nodes, Inside;
    if c0.init {
      var ix :| MidwayIx(q, p, pages, lv, page, c, ix);
      assert StandsSame(pages, c, ix, page, pages', lv', page', c');
      var ix' :| Stands(pages', lv', page', c', ix') && ix'[|lv'| - 1] == ix[|ix| - 1]
        && (c.pg[|c.pg| - 1] == page ==> c'.pg[|c'.pg| - 1] == page');
      assert MidwayIx(q, p, pages', lv', page', c', ix');
    }
  }

  /** A cursor that is past the items of page mp goes on to the next page: one
      turn of the second loop in mdb_cursor_del0. */
  method Settle(pages: Pages, m3: Stack, mp: Id, mcki: nat, nkeys: nat, ghost root: Id, ghost lv: seq<seq<int>>,
                ghost ix: seq<nat>) returns (m3': Stack)
    requires Tree(pages, root, lv) && MinKeys(pages, lv, {})
    requires nkeys == |Nodes(pages, mp)| && mcki <= nkeys
    requires |m3.pg| == |m3.ki| && (m3.init ==> Stands(pages, lv, mp, m3, ix))
    ensures |m3'.pg| == |m3'.ki| == |m3.pg| && m3'.init == m3.init && m3'.del == m3.del
    ensures m3'.ki == m3.ki || m3'.ki[|m3'.ki| - 1..] == [0]
    ensures m3.init ==> At(pages, lv, m3', ix[|lv| - 1]) && (m3'.eof ==> m3.eof || ix[|lv| - 1] == |lv[|lv| - 1]|)
    ensures m3.init && m3.pg[|m3.pg| - 1] == mp && ix[|lv| - 1] == |lv[|lv| - 1]| ==> m3'.eof
  {
    hide Joined, Nodes, Distinct, Traces, TracesTo, MinKeys;
    m3' := m3;
    if !m3.init {
      return;
    }
    var top := |m3.pg| - 1;
    StandsTraces(pages, lv, mp, m3, ix);
    AtFrom(pages, lv, mp, m3, ix);
    if m3.pg[top] == mp && m3.ki[top] >= mcki && m3.ki[top] >= nkeys {
      PartTrace(pages, lv, m3, ix, top);
      var found;
      ghost var ix';
      found, m3', ix' := Sibling(pages, m3, top, root, lv, ix);
      TraceLink(pages, lv, m3, ix, top);
      if found {
        TraceSizes(pages, lv, m3', ix', top);
        FullTrace(pages, lv, m3', ix');
        PageKeys(pages, lv, top, ix'[top]);
        StartNext(pages, lv[top], ix[top]);
        assert AtIx(pages, lv, m3', ix[|lv| - 1], ix'[|lv| - 1 := Start(pages, lv[top], ix'[top])]);
        AtItem(pages, root, lv, m3', ix[|lv| - 1]);
      } else {
        assert AtIx(pages, lv, m3, ix[|lv| - 1], ix);
        AtItem(pages, root, lv, m3, ix[|lv| - 1]);
        m3' := m3'.(eof := true);
        FlagsAside(pages, lv, m3, m3', ix);
        assert AtIx(pages, lv, m3', ix[|lv| - 1], ix);
      }
    } else {
      AtItem(pages, root, lv, m3, ix[|lv| - 1]);
    }
  }

  lemma AtFrom(pages: Pages, lv: seq<seq<int>>, mp: Id, c: Stack, ix: seq<nat>)
    requires Stands(pages, lv, mp, c, ix)
    ensures |c.pg| == |c.ki| == |lv| - 1 >= 1 && |ix| == |lv| && c.ki[|c.ki| - 1] <= |Nodes(pages, c.pg[|c.pg| - 1])|
    ensures Inside(pages, c) || ix[|lv| - 2] + 1 == |lv[|lv| - 2]| ==> At(pages, lv, c, ix[|lv| - 1])
    ensures Inside(pages, c) || ix[|lv| - 2] + 1 == |lv[|lv| - 2]| || c.pg[|c.pg| - 1] == mp
  {
    hide Traces, Nodes;
    if Inside(pages, c) || ix[|lv| - 2] + 1 == |lv[|lv| - 2]| {
      assert AtIx(pages, lv, c, ix[|lv| - 1], ix);
    }
  }

  /** The first loop of mdb_cursor_del0. */
  method ShrinkOthers(db: Database, me: nat, top: nat, mp: Id, ki: nat)
    requires db.WellFormed()
    modifies db`cursors
    ensures |db.cursors| == |old(db.cursors)| && (me < |db.cursors| ==> db.cursors[me] == old(db.cursors)[me])
    ensures forall i :: 0 <= i < |db.cursors| && i != me ==> db.cursors[i] == Shrunk(old(db.cursors)[i], top, mp, ki)
  {
    var i := 0;
    while i < |db.cursors|
      invariant 0 <= i <= |db.cursors| == |old(db.cursors)|
      invariant forall k :: i <= k < |db.cursors| ==> db.cursors[k] == old(db.cursors)[k]
      invariant forall k :: 0 <= k < i && k != me ==> db.cursors[k] == Shrunk(old(db.cursors)[k], top, mp, ki)
      invariant me < |db.cursors| ==> db.cursors[me] == old(db.cursors)[me]
    {
      if i != me {
        db.cursors := db.cursors[i := Shrunk(db.cursors[i], top, mp, ki)];
      }
      i := i + 1;
    }
  }

  /** The second loop of mdb_cursor_del0. */
  method SettleAll(db: Database, me: nat, mp: Id, ghost cs0: seq<Stack>, ghost places: seq<nat>, ghost p: nat)
    requires db.Ok({}) && me < |db.cursors| == |cs0| == |places| && db.cursors[me].init
    requires |db.cursors[me].pg| == db.depth && mp == db.cursors[me].pg[db.depth - 1]
    requires forall i :: 0 <= i < |cs0| ==> Midway(cs0[i], places[i], p, i == me, db.pages, db.lv, mp, db.cursors[i])
    modifies db`cursors
    ensures |db.cursors| == |cs0|
    ensures forall i :: 0 <= i < |cs0| ==> Followed(cs0[i], places[i], p, i == me, db.pages, db.lv, db.cursors[i])
  {
    hide Joined, Nodes, Distinct, Rows, Traces, MinKeys, At, Stands;
    var top := db.depth - 1;
    var nkeys := |Nodes(db.pages, mp)|;
    MeBounded(cs0[me], places[me], p, db.pages, db.lv, mp, db.cursors[me]);
    var i := 0;
    while i < |db.cursors|
      invariant 0 <= i <= |db.cursors| == |cs0|
      invariant forall k :: i <= k < |db.cursors| ==>
                  Midway(cs0[k], places[k], p, k == me, db.pages, db.lv, mp, db.cursors[k])
      invariant forall k :: 0 <= k < i ==> Followed(cs0[k], places[k], p, k == me, db.pages, db.lv, db.cursors[k])
      invariant |db.cursors[me].pg| == |db.cursors[me].ki| == db.depth && db.cursors[me].ki[top] <= nkeys
    {
      ghost var ix := [];
      if db.cursors[i].init {
        ix :| MidwayIx(places[i], p, db.pages, db.lv, mp, db.cursors[i], ix);
      }
      var m3 := Settle(db.pages, db.cursors[i], mp, db.cursors[me].ki[top], nkeys, db.root, db.lv, ix);
      db.cursors := db.cursors[i := m3];
      i := i + 1;
    }
  }

  lemma MeBounded(c: Stack, q: nat, p: nat, pages: Pages, lv: seq<seq<int>>, page: Id, c': Stack)
    requires Midway(c, q, p, true, pages, lv, page, c') && c'.init && |c'.pg| > 0 && c'.pg[|c'.pg| - 1] == page
    ensures |c'.ki| == |c'.pg| == |lv| - 1 && c'.ki[|c'.ki| - 1] <= |Nodes(pages, page)|
  {
    hide Joined, Nodes, Traces;
    var ix :| MidwayIx(q, p, pages, lv, page, c', ix);
  }

  lemma MarkMine(c: Stack, q: nat, pages: Pages, lv: seq<seq<int>>, c': Stack)
    requires |lv| > 0 && Followed(c, q, q, true, pages, lv, c')
    ensures Followed(c, q, q, false, pages, lv, c'.(del := true))
  {
    hide Joined, Nodes, Traces;
    if c.init {
      var ix :| AtIx(pages, lv, c', q, ix);
      FlagsAside(pages, lv, c', c'.(del := true), ix);
      assert AtIx(pages, lv, c'.(del := true), q, ix);
    }
  }

  /** The tree without the item the acting cursor is on. */
  lemma Removed(pages: Pages, root: Id, lv: seq<seq<int>>, mc: Stack, p: nat) returns (ix1: seq<nat>)
    requires Tree(pages, root, lv) && MinKeys(pages, lv, {}) && At(pages, lv, mc, p)
    requires |mc.pg| == |mc.ki| > 0 && mc.init && Inside(pages, mc)
    ensures var L := |lv| - 2;
            && L >= 0 && |mc.pg| == L + 1 && p < |lv[L + 1]| && mc.ki[L] < |Nodes(pages, mc.pg[L])|
            && var mp := mc.pg[L];
            && var pages1, lv1 := pages[mp := Without(Nodes(pages, mp), mc.ki[L])], lv[L + 1 := Without(lv[L + 1], p)];
            && Tree(pages1, root, lv1) && MinKeys(pages1, lv1, {mp})
            && Stands(pages1, lv1, mp, mc, ix1) && ix1[L + 1] == p
            && forall c: Stack, q: nat :: |c.pg| == |c.ki| && (c.init ==> At(pages, lv, c, q)) ==>
                 Midway(c, q, p, false, pages1, lv1, mp, Shrunk(c, L, mp, mc.ki[L]))
  {
    hide Joined, Nodes, Distinct, Rows, Traces, MinKeys, Shrunk, Midway;
    var L := |lv| - 2;
    var ix :| AtIx(pages, lv, mc, p, ix);
    var mp, k, j := mc.pg[L], mc.ki[L], ix[L];
    TraceLink(pages, lv, mc, ix, L);
    AtItem(pages, root, lv, mc, p);
    var pages1, lv1 := pages[mp := Without(Nodes(pages, mp), k)], lv[L + 1 := Without(lv[L + 1], p)];
    ShrunkMe(pages, root, lv, j, k, mc, ix);
    ix1 := ix;
    MinAfterShrink(pages, lv, j, k, p);
    forall c: Stack, q: nat | |c.pg| == |c.ki| && (c.init ==> At(pages, lv, c, q))
      ensures Midway(c, q, p, false, pages1, lv1, mp, Shrunk(c, L, mp, k))
    {
      if c.init {
        ShrunkFollows(pages, root, lv, j, k, c, q);
      } else {
        ShrunkIdle(c, q, p, L, mp, k, pages1, lv1);
      }
    }
  }

  lemma ShrunkIdle(c: Stack, q: nat, p: nat, L: nat, mp: Id, k: nat, pages: Pages, lv: seq<seq<int>>)
    requires |c.pg| == |c.ki| && !c.init
    ensures Midway(c, q, p, false, pages, lv, mp, Shrunk(c, L, mp, k))
  {
  }

  /** The acting cursor stays where it is. */
  lemma ShrunkMe(pages: Pages, root: Id, lv: seq<seq<int>>, j: nat, k: nat, c: Stack, ix: seq<nat>)
    requires |lv| >= 2 && Tree(pages, root, lv) && j < |lv[|lv| - 2]| && k < |Nodes(pages, lv[|lv| - 2][j])|
    requires |c.pg| == |c.ki| == |lv| - 1 && |ix| == |lv| && Traces(pages, lv, c, ix) && c.init
             && c.pg[|lv| - 2] == lv[|lv| - 2][j] && c.ki[|lv| - 2] == k
    ensures var L := |lv| - 2;
            var mp := lv[L][j];
            var pages' := pages[mp := Without(Nodes(pages, mp), k)];
            var p := Start(pages, lv[L], j) + k;
            && p < |lv[L + 1]| && ix[L + 1] == p
            && Tree(pages', root, lv[L + 1 := Without(lv[L + 1], p)])
            && Stands(pages', lv[L + 1 := Without(lv[L + 1], p)], mp, c, ix)
  {
    hide Joined, Nodes, Distinct, Rows, Traces, Inside;
    var L := |lv| - 2;
    var mp := lv[L][j];
    ShrunkKeeps(pages, root, lv, j, k, c, ix);
    var pages', p := pages[mp := Without(Nodes(pages, mp), k)], Start(pages, lv[L], j) + k;
    var c' := Shrunk(c, L, mp, k);
    assert ix[L + 1 := ix[L + 1]] == ix;
    FlagsAside(pages', lv[L + 1 := Without(lv[L + 1], p)], c, c', ix);
  }

  lemma MinAfterShrink(pages: Pages, lv: seq<seq<int>>, j: nat, k: nat, p: nat)
    requires |lv| >= 2 && MinKeys(pages, lv, {}) && j < |lv[|lv| - 2]| && k < |Nodes(pages, lv[|lv| - 2][j])|
             && p < |lv[|lv| - 1]|
    ensures var mp := lv[|lv| - 2][j];
            MinKeys(pages[mp := Without(Nodes(pages, mp), k)], lv[|lv| - 1 := Without(lv[|lv| - 1], p)], {mp})
  {
  }

  lemma MidwayAllStand(db: Database, me: nat, cs0: seq<Stack>, places: seq<nat>, p: nat, page: Id)
    requires |cs0| == |places| == |db.cursors|
    requires forall i :: 0 <= i < |cs0| && i != me ==>
               Midway(cs0[i], places[i], p, false, db.pages, db.lv, page, db.cursors[i])
    ensures db.AllStand(me, page) && forall i :: 0 <= i < |cs0| && i != me ==> |db.cursors[i].pg| == |db.cursors[i].ki|
  {
    hide Traces, Nodes, Stands;
    forall i | 0 <= i < |cs0| && i != me && db.cursors[i].init ensures SomeStand(db.pages, db.lv, page, db.cursors[i]) {
      var ix :| MidwayIx(places[i], p, db.pages, db.lv, page, db.cursors[i], ix);
    }
  }

  lemma MidwayMe(c0: Stack, p: nat, pages: Pages, ix: seq<nat>, page: Id, pages': Pages, lv': seq<seq<int>>, page': Id,
                 c': Stack)
    requires |c0.pg| == |c0.ki| > 0 && |ix| > 0 && ix[|ix| - 1] == p && c0.pg[|c0.pg| - 1] == page
    requires c0.init && c'.init && (c'.eof ==> c0.eof) && StandsSame(pages, c0, ix, page, pages', lv', page', c')
    ensures Midway(c0, p, p, true, pages', lv', page', c')
  {
    hide Traces, Nodes;
    var ix' :| Stands(pages', lv', page', c', ix') && ix'[|lv'| - 1] == ix[|ix| - 1]
      && (c0.pg[|c0.pg| - 1] == page ==> c'.pg[|c'.pg| - 1] == page');
    assert MidwayIx(p, p, pages', lv', page', c', ix');
  }

  /** The keys of branch nodes are right without the item. */
  lemma RemovedKeys(pages: Pages, root: Id, lv: seq<seq<int>>, mc: Stack, p: nat, keys: Keys, key: int -> int)
    requires Tree(pages, root, lv) && RightKeys(pages, lv, keys, key) && At(pages, lv, mc, p) && |mc.pg| == |mc.ki| > 0
             && Inside(pages, mc)
    ensures var L := |lv| - 2;
            && L >= 0 && |mc.pg| == L + 1 && p < |lv[L + 1]| && mc.ki[L] < |Nodes(pages, mc.pg[L])|
            && RightKeys(pages[mc.pg[L] := Without(Nodes(pages, mc.pg[L]), mc.ki[L])],
                         lv[L + 1 := Without(lv[L + 1], p)], keys, key)
  {
    hide Joined, Nodes, Distinct, Rows, Traces, RightKeys;
    AtItem(pages, root, lv, mc, p);
    var ix :| AtIx(pages, lv, mc, p, ix);
    TraceLink(pages, lv, mc, ix, |lv| - 2);
    KeysWithout(pages, root, lv, ix[|lv| - 2], mc.ki[|lv| - 2], keys, key);
  }

  lemma FollowedShapes(db: Database, me: nat, cs0: seq<Stack>, places: seq<nat>, p: nat)
    requires |cs0| == |places| == |db.cursors| && |db.lv| > 0
    requires forall i :: 0 <= i < |cs0| ==> Followed(cs0[i], places[i], p, i == me, db.pages, db.lv, db.cursors[i])
    ensures db.WellFormed()
  {
    hide At;
  }

  /** The nodes of the leaf the stack is on, without that of its index. */
  ghost function Remaining(pages: Pages, c: Stack, depth: nat): seq<int>
    requires 0 < depth <= |c.pg| && depth <= |c.ki|
  {
    var nodes, k := Nodes(pages, c.pg[depth - 1]), c.ki[depth - 1];
    if k < |nodes| then Without(nodes, k) else nodes
  }

  /** A leaf that still has enough stays where it is; otherwise a neighbour helps it out. */
  ghost predicate Trimmed(sizes: Sizes, keys: Keys, pages0: Pages, lv0: seq<seq<int>>, c0: Stack, depth0: nat,
                          pages: Pages, lv: seq<seq<int>>, depth: nat) {
    && |c0.pg| == |c0.ki| == depth0 > 0 && |lv0| == depth0 + 1
    && var rest := Remaining(pages0, c0, depth0);
    if Filled(sizes, keys, true, rest) then
      |lv| == |lv0| && forall l :: 0 <= l < |lv| - 1 ==> lv[l] == lv0[l]
    else depth > 0 && depth0 > 1 ==>
           |lv| > 0 && Relieved(lv0[depth0 := lv[|lv| - 1]], depth0 - 1, |rest|, pages, lv)
  }

  lemma TrimmedSo(sizes: Sizes, keys: Keys, pages0: Pages, lv0: seq<seq<int>>, c0: Stack, depth0: nat, pages1: Pages,
                  lv1: seq<seq<int>>, pages: Pages, lv: seq<seq<int>>, depth: nat)
    requires |c0.pg| == |c0.ki| == depth0 > 0 && |lv0| == depth0 + 1
    requires |lv1| == |lv0| && forall l :: 0 <= l < depth0 ==> lv1[l] == lv0[l]
    requires Nodes(pages1, c0.pg[depth0 - 1]) == Remaining(pages0, c0, depth0)
    requires var nodes := Nodes(pages1, c0.pg[depth0 - 1]);
             if Filled(sizes, keys, true, nodes) then lv == lv1
             else depth0 > 1 && depth > 0 ==> Relieved(lv1, depth0 - 1, |nodes|, pages, lv)
    ensures Trimmed(sizes, keys, pages0, lv0, c0, depth0, pages, lv, depth)
  {
    hide Nodes, Filled, Remaining;
    if !Filled(sizes, keys, true, Remaining(pages0, c0, depth0)) && depth0 > 1 && depth > 0 {
      assert lv[|lv| - 1..][0] == lv1[depth0..][0];
      assert lv0[depth0 := lv[|lv| - 1]] == lv1;
    }
  }

  lemma MakeRefilling(db: Database, me: nat, mc: Stack, top: nat, ix: seq<nat>)
    requires db.depth == |mc.pg| == |mc.ki| > top && mc.init && me < |db.cursors|
    requires db.Ok({mc.pg[top]}) && db.Spare() && db.Sized() && db.InOrder() && db.Writable(mc, top + 1)
    requires Stands(db.pages, db.lv, mc.pg[db.depth - 1], mc, ix) && db.AllStand(me, mc.pg[db.depth - 1])
    ensures Refilling(db, me, mc, top, ix)
  {
  }

  lemma RemainingIs(pages: Pages, c: Stack, depth: nat)
    requires 0 < depth == |c.pg| == |c.ki| && c.ki[depth - 1] < |Nodes(pages, c.pg[depth - 1])|
    ensures var mp := c.pg[depth - 1];
            Nodes(pages[mp := Without(Nodes(pages, mp), c.ki[depth - 1])], mp) == Remaining(pages, c, depth)
  {
  }

  /** The item goes from its leaf, and the other cursors are adjusted. */
  method ShrinkLeaf(db: Database, me: nat, ghost places: seq<nat>) returns (ghost ix1: seq<nat>)
    requires db.Ok({}) && db.Spare() && db.Sized() && db.InOrder() && me < |db.cursors| && db.cursors[me].init
             && Placed(db.pages, db.lv, db.cursors, places)
    requires |db.cursors[me].pg| > 0 && Inside(db.pages, db.cursors[me])
    requires db.Writable(db.cursors[me], db.depth)
    modifies db`pages, db`lv, db`cursors
    ensures |db.cursors| == |old(db.cursors)| == |places| && db.cursors[me] == old(db.cursors)[me]
    ensures |db.cursors[me].pg| == |db.cursors[me].ki| == db.depth > 0 && |old(db.lv)| == db.depth + 1
    ensures Nodes(db.pages, db.cursors[me].pg[db.depth - 1]) == Remaining(old(db.pages), db.cursors[me], db.depth)
    ensures places[me] < |old(db.lv)[db.depth]|
            && db.lv == old(db.lv)[db.depth := Without(old(db.lv)[db.depth], places[me])]
    ensures Refilling(db, me, db.cursors[me], db.depth - 1, ix1) && |ix1| > 0 && ix1[|ix1| - 1] == places[me]
    ensures forall i :: 0 <= i < |places| && i != me ==>
              Midway(old(db.cursors)[i], places[i], places[me], false, db.pages, db.lv,
                     db.cursors[me].pg[db.depth - 1], db.cursors[i])
  {
    hide Joined, Nodes, Distinct, Rows, Traces, MinKeys, Stands, StandsSame, Kept, Shrunk, Midway, At, Inside, Unused,
         Database.Sized, TracesTo, RightKeys, Refilling, Apart;
    var mc := db.cursors[me];
    ghost var p, cs0 := places[me], db.cursors;
    ix1 := Removed(db.pages, db.root, db.lv, mc, p);
    var top := db.depth - 1;
    var ki, mp := mc.ki[top], mc.pg[top];
    RemainingIs(db.pages, mc, db.depth);
    RemovedKeys(db.pages, db.root, db.lv, mc, p, db.keys, db.key);
    ApartEdit(db.base, db.first, db.pages, db.loose, db.next, db.dirty, mp, Without(Nodes(db.pages, mp), ki));
    db.pages := db.pages[mp := Without(Nodes(db.pages, mp), ki)];
    UnusedLast(db.lv, Without(db.lv[db.depth], p), db.loose, db.next);
    db.lv := db.lv[db.depth := Without(db.lv[db.depth], p)];
    ShrinkOthers(db, me, top, mp, ki);
    MidwayAllStand(db, me, cs0, places, p, mp);
    StandsTraces(db.pages, db.lv, mp, mc, ix1);
    MakeRefilling(db, me, mc, top, ix1);
  }

  /** Every cursor after the page was refilled. */
  lemma AllMidway(me: nat, cs0: seq<Stack>, places: seq<nat>, pages1: Pages, lv1: seq<seq<int>>, ix1: seq<nat>, mp: Id,
                  cs1: seq<Stack>, pages: Pages, lv: seq<seq<int>>, page: Id, cs: seq<Stack>)
    requires me < |cs0| == |places| == |cs1| == |cs|
    requires forall i :: 0 <= i < |cs0| && i != me ==>
               Midway(cs0[i], places[i], places[me], false, pages1, lv1, mp, cs1[i])
               && Kept(pages1, lv1, mp, cs1[i], pages, lv, page, cs[i])
    requires |cs0[me].pg| == |cs0[me].ki| > 0 && cs0[me].pg[|cs0[me].pg| - 1] == mp && cs0[me].init && cs[me].init
    requires |ix1| > 0 && ix1[|ix1| - 1] == places[me] && (cs[me].eof ==> cs0[me].eof)
    requires StandsSame(pages1, cs0[me], ix1, mp, pages, lv, page, cs[me])
    ensures forall i :: 0 <= i < |cs0| ==> Midway(cs0[i], places[i], places[me], i == me, pages, lv, page, cs[i])
  {
    hide Midway, Kept, StandsSame;
    forall i | 0 <= i < |cs0| ensures Midway(cs0[i], places[i], places[me], i == me, pages, lv, page, cs[i]) {
      if i == me {
        MidwayMe(cs0[me], places[me], pages1, ix1, mp, pages, lv, page, cs[me]);
      } else {
        KeptMidway(cs0[i], places[i], places[me], pages1, lv1, mp, cs1[i], pages, lv, page, cs[i]);
      }
    }
  }

  /** mdb_cursor_del0: deletes the item the acting cursor is on.  places are
      the items all open cursors are on. */
  method Del0(db: Database, me: nat, ghost places: seq<nat>)
    requires db.Ok({}) && db.Spare() && db.Sized() && db.InOrder() && me < |db.cursors| && db.cursors[me].init
             && Placed(db.pages, db.lv, db.cursors, places)
    requires |db.cursors[me].pg| > 0 && Inside(db.pages, db.cursors[me])
    requires db.Writable(db.cursors[me], db.depth)
    modifies db
    ensures db.Intact() && CleanKept(old(db.pages), old(db.dirty), old(db.next), db.pages, db.dirty)
    ensures |db.cursors| == |old(db.cursors)| && db.Spare()
    ensures places[me] < |old(db.Items())|
    ensures Trimmed(db.sizes, old(db.keys), old(db.pages), old(db.lv), old(db.cursors)[me], old(db.depth), db.pages,
                    db.lv, db.depth)
    ensures db.depth == 0 ==>
      |old(db.Items())| == 1 && db.WellFormed() && forall i :: 0 <= i < |db.cursors| ==> !db.cursors[i].init
    ensures db.depth > 0 ==>
      && db.Ok({}) && db.InOrder() && db.Items() == Without(old(db.Items()), places[me])
      && forall i :: 0 <= i < |db.cursors| ==>
           Followed(old(db.cursors)[i], places[i], places[me], false, db.pages, db.lv, db.cursors[i])
  {
    hide Joined, Nodes, Distinct, Rows, Traces, MinKeys, Stands, StandsSame, Followed, Kept, Shrunk, Midway, At, Inside,
         Unused, Database.Sized, TracesTo, RightKeys, Relieved, Trimmed, Refilling, Apart, RowsFrom, Filled, CleanKept,
         Remaining;
    ghost var pages0, lv0, depth0 := db.pages, db.lv, db.depth;
    ghost var loose0, next0, dirty0 := db.loose, db.next, db.dirty;
    ghost var p, cs0 := places[me], db.cursors;
    ghost var ix1 := ShrinkLeaf(db, me, places);
    var mc := db.cursors[me];
    ghost var mp := mc.pg[db.depth - 1];
    ghost var pages1, lv1, cs1, keys1 := db.pages, db.lv, db.cursors, db.keys;
    mc := Rebalance(db, me, mc, db.depth - 1, ix1);
    TrimmedSo(db.sizes, keys1, pages0, lv0, cs0[me], depth0, pages1, lv1, db.pages, db.lv, db.depth);
    ApartKeeps(db.base, db.first, pages0, loose0, next0, dirty0, db.pages, db.loose, db.next, db.dirty);
    db.cursors := db.cursors[me := mc];
    if db.depth == 0 {
      return;
    }
    ghost var page := mc.pg[db.depth - 1];
    AllMidway(me, cs0, places, pages1, lv1, ix1, mp, cs1, db.pages, db.lv, page, db.cursors);
    SettleAll(db, me, mc.pg[db.depth - 1], cs0, places, p);
    MarkMine(cs0[me], p, db.pages, db.lv, db.cursors[me]);
    FollowedShapes(db, me, cs0, places, p);
    db.cursors := db.cursors[me := db.cursors[me].(del := true)];
  }
}
