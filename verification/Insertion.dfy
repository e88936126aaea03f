/**
 A new item in a leaf that has room for it.

 The acting cursor has been led to the leaf and to the index at which the item
 is to come, or on which there is one with its key, as `Slot` says.  The other
 cursors of the leaf at this index or after it are moved on by one, unless an item
 was replaced.

 `After` says where the item that was number q is then, and `Carried` that every
 other cursor is there.  The lemmas about `TearPage` at the level of leaves serve
 the page split.
 */
module Insertion {
  import opened Sequences
  import opened Levels
  import opened Separators
  import opened KeyedMoves
  import opened KeyedItems
  import opened Tracking
  import opened Positions

  /** Where item q is when a new item has come in at p. */
  function Bump(q: nat, p: nat): nat { if q >= p then q + 1 else q }

  /** The leaf of row L that holds item p at index k, or would hold it. */
  ghost predicate Slot(pages: Pages, lv: seq<seq<int>>, c: Stack, p: nat, ix: seq<nat>) {
    && |c.pg| == |c.ki| == |lv| - 1 >= 1 && |ix| == |lv| && ix[|lv| - 1] == p
    && Traces(pages, lv, c, ix) && c.ki[|lv| - 2] <= |Nodes(pages, c.pg[|lv| - 2])|
  }

  lemma GrownAt(pages: Pages, root: Id, lv: seq<seq<int>>, mc: Stack, p: nat, mix: seq<nat>, x: int, c: Stack, q: nat)
    requires Tree(pages, root, lv) && Slot(pages, lv, mc, p, mix) && At(pages, lv, c, q)
    ensures var L := |lv| - 2;
            var mp, k := mc.pg[L], mc.ki[L];
            && |c.pg| == |c.ki| && p <= |lv[L + 1]|
            && At(pages[mp := Inserted(Nodes(pages, mp), k, x)], lv[L + 1 := Inserted(lv[L + 1], p, x)],
                  Grown(c, L, mp, k), Bump(q, p))
  {
    hide Joined, Nodes, Distinct, Rows, Traces;
    var L := |lv| - 2;
    var mp, k := mc.pg[L], mc.ki[L];
    TraceLink(pages, lv, mc, mix, L);
    var ix :| AtIx(pages, lv, c, q, ix);
    TraceLink(pages, lv, c, ix, L);
    GrownKeeps(pages, root, lv, mix[L], k, x, c, ix);
    var pages', lv' := pages[mp := Inserted(Nodes(pages, mp), k, x)], lv[L + 1 := Inserted(lv[L + 1], p, x)];
    assert AtIx(pages', lv', Grown(c, L, mp, k), Bump(q, p), ix[L + 1 := Bump(q, p)]);
  }

  /** The acting cursor stays in the slot, which holds the new item. */
  lemma GrownSlot(pages: Pages, root: Id, lv: seq<seq<int>>, mc: Stack, p: nat, mix: seq<nat>, x: int)
    requires Tree(pages, root, lv) && Slot(pages, lv, mc, p, mix)
    ensures var L := |lv| - 2;
            var mp, k := mc.pg[L], mc.ki[L];
            && p <= |lv[L + 1]|
            && var pages', lv' := pages[mp := Inserted(Nodes(pages, mp), k, x)], lv[L + 1 := Inserted(lv[L + 1], p, x)];
            && Tree(pages', root, lv') && Slot(pages', lv', mc, p, mix) && Inside(pages', mc)
  {
    hide Joined, Nodes, Distinct, Rows, Traces;
    var L := |lv| - 2;
    var mp, k := mc.pg[L], mc.ki[L];
    TraceLink(pages, lv, mc, mix, L);
    var N := Nodes(pages, mp);
    var j := mix[L];
    LeafEdit(pages, root, lv, j, Inserted(N, k, x));
    var pages', lv' := pages[mp := Inserted(N, k, x)], lv[L + 1 := Inserted(lv[L + 1], p, x)];
    GrowSlice(lv[L + 1], Start(pages, lv[L], j), N, k, x);
    NewNodes(pages, mp, Inserted(N, k, x));
    JoinedEdit(pages, pages', lv[L], j);
    TraceLeaf(pages, pages', lv, lv', mc, mix, k, p);
    assert mc.ki[L := k] == mc.ki && mix[L + 1 := p] == mix;
  }

  /** The item at p is another one, and every cursor stays. */
  lemma ReplacedSlot(pages: Pages, root: Id, lv: seq<seq<int>>, mc: Stack, p: nat, mix: seq<nat>, x: int)
    requires Tree(pages, root, lv) && Slot(pages, lv, mc, p, mix) && mc.ki[|lv| - 2] < |Nodes(pages, mc.pg[|lv| - 2])|
    ensures var L := |lv| - 2;
            var mp, k := mc.pg[L], mc.ki[L];
            && p < |lv[L + 1]|
            && var pages', lv' := pages[mp := Nodes(pages, mp)[k := x]], lv[L + 1 := lv[L + 1][p := x]];
            && Tree(pages', root, lv') && Slot(pages', lv', mc, p, mix)
            && forall c, q :: At(pages, lv, c, q) ==> At(pages', lv', c, q)
  {
    hide Joined, Nodes, Distinct, Rows, Traces, At;
    var L := |lv| - 2;
    var mp, k := mc.pg[L], mc.ki[L];
    TraceLink(pages, lv, mc, mix, L);
    var N := Nodes(pages, mp);
    var j := mix[L];
    var b := Start(pages, lv[L], j);
    LeafEdit(pages, root, lv, j, N[k := x]);
    var pages', lv' := pages[mp := N[k := x]], lv[L + 1 := lv[L + 1][p := x]];
    SetSlice(lv[L + 1], b, N, k, x);
    NewNodes(pages, mp, N[k := x]);
    JoinedEdit(pages, pages', lv[L], j);
    TraceLeaf(pages, pages', lv, lv', mc, mix, k, p);
    assert mc.ki[L := k] == mc.ki && mix[L + 1 := p] == mix;
    forall c, q | At(pages, lv, c, q) ensures At(pages', lv', c, q) {
      ReplacedAt(pages, pages', lv, lv', mp, c, q);
    }
  }

  lemma SetSlice(s: seq<int>, b: nat, N: seq<int>, k: nat, x: int)
    requires b + |N| <= |s| && s[b..b + |N|] == N && k < |N|
    ensures s[..b] + N[k := x] + s[b + |N|..] == s[b + k := x]
  {
    assert forall i :: 0 <= i < |N| ==> s[b + i] == N[i];
  }

  lemma ReplacedAt(pages: Pages, pages': Pages, lv: seq<seq<int>>, lv': seq<seq<int>>, mp: Id, c: Stack, q: nat)
    requires At(pages, lv, c, q) && |lv'| == |lv| >= 2 && |lv'[|lv| - 1]| == |lv[|lv| - 1]|
    requires forall l :: 0 <= l < |lv| - 1 ==> lv'[l] == lv[l]
    requires forall l :: 0 <= l < |lv| - 2 ==> SameOn(pages, pages', lv[l])
    requires var row := lv[|lv| - 2]; forall i :: 0 <= i <= |row| ==> Start(pages', row, i) == Start(pages, row, i)
    requires forall id :: |Nodes(pages', id)| == |Nodes(pages, id)|
    ensures At(pages', lv', c, q)
  {
    hide Joined, Nodes, Traces, SameOn;
    var L := |lv| - 2;
    var ix :| AtIx(pages, lv, c, q, ix);
    TraceLink(pages, lv, c, ix, L);
    TraceLeaf(pages, pages', lv, lv', c, ix, c.ki[L], q);
    assert c.ki[L := c.ki[L]] == c.ki && ix[L + 1 := q] == ix;
    assert AtIx(pages', lv', c, q, ix);
  }

  /** A cursor before and after its leaf, or a neighbour of it, is torn. */
  lemma TornAt(pages: Pages, root: Id, lv: seq<seq<int>>, t: nat, kp: nat, j: nat, rp: Id, s: nat,
               mn: Stack, mc: Stack, mix: seq<nat>, mcki: nat, c: Stack, q: nat)
    requires |lv| >= 3 && Tree(pages, root, lv) && Child(pages, lv, |lv| - 2, t, kp, j) && Fresh(lv, rp)
    requires s <= |Nodes(pages, lv[|lv| - 2][j])| && kp <= mcki <= kp + 1
    requires Traces(pages, lv, mc, mix) && |mix| == |lv| && |mc.pg| == |lv| - 1 && mix[|lv| - 3] == t
             && mc.pg[|lv| - 3] == lv[|lv| - 3][t]
    requires LedRight(mn, mc, |lv| - 2, kp) && At(pages, lv, c, q)
    ensures var L := |lv| - 2;
            && |c.pg| == |c.ki|
            && At(TearPage(pages, lv[L][j], rp, s, lv[L - 1][t], kp), lv[L := Inserted(lv[L], j + 1, rp)],
                  Torn(c, L, lv[L][j], rp, s, mn, lv[L - 1][t], mcki), q)
  {
    hide Joined, Nodes, Distinct, Rows, Traces;
    var L := |lv| - 2;
    var ix :| AtIx(pages, lv, c, q, ix);
    TraceLink(pages, lv, c, ix, L);
    Places(lv, L, ix[L], L, j);
    var mp, P := lv[L][j], lv[L - 1][t];
    var pages', lv' := TearPage(pages, mp, rp, s, P, kp), lv[L := Inserted(lv[L], j + 1, rp)];
    var c' := Torn(c, L, mp, rp, s, mn, P, mcki);
    if c.pg[L] == mp && c.ki[L] >= s {
      TornMoves(pages, root, lv, L, t, kp, j, rp, s, mn, mc, mix, c, ix, mcki);
      assert AtIx(pages', lv', c', q, mix[..L] + [j + 1] + ix[L + 1..]);
    } else {
      TornStays(pages, root, lv, L, t, kp, j, rp, s, mn, c, ix, mcki);
      var ix' := ix[L := if ix[L] > j then ix[L] + 1 else ix[L]];
      if c.pg[L] == mp {
        TornInside(pages, lv, j, rp, s, t, kp, mn, c, mcki);
      }
      assert AtIx(pages', lv', c', q, ix');
    }
  }

  lemma TornInside(pages: Pages, lv: seq<seq<int>>, j: nat, rp: Id, s: nat, t: nat, kp: nat, mn: Stack, c: Stack,
                   mcki: nat)
    requires |lv| >= 3 && Child(pages, lv, |lv| - 2, t, kp, j) && Distinct(lv) && Fresh(lv, rp)
             && s <= |Nodes(pages, lv[|lv| - 2][j])|
    requires |c.pg| == |c.ki| == |lv| - 1 && |mn.pg| == |mn.ki| >= |lv| - 2
    requires c.pg[|lv| - 2] == lv[|lv| - 2][j] && c.ki[|lv| - 2] < s
    ensures var L := |lv| - 2;
            Inside(TearPage(pages, lv[L][j], rp, s, lv[L - 1][t], kp),
                   Torn(c, L, lv[L][j], rp, s, mn, lv[L - 1][t], mcki))
  {
    hide Joined, Nodes, Distinct, TearPage;
    Places(lv, |lv| - 2, j, |lv| - 3, t);
    TornNodes(pages, lv[|lv| - 2][j], rp, s, lv[|lv| - 3][t], kp);
  }

  // --------------------------------------------------------- room in the page

  /** Places of the cursors after the put; a replacing put moves none. */
  ghost function After(q: nat, p: nat, replace: bool): nat { if replace then q else Bump(q, p) }

  /** What a put does to the other cursors. */
  ghost predicate Carried(cs0: seq<Stack>, places: seq<nat>, p: nat, replace: bool, me: nat, pages: Pages,
                          lv: seq<seq<int>>, cs: seq<Stack>) {
    && |cs| == |cs0| == |places|
    && forall i :: 0 <= i < |cs| && i != me ==>
         && |cs[i].pg| == |cs[i].ki| && cs[i].init == cs0[i].init && cs[i].eof == cs0[i].eof && cs[i].del == cs0[i].del
         && (cs[i].init ==> At(pages, lv, cs[i], After(places[i], p, replace)))
  }

  /** Leaf and item row once the new item is in the page of the acting cursor. */
  lemma Filled(pages: Pages, root: Id, lv: seq<seq<int>>, mc: Stack, p: nat, mix: seq<nat>, x: int, replace: bool,
               least: nat, except: set<Id>)
    requires Tree(pages, root, lv) && MinTo(pages, lv, least, except) && Slot(pages, lv, mc, p, mix)
    requires replace ==> mc.ki[|lv| - 2] < |Nodes(pages, mc.pg[|lv| - 2])|
    ensures var L := |lv| - 2;
            var N, k := Nodes(pages, mc.pg[L]), mc.ki[L];
            && (if replace then p < |lv[L + 1]| else p <= |lv[L + 1]|)
            && var pages', lv' := pages[mc.pg[L] := PutInto(N, k, x, replace)],
               lv[L + 1 := PutInto(lv[L + 1], p, x, replace)];
            && Tree(pages', root, lv') && MinTo(pages', lv', least, except) && Slot(pages', lv', mc, p, mix)
            && Inside(pages', mc)
            && forall c, q :: At(pages, lv, c, q) ==>
                 && |c.pg| == |c.ki|
                 && At(pages', lv', if replace then c else Grown(c, L, mc.pg[L], k), After(q, p, replace))
  {
    hide Joined, Nodes, Distinct, Rows, Traces, MinTo, At, Grown;
    var L := |lv| - 2;
    var mp, k := mc.pg[L], mc.ki[L];
    if replace {
      ReplacedSlot(pages, root, lv, mc, p, mix, x);
      NewNodes(pages, mp, Nodes(pages, mp)[k := x]);
      forall c, q | At(pages, lv, c, q) ensures |c.pg| == |c.ki| {
        AtItem(pages, root, lv, c, q);
      }
    } else {
      GrownSlot(pages, root, lv, mc, p, mix, x);
      forall c, q | At(pages, lv, c, q)
        ensures |c.pg| == |c.ki| && At(pages[mp := Inserted(Nodes(pages, mp), k, x)],
                                       lv[L + 1 := Inserted(lv[L + 1], p, x)], Grown(c, L, mp, k), Bump(q, p))
      {
        GrownAt(pages, root, lv, mc, p, mix, x, c, q);
      }
    }
    MinAfterFill(pages, lv, least, except, mp, PutInto(Nodes(pages, mp), k, x, replace),
                 PutInto(lv[L + 1], p, x, replace));
  }

  lemma RowsWithNodes(pages: Pages, lv: seq<seq<int>>)
    requires MinKeys(pages, lv, {})
    ensures NoneEmpty(pages, lv, 0)
  {
  }

  /** The keys of branch nodes once the new item is in the page of the acting cursor. */
  lemma FilledKeys(pages: Pages, root: Id, lv: seq<seq<int>>, mc: Stack, p: nat, mix: seq<nat>, x: int, replace: bool,
                   keys: Keys, key: int -> int)
    requires Tree(pages, root, lv) && MinKeys(pages, lv, {}) && Slot(pages, lv, mc, p, mix)
             && RightKeys(pages, lv, keys, key)
    requires (replace ==> Inside(pages, mc)) && MayCome(pages, lv, mix, keys, key, p, x, replace)
    ensures var L := |lv| - 2;
            && (if replace then p < |lv[L + 1]| else p <= |lv[L + 1]|)
            && RightKeys(pages[mc.pg[L] := PutInto(Nodes(pages, mc.pg[L]), mc.ki[L], x, replace)],
                         lv[L + 1 := PutInto(lv[L + 1], p, x, replace)], keys, key)
  {
    hide Joined, Nodes, Distinct, Rows, Traces, TracesTo, MinKeys, NoneEmpty, RightKeys, LeafBelongs;
    RowsWithNodes(pages, lv);
    PartTrace(pages, lv, mc, mix, |lv| - 2);
    TraceLink(pages, lv, mc, mix, |lv| - 2);
    KeysWith(pages, root, lv, mc, mix, keys, key, p, x, replace);
  }

  lemma MinAfterFill(pages: Pages, lv: seq<seq<int>>, least: nat, except: set<Id>, mp: Id, nodes: seq<int>,
                     row: seq<int>)
    requires |lv| >= 2 && MinTo(pages, lv, least, except) && |nodes| >= |Nodes(pages, mp)|
    ensures MinTo(pages[mp := nodes], lv[|lv| - 1 := row], least, except)
  {
  }

  /** The loop of mdb_cursor_put over the other cursors. */
  method GrowOthers(db: Database, me: nat, top: nat, mp: Id, ki: nat)
    requires db.WellFormed()
    modifies db`cursors
    ensures |db.cursors| == |old(db.cursors)| && (me < |db.cursors| ==> db.cursors[me] == old(db.cursors)[me])
    ensures forall i :: 0 <= i < |db.cursors| && i != me ==> db.cursors[i] == Grown(old(db.cursors)[i], top, mp, ki)
  {
    var i := 0;
    while i < |db.cursors|
      invariant 0 <= i <= |db.cursors| == |old(db.cursors)|
      invariant forall k :: i <= k < |db.cursors| ==> db.cursors[k] == old(db.cursors)[k]
      invariant forall k :: 0 <= k < i && k != me ==> db.cursors[k] == Grown(old(db.cursors)[k], top, mp, ki)
      invariant me < |db.cursors| ==> db.cursors[me] == old(db.cursors)[me]
    {
      if i != me {
        db.cursors := db.cursors[i := Grown(db.cursors[i], top, mp, ki)];
      }
      i := i + 1;
    }
  }

  lemma GrownShape(c: Stack, top: nat, mp: Id, ki: nat)
    requires |c.pg| == |c.ki|
    ensures var c' := Grown(c, top, mp, ki);
            |c'.pg| == |c'.ki| && c'.init == c.init && c'.eof == c.eof && c'.del == c.del
  {
  }

  /** What the loop has done to the other cursors. */
  lemma AllCarried(pages: Pages, lv: seq<seq<int>>, cs0: seq<Stack>, places: seq<nat>, p: nat, replace: bool, me: nat,
                   top: nat, mp: Id, ki: nat, pages': Pages, lv': seq<seq<int>>, cs: seq<Stack>)
    requires me < |cs0| == |cs| && Placed(pages, lv, cs0[me := cs0[me].(init := false)], places)
    requires forall i :: 0 <= i < |cs| && i != me ==> |cs0[i].pg| == |cs0[i].ki| && cs[i] == if replace then cs0[i]
             else Grown(cs0[i], top, mp, ki)
    requires forall c, q :: At(pages, lv, c, q) ==>
               |c.pg| == |c.ki| && At(pages', lv', if replace then c else Grown(c, top, mp, ki), After(q, p, replace))
    ensures Carried(cs0, places, p, replace, me, pages', lv', cs)
    ensures forall i :: 0 <= i < |cs| && i != me ==> |cs[i].pg| == |cs[i].ki|
  {
    hide Nodes, Grown, At;
    forall i | 0 <= i < |cs| && i != me
      ensures |cs[i].pg| == |cs[i].ki| && cs[i].init == cs0[i].init && cs[i].eof == cs0[i].eof
              && cs[i].del == cs0[i].del
      ensures cs[i].init ==> At(pages', lv', cs[i], After(places[i], p, replace))
    {
      GrownShape(cs0[i], top, mp, ki);
      assert cs0[me := cs0[me].(init := false)][i] == cs0[i];
    }
  }

  lemma SlotShape(pages: Pages, lv: seq<seq<int>>, c: Stack, p: nat, ix: seq<nat>)
    requires Slot(pages, lv, c, p, ix)
    ensures |c.pg| == |c.ki| == |lv| - 1 >= 1 && c.ki[|lv| - 2] <= |Nodes(pages, c.pg[|lv| - 2])|
            && (Inside(pages, c) ==> At(pages, lv, c, p))
  {
    hide Nodes, Traces;
    if Inside(pages, c) {
      assert AtIx(pages, lv, c, p, ix);
    }
  }

  /** The nodes of the leaf the stack is on, without the one that is to be replaced. */
  ghost function Rest(pages: Pages, c: Stack, depth: nat, replace: bool): seq<int>
    requires 0 < depth <= |c.pg| && depth <= |c.ki|
  {
    var nodes, k := Nodes(pages, c.pg[depth - 1]), c.ki[depth - 1];
    if replace && k < |nodes| then Without(nodes, k) else nodes
  }

  /** mdb_cursor_put when the node fits into its page; a replacing put has
      deleted the old node first. */
  method AddNode(db: Database, me: nat, x: int, replace: bool, ghost places: seq<nat>, ghost mix: seq<nat>)
    requires me < |db.cursors| && 0 < db.depth == |db.cursors[me].pg| == |db.cursors[me].ki|
    requires db.sizes.leafRoom(Rest(db.pages, db.cursors[me], db.depth, replace), x)
             && db.Writable(db.cursors[me], db.depth)
    requires db.Ok({}) && me < |db.cursors| == |places|
             && Placed(db.pages, db.lv, db.cursors[me := db.cursors[me].(init := false)], places)
    requires Slot(db.pages, db.lv, db.cursors[me], places[me], mix)
    requires (replace ==> Inside(db.pages, db.cursors[me])) && db.Spare()
    requires db.InOrder() && MayCome(db.pages, db.lv, mix, db.keys, db.key, places[me], x, replace)
    modifies db`pages, db`lv, db`cursors
    ensures db.Spare() && db.InOrder() && db.Intact()
    ensures |db.lv| == |old(db.lv)| == db.depth + 1 && forall l :: 0 <= l < db.depth ==> db.lv[l] == old(db.lv)[l]
    ensures (if replace then places[me] < |old(db.Items())| else places[me] <= |old(db.Items())|)
    ensures db.Ok({}) && db.Items() == PutInto(old(db.Items()), places[me], x, replace)
    ensures Carried(old(db.cursors), places, places[me], replace, me, db.pages, db.lv, db.cursors)
    ensures db.cursors[me] == old(db.cursors)[me] && At(db.pages, db.lv, db.cursors[me], places[me])
  {
    hide Joined, Nodes, Distinct, Rows, Traces, MinTo, Grown, Unused, RightKeys, MayCome, Placed, Carried, At, Slot;
    var mc := db.cursors[me];
    SlotShape(db.pages, db.lv, mc, places[me], mix);
    ghost var p, cs0 := places[me], db.cursors;
    Filled(db.pages, db.root, db.lv, mc, p, mix, x, replace, 1, {});
    FilledKeys(db.pages, db.root, db.lv, mc, p, mix, x, replace, db.keys, db.key);
    ghost var pages0, lv0 := db.pages, db.lv;
    var top := db.depth - 1;
    var mp, ki := mc.pg[top], mc.ki[top];
    var nodes := Nodes(db.pages, mp);
    if replace {
      nodes := Without(nodes, ki);
    }
    nodes := Inserted(nodes, ki, x);
    assert replace ==> nodes == Nodes(db.pages, mp)[ki := x];
    ApartEdit(db.base, db.first, db.pages, db.loose, db.next, db.dirty, mp, nodes);
    db.pages := db.pages[mp := nodes];
    UnusedLast(db.lv, PutInto(db.lv[db.depth], p, x, replace), db.loose, db.next);
    db.lv := db.lv[db.depth := PutInto(db.lv[db.depth], p, x, replace)];
    if !replace {
      GrowOthers(db, me, top, mp, ki);
    }
    AllCarried(pages0, lv0, cs0, places, p, replace, me, top, mp, ki, db.pages, db.lv, db.cursors);
    SlotShape(db.pages, db.lv, mc, p, mix);
  }
}
