/**
 mdb_page_split: its contract, and the two ways that split no other page.

 `CanSplit` is what a split relies on, and `HasSplit` what it leaves: rows,
 pages, and every cursor.  The same goes for the keys of branch nodes with
 `CanKey` and `KeysDone`.  Marks are the places in the sequence of items that
 the keys have to part: they stay as they are while pages are split.

 `Before` and `KeysReady` are the state once the new pages are there and the
 separator has been chosen.  From it `SplitSimple` goes on when the parent has
 room, and `SplitRoot` when the page is the root.
 */
module SplitSteps {
  import opened Sequences
  import opened Levels
  import opened Separators
  import opened Tracking
  import opened Positions
  import opened Touching
  import opened Insertion
  import opened PageSplit
  import opened DealingOut
  import opened RowSplits

  ghost predicate OthersOn(pages: Pages, rows: seq<seq<int>>, me: nat, cursors: seq<Stack>, places: seq<nat>) {
    |places| == |cursors|
        && forall i :: 0 <= i < |cursors| && i != me && cursors[i].init ==> On(pages, rows, cursors[i], places[i])
  }

  /** A page of row M - 1, full, and the cursors around it. */
  ghost predicate Full(pages: Pages, root: Id, lv: seq<seq<int>>, cs: seq<Stack>, me: nat, M: nat, x: int,
                       replace: bool, places: seq<nat>, mix: seq<nat>) {
    && Tree(pages, root, lv) && MinKeys(pages, lv, {}) && me < |cs| == |places|
    && |cs[me].pg| == |cs[me].ki| == M && cs[me].init
    && Admissible(pages, lv, M, places[me], x, replace)
    && Slot(pages, lv[..M + 1], cs[me], places[me], mix) && (replace ==> Inside(pages, cs[me]))
    && (if M == |lv| - 1 then 2 else 3) + (if replace then 1 else 0) <= |Nodes(pages, cs[me].pg[M - 1])|
    && OthersOn(pages, lv[..M + 1], me, cs, places)
  }

  /** What mdb_page_split of the page of row top may rely on. */
  ghost predicate CanSplit(db: Database, me: nat, top: nat, x: int, replace: bool, places: seq<nat>, mix: seq<nat>)
    reads db
  {
    && db.Spare() && db.Sized() && db.WellFormed() && |db.lv| == db.depth + 1
    && Full(db.pages, db.root, db.lv, db.cursors, me, top + 1, x, replace, places, mix)
    && (top + 1 < db.depth && !replace ==> db.Reserved(x))
  }

  ghost predicate AllFollow(rows: seq<seq<int>>, me: nat, cs0: seq<Stack>, places: seq<nat>, p: nat, replace: bool,
                            pages': Pages, rows': seq<seq<int>>, cs: seq<Stack>) {
    && |cs| == |cs0| == |places|
    && forall i :: 0 <= i < |cs| && i != me ==> Follows(rows, cs0[i], places[i], p, replace, pages', rows', cs[i])
  }

  /** What mdb_page_split leaves; n is the number of rows down to the one that has grown. */
  ghost predicate HasSplit(pages0: Pages, lv0: seq<seq<int>>, cs0: seq<Stack>, db: Database, me: nat, top: nat, x: int,
                           replace: bool, places: seq<nat>, n: nat)
    reads db
  {
    && top + 2 <= n <= top + 3 && me < |cs0| == |places| && Admissible(pages0, lv0, top + 1, places[me], x, replace)
    && db.depth >= 1 && |db.lv| == db.depth + 1 == |lv0| + n - top - 2
    && db.lv == db.lv[..n] + lv0[top + 2..]
    && Divided(pages0, lv0, top + 1, places[me], x, replace, db.pages, db.root, db.lv[..n])
    && db.Spare() && db.WellFormed()
    && AllFollow(lv0[..top + 2], me, cs0, places, places[me], replace, db.pages, db.lv[..n], db.cursors)
    && |db.cursors[me].pg| == |db.cursors[me].ki| == n - 1
    && At(db.pages, db.lv[..n], db.cursors[me], places[me]) && Inside(db.pages, db.cursors[me])
    && db.cursors[me].init == cs0[me].init && db.cursors[me].eof == cs0[me].eof && db.cursors[me].del == cs0[me].del
  }

  /** Where the pages of the row of the split page begin, where those of the row
      below do, where the new one does, and the keys of all items. */
  datatype Marks = Marks(up: seq<nat>, cuts: seq<nat>, cx: nat, ks: seq<int>)

  /** The keys are right down to the page that is split.  On a branch the new
      node is not the first and has a right key; on a leaf the places of the
      pages are those they have once the new item is there. */
  ghost predicate Keyable(pages: Pages, lv: seq<seq<int>>, keys: Keys, key: int -> int, k: nat, top: nat, x: int,
                          replace: bool, p: nat, mix: seq<nat>, m: Marks) {
    && top + 1 < |lv| && |mix| == top + 2 && mix[top] < |lv[top]|
    && (if replace then p < |lv[top + 1]| else p <= |lv[top + 1]|)
    && |m.up| == |lv[top]| && KeyedTo(pages, lv, top, m.up, keys, m.ks)
    && if top + 2 < |lv| then
         && |m.cuts| == |lv[top + 1]| && RowKeyed(pages, lv[top], m.cuts, keys, m.ks)
         && m.up == CutsUp(pages, lv[top], m.cuts)
         && Parts(m.ks, m.cx, KeyOf(keys, x)) && k >= 1 && (replace ==> Cut(m.cuts, p) == m.cx)
       else
         && Sorted(m.ks) && KeysAre(key, PutInto(lv[top + 1], p, x, replace), m.ks)
         && forall i :: 0 <= i < |m.up| ==> m.up[i] == Start(pages, lv[top], i) + if i > mix[top] && !replace then 1
         else 0
  }

  ghost predicate CanKey(db: Database, me: nat, top: nat, x: int, replace: bool, places: seq<nat>, mix: seq<nat>,
                         m: Marks)
    reads db
  {
    && me < |db.cursors| == |places| && |db.cursors[me].ki| == top + 1
    && Keyable(db.pages, db.lv, db.keys, db.key, db.cursors[me].ki[top], top, x, replace, places[me], mix, m)
  }

  /** Where the new page will begin. */
  ghost function CutOf(pages: Pages, lv: seq<seq<int>>, top: nat, p: nat, replace: bool, mix: seq<nat>, m: Marks,
                       s: nat): nat
    requires top + 1 < |lv| && top < |mix| && mix[top] < |lv[top]|
  {
    if top + 2 < |lv| && (if replace then p < |m.cuts| else p <= |m.cuts|) then
                            Cut(PutInto(m.cuts, p, m.cx, replace), Start(pages, lv[top], mix[top]) + s)
    else Start(pages, lv[top], mix[top]) + s
  }

  ghost predicate KeysAre(key: int -> int, items: seq<int>, ks: seq<int>) {
    |ks| == |items| && forall i :: 0 <= i < |items| ==> ks[i] == key(items[i])
  }

  /** The keys are right after the split. */
  ghost predicate KeysDone(lv0: seq<seq<int>>, db: Database, top: nat, p: nat, replace: bool, m: Marks, n: nat)
    reads db
  {
    && top + 1 < |lv0| && top + 2 <= n <= |db.lv|
    && if top + 2 < |lv0| then
         && (if replace then p < |m.cuts| else p <= |m.cuts|)
         && KeyedTo(db.pages, db.lv, n - 1, PutInto(m.cuts, p, m.cx, replace), db.keys, m.ks)
       else KeyedTo(db.pages, db.lv, n - 2, Starts(db.pages, db.lv[n - 2]), db.keys, m.ks)
  }

  /** Pages below row top keep their keys. */
  ghost predicate KeysKept(lv: seq<seq<int>>, top: nat, keys: Keys, keys': Keys) {
    forall l :: top + 1 <= l < |lv| - 1 ==> SameKeys(keys, keys', lv[l])
  }

  /** The loop of mdb_page_split over the other cursors. */
  method SplitOthers(db: Database, me: nat, top: nat, mp: Id, rp: Id, newindx: nat, replace: bool, nkeys: nat,
                     mn: Stack, did: bool, parent: Id, mcki: nat)
    requires db.WellFormed() && |mn.pg| == |mn.ki| >= top > 0
    modifies db`cursors
    ensures |db.cursors| == |old(db.cursors)| && (me < |db.cursors| ==> db.cursors[me] == old(db.cursors)[me])
    ensures forall i :: 0 <= i < |db.cursors| && i != me ==>
      db.cursors[i] == SplitFix(old(db.cursors)[i], top, mp, rp, newindx, replace, nkeys, mn, did, parent, mcki)
  {
    var i := 0;
    while i < |db.cursors|
      invariant 0 <= i <= |db.cursors| == |old(db.cursors)|
      invariant forall k :: i <= k < |db.cursors| ==> db.cursors[k] == old(db.cursors)[k]
      invariant forall k :: 0 <= k < i && k != me ==>
        db.cursors[k] == SplitFix(old(db.cursors)[k], top, mp, rp, newindx, replace, nkeys, mn, did, parent, mcki)
      invariant me < |db.cursors| ==> db.cursors[me] == old(db.cursors)[me]
    {
      if i != me {
        db.cursors := db.cursors[i := SplitFix(db.cursors[i], top, mp, rp, newindx, replace, nkeys, mn, did, parent,
                                               mcki)];
      }
      i := i + 1;
    }
  }

  /** The same when the root was split. */
  method RaiseOthers(db: Database, me: nat, mp: Id, rp: Id, pp: Id, newindx: nat, replace: bool, nkeys: nat, mn: Stack,
                     mcki: nat)
    requires db.WellFormed() && |mn.pg| == |mn.ki| >= 1
    modifies db`cursors
    ensures |db.cursors| == |old(db.cursors)| && (me < |db.cursors| ==> db.cursors[me] == old(db.cursors)[me])
    ensures forall i :: 0 <= i < |db.cursors| && i != me ==>
      db.cursors[i] == RootSplitFix(old(db.cursors)[i], mp, rp, pp, newindx, replace, nkeys, mn, mcki)
  {
    var i := 0;
    while i < |db.cursors|
      invariant 0 <= i <= |db.cursors| == |old(db.cursors)|
      invariant forall k :: i <= k < |db.cursors| ==> db.cursors[k] == old(db.cursors)[k]
      invariant forall k :: 0 <= k < i && k != me ==>
        db.cursors[k] == RootSplitFix(old(db.cursors)[k], mp, rp, pp, newindx, replace, nkeys, mn, mcki)
      invariant me < |db.cursors| ==> db.cursors[me] == old(db.cursors)[me]
    {
      if i != me {
        db.cursors := db.cursors[i := RootSplitFix(db.cursors[i], mp, rp, pp, newindx, replace, nkeys, mn, mcki)];
      }
      i := i + 1;
    }
  }

  /** The pages of the new rows are those of the old ones, or these. */
  ghost predicate Adds(lv: seq<seq<int>>, lv': seq<seq<int>>, ids: set<Id>) {
    forall l, i :: 0 <= l < |lv'| - 1 && 0 <= i < |lv'[l]| ==> lv'[l][i] in ids || !Fresh(lv, lv'[l][i])
  }

  lemma FreshAfter(lv: seq<seq<int>>, lv': seq<seq<int>>, ids: set<Id>, y: Id)
    requires Fresh(lv, y) && y !in ids && Adds(lv, lv', ids)
    ensures Fresh(lv', y)
  {
  }

  lemma AddsFresh(lv: seq<seq<int>>, lv': seq<seq<int>>, ids: set<Id>)
    requires Adds(lv, lv', ids)
    ensures forall y :: Fresh(lv, y) && y !in ids ==> Fresh(lv', y)
  {
    forall y | Fresh(lv, y) && y !in ids ensures Fresh(lv', y) {
      FreshAfter(lv, lv', ids, y);
    }
  }

  lemma UnusedAfter(lv: seq<seq<int>>, lv': seq<seq<int>>, ids: set<Id>, loose: seq<Id>, next: Id)
    requires Unused(lv, loose, next) && Adds(lv, lv', ids) && forall id :: id in ids ==> id < next && id !in loose
    ensures Unused(lv', loose, next)
  {
    forall l, i | 0 <= l < |lv'| - 1 && 0 <= i < |lv'[l]| ensures lv'[l][i] < next {
      if lv'[l][i] !in ids {
        var m, k :| 0 <= m < |lv| - 1 && 0 <= k < |lv[m]| && lv[m][k] == lv'[l][i];
      }
    }
    forall i | 0 <= i < |loose| ensures Fresh(lv', loose[i]) {
      FreshAfter(lv, lv', ids, loose[i]);
    }
  }

  lemma AddsRow(lv: seq<seq<int>>, L: nat, i: nat, rp: Id)
    requires L < |lv| && i <= |lv[L]|
    ensures Adds(lv, lv[L := Inserted(lv[L], i, rp)], if L == |lv| - 1 then {} else {rp})
  {
    var lv' := lv[L := Inserted(lv[L], i, rp)];
    forall l, k | 0 <= l < |lv'| - 1 && 0 <= k < |lv'[l]|
      ensures lv'[l][k] in (if L == |lv| - 1 then {} else {rp}) || !Fresh(lv, lv'[l][k])
    {
      if !(l == L && k == i) {
        assert lv'[l][k] == lv[l][if l == L && k > i then k - 1 else k];
      }
    }
  }

  lemma AddsPut(lv: seq<seq<int>>, M: nat, p: nat, x: int, replace: bool)
    requires 1 <= M < |lv| && (if replace then p < |lv[M]| else p <= |lv[M]|)
             && (M < |lv| - 1 && replace ==> lv[M][p] == x)
    ensures Adds(lv, lv[M := PutInto(lv[M], p, x, replace)], if M == |lv| - 1 || replace then {} else {x})
  {
    if replace {
      if M < |lv| - 1 {
        assert lv[M][p := x] == lv[M];
      }
    } else {
      AddsRow(lv, M, p, x);
    }
  }

  lemma AddsTwice(lv: seq<seq<int>>, lv1: seq<seq<int>>, lv2: seq<seq<int>>, a: set<Id>, b: set<Id>)
    requires Adds(lv, lv1, a) && Adds(lv1, lv2, b)
    ensures Adds(lv, lv2, a + b)
  {
    forall l, i | 0 <= l < |lv2| - 1 && 0 <= i < |lv2[l]| ensures lv2[l][i] in a + b || !Fresh(lv, lv2[l][i]) {
      if lv2[l][i] !in b {
        var m, k :| 0 <= m < |lv1| - 1 && 0 <= k < |lv1[m]| && lv1[m][k] == lv2[l][i];
      }
    }
  }

  lemma Uninit(rows: seq<seq<int>>, c: Stack, q: nat, p: nat, replace: bool, pages': Pages, rows': seq<seq<int>>,
               c': Stack)
    requires !c.init && |c'.pg| == |c'.ki| && c'.init == c.init && c'.eof == c.eof && c'.del == c.del
    ensures Follows(rows, c, q, p, replace, pages', rows', c')
  {
  }

  /** The state before a split as far as the rows and the other cursors go. */
  ghost predicate Before(pages: Pages, root: Id, lv: seq<seq<int>>, cs: seq<Stack>, loose: seq<Id>, next: Id, me: nat,
                         M: nat, x: int, replace: bool, places: seq<nat>, mix: seq<nat>, rp: Id, s: nat) {
    && me < |cs| == |places| && |cs[me].pg| == |cs[me].ki| == M >= 1 && |mix| == M + 1 && cs[me].init
    && Splittable(pages, root, lv, M, cs[me], places[me], mix, x, replace, rp, s) && MinKeys(pages, lv, {})
    && OthersOn(pages, lv[..M + 1], me, cs, places) && Unused(lv, loose, next)
    && (forall i :: 0 <= i < |cs| ==> |cs[i].pg| == |cs[i].ki|)
    && rp < next && rp !in loose && (M < |lv| - 1 && !replace ==> x < next && x !in loose)
    && (if replace then cs[me].ki[M - 1] < |Nodes(pages, cs[me].pg[M - 1])|
        else cs[me].ki[M - 1] <= |Nodes(pages, cs[me].pg[M - 1])|)
    && (if replace then places[me] < |lv[M]| else places[me] <= |lv[M]|)
  }

  /** The split that this page needs is one that can be made. */
  lemma SplitReady(db: Database, me: nat, top: nat, x: int, replace: bool, rp: Id, places: seq<nat>, mix: seq<nat>)
    requires CanSplit(db, me, top, x, replace, places, mix) && db.Reserved(rp) && Nodes(db.pages, rp) == []
             && (top + 1 < db.depth ==> rp != x)
    ensures var mc := db.cursors[me];
            && (if replace then mc.ki[top] < |Nodes(db.pages, mc.pg[top])|
                else mc.ki[top] <= |Nodes(db.pages, mc.pg[top])|)
            && var rest := if replace then Without(Nodes(db.pages, mc.pg[top]), mc.ki[top])
                           else Nodes(db.pages, mc.pg[top]);
            && Before(db.pages, db.root, db.lv, db.cursors, db.loose, db.next, me, top + 1, x, replace, places, mix, rp,
                      db.sizes.pick(db.keys, top == db.depth - 1, rest, mc.ki[top], x))
  {
    hide Joined, Nodes, Distinct, Rows, Traces, MinKeys, On;
    TraceLink(db.pages, db.lv[..top + 2], db.cursors[me], mix, top);
  }

  /** The parent had room: everything the split has to establish. */
  lemma SimpleHolds(pages0: Pages, lv0: seq<seq<int>>, cs0: seq<Stack>, me: nat, M: nat, x: int, replace: bool,
                    places: seq<nat>, mix: seq<nat>, rp: Id, s: nat, db: Database, rows: seq<seq<int>>)
    requires Before(pages0, db.root, lv0, cs0, db.loose, db.next, me, M, x, replace, places, mix, rp, s) && M >= 2
    requires mix[M - 1] < |lv0[M - 1]| && rows == SplitRows(lv0[..M + 1], M - 1, mix[M - 1], rp, places[me], x, replace)
    requires db.depth + 1 == |lv0| && db.lv == rows + lv0[M + 1..]
    requires var mc := cs0[me];
             var mp, k, P, kp := mc.pg[M - 1], mc.ki[M - 1], mc.pg[M - 2], mc.ki[M - 2];
             && kp < |Nodes(pages0, P)| && s < |PutInto(Nodes(pages0, mp), k, x, replace)|
             && db.pages == SplitPair(pages0, P, kp, rp, mp, PutInto(Nodes(pages0, mp), k, x, replace), s)
             && |db.cursors| == |cs0| && db.cursors[me] == Landed(mc, rp, s)
             && forall i :: 0 <= i < |cs0| && i != me ==>
                  db.cursors[i] == SplitFix(cs0[i], M - 1, mp, rp, k, replace, s, OnRight(mc, rp), false, P,
                                            if k < s then kp else kp + 1)
    ensures HasSplit(pages0, lv0, cs0, db, me, M - 1, x, replace, places, M + 1)
    ensures Adds(lv0, db.lv, {rp} + if M == |lv0| - 1 || replace then {} else {x})
  {
    hide Joined, Nodes, Distinct, Rows, Traces, MinKeys, SplitFix, At, PutInto, SameOn, Slot, On, Divided, Splittable,
         Unused, Adds;
    BeforeParent(pages0, db.root, lv0, cs0, db.loose, db.next, me, M, x, replace, places, mix, rp, s);
    var mc, p, L := cs0[me], places[me], M - 1;
    var mp, k, P, kp := mc.pg[L], mc.ki[L], mc.pg[L - 1], mc.ki[L - 1];
    var mn, mcki := OnRight(mc, rp), if k < s then kp else kp + 1;
    var all := PutInto(Nodes(pages0, mp), k, x, replace);
    SimpleSplit(pages0, db.root, lv0, M, mc, p, mix, x, replace, rp, s, mp, k, P, kp, all, db.pages, rows);
    SimpleFollows(pages0, db.root, lv0, M, mc, p, mix, x, replace, rp, s, mp, k, P, kp, all, db.pages, rows);
    assert db.lv[..M + 1] == rows && |rows| == M + 1;
    LandedShape(mc, rp, s);
    forall i | 0 <= i < |cs0| && i != me
      ensures Follows(lv0[..M + 1], cs0[i], places[i], p, replace, db.pages, rows, db.cursors[i])
    {
      SplitFixShape(cs0[i], L, mp, rp, k, replace, s, mn, false, P, mcki);
      if !cs0[i].init {
        Uninit(lv0[..M + 1], cs0[i], places[i], p, replace, db.pages, rows, db.cursors[i]);
      }
    }
    SplitAdds(pages0, db.root, lv0, M, mc, p, mix, x, replace, rp, s, rows);
    UnusedAfter(lv0, db.lv, {rp} + if M == |lv0| - 1 || replace then {} else {x}, db.loose, db.next);
    FollowShapes(lv0[..M + 1], me, cs0, places, p, replace, db.pages, rows, db.cursors);
  }

  lemma LandedShape(mc: Stack, rp: Id, s: nat)
    requires |mc.pg| == |mc.ki| >= 2
    ensures var m := Landed(mc, rp, s);
            |m.pg| == |m.ki| == |mc.pg| && m.init == mc.init && m.eof == mc.eof && m.del == mc.del
  {
  }

  lemma SplitAdds(pages: Pages, root: Id, lv: seq<seq<int>>, M: nat, mc: Stack, p: nat, mix: seq<nat>, x: int,
                  replace: bool, rp: Id, s: nat, rows: seq<seq<int>>)
    requires Splittable(pages, root, lv, M, mc, p, mix, x, replace, rp, s) && M >= 2 && |mix| == M + 1
             && mix[M - 1] < |lv[M - 1]|
    requires rows == SplitRows(lv[..M + 1], M - 1, mix[M - 1], rp, p, x, replace)
    ensures Adds(lv, rows + lv[M + 1..], {rp} + if M == |lv| - 1 || replace then {} else {x})
  {
    hide Joined, Nodes, Distinct, Rows, Traces, Adds;
    var lv1 := lv[M - 1 := Inserted(lv[M - 1], mix[M - 1] + 1, rp)];
    AddsRow(lv, M - 1, mix[M - 1] + 1, rp);
    AddsPut(lv1, M, p, x, replace);
    var lv2 := lv1[M := PutInto(lv1[M], p, x, replace)];
    AddsTwice(lv, lv1, lv2, {rp}, if M == |lv| - 1 || replace then {} else {x});
    assert rows + lv[M + 1..] == lv2;
  }

  lemma FollowShapes(rows: seq<seq<int>>, me: nat, cs0: seq<Stack>, places: seq<nat>, p: nat, replace: bool,
                     pages': Pages, rows': seq<seq<int>>, cs: seq<Stack>)
    requires |cs| == |cs0| == |places|
    requires forall i :: 0 <= i < |cs| && i != me ==> Follows(rows, cs0[i], places[i], p, replace, pages', rows', cs[i])
    ensures forall i :: 0 <= i < |cs| && i != me ==> |cs[i].pg| == |cs[i].ki|
  {
  }

  lemma BeforeParent(pages: Pages, root: Id, lv: seq<seq<int>>, cs: seq<Stack>, loose: seq<Id>, next: Id, me: nat,
                     M: nat, x: int, replace: bool, places: seq<nat>, mix: seq<nat>, rp: Id, s: nat)
    requires Before(pages, root, lv, cs, loose, next, me, M, x, replace, places, mix, rp, s) && M >= 2
    ensures me < |cs| == |places| && 2 <= M < |lv| && |mix| == M + 1 && Admissible(pages, lv, M, places[me], x, replace)
    ensures var mc := cs[me];
            && |mc.pg| == |mc.ki| == M && mc.ki[M - 2] < |Nodes(pages, mc.pg[M - 2])| && mix[M - 1] < |lv[M - 1]|
            && (if replace then mc.ki[M - 1] < |Nodes(pages, mc.pg[M - 1])|
                else mc.ki[M - 1] <= |Nodes(pages, mc.pg[M - 1])|)
            && 1 <= s <= |Nodes(pages, mc.pg[M - 1])| - (if replace then 1 else 0)
            && s < |PutInto(Nodes(pages, mc.pg[M - 1]), mc.ki[M - 1], x, replace)|
    ensures (forall i :: 0 <= i < |cs| ==> |cs[i].pg| == |cs[i].ki|) && if replace then places[me] < |lv[M]|
            else places[me] <= |lv[M]|
    ensures Fresh(lv, rp) && rp < next && rp !in loose && Nodes(pages, rp) == [] && cs[me].init
    ensures (M < |lv| - 1 && !replace ==> Nodes(pages, x) == []) && forall y :: Fresh(lv, y) ==> y != cs[me].pg[M - 1]
  {
    hide Joined, Nodes, Distinct, Rows, Traces, MinKeys, On;
    WithParent(pages, root, lv, M, cs[me], places[me], mix, x, replace, rp, s);
  }

  lemma SimpleSame(pages: Pages, root: Id, lv: seq<seq<int>>, cs: seq<Stack>, loose: seq<Id>, next: Id, me: nat, M: nat,
                   x: int, replace: bool, places: seq<nat>, mix: seq<nat>, rp: Id, s: nat, mp: Id, P: Id,
                   pages': Pages)
    requires Before(pages, root, lv, cs, loose, next, me, M, x, replace, places, mix, rp, s) && M >= 2
    requires mp == cs[me].pg[M - 1] && P == cs[me].pg[M - 2] && Only(pages, pages', {mp, rp, P})
    ensures forall y :: Fresh(lv, y) && y != rp ==> Nodes(pages', y) == Nodes(pages, y)
  {
    hide Joined, Nodes, Distinct, Rows, Traces, MinKeys, On;
    WithParent(pages, root, lv, M, cs[me], places[me], mix, x, replace, rp, s);
    forall y | Fresh(lv, y) && y != rp ensures y != mp && y != P {
    }
  }

  /** The keys down to row top are right, and the new page has got one. */
  ghost predicate KeysReady(db: Database, top: nat, rp: Id, up: seq<nat>, c: nat, ks: seq<int>)
    reads db
  {
    top < |db.lv| && |up| == |db.lv[top]| && KeyedTo(db.pages, db.lv, top, up, db.keys, ks)
        && Parts(ks, c, KeyOf(db.keys, rp))
  }

  /** They are right with the new page, which begins at c. */
  ghost predicate KeysSet(pages0: Pages, lv0: seq<seq<int>>, cs0: seq<Stack>, db: Database, me: nat, top: nat, x: int,
                          replace: bool, mix: seq<nat>, rp: Id, s: nat, up: seq<nat>, c: nat, ks: seq<int>, n: nat)
    reads db
  {
    && top + 2 <= n <= |db.lv| && top < |lv0| && |up| == |lv0[top]| && top < |mix| && mix[top] < |lv0[top]|
    && KeyedTo(db.pages, db.lv, n - 2, Inserted(up, mix[top] + 1, c), db.keys, ks)
    && db.lv[n - 2] == Inserted(lv0[top], mix[top] + 1, rp)
    && me < |cs0| && |cs0[me].pg| == |cs0[me].ki| == top + 1
    && var N, k := Nodes(pages0, cs0[me].pg[top]), cs0[me].ki[top];
    && (if replace then k < |N| else k <= |N|)
    && TornInto(pages0, lv0[top], mix[top], rp, PutInto(N, k, x, replace), s, db.pages)
  }

  /** Where mdb_page_split divides the nodes of a page, of which node k is to be
      replaced, or is to come before. */
  function Picked(sizes: Sizes, keys: Keys, leaf: bool, nodes: seq<int>, k: nat, x: int, replace: bool): nat
    requires if replace then k < |nodes| else k <= |nodes|
  {
    sizes.pick(keys, leaf, if replace then Without(nodes, k) else nodes, k, x)
  }

  /** The page of row top has kept the first s of its nodes, the new one counted,
      and the page now next to it has the others; no other page of the row has
      changed. */
  ghost predicate Halved(pages0: Pages, lv0: seq<seq<int>>, mc: Stack, top: nat, x: int, replace: bool, mix: seq<nat>,
                         s: nat, pages: Pages, lv: seq<seq<int>>, n: nat) {
    && top + 2 <= n <= |lv| && top < |lv0| && top < |mix| && mix[top] < |lv0[top]| && |mc.pg| == |mc.ki| == top + 1
    && var N, k := Nodes(pages0, mc.pg[top]), mc.ki[top];
    && (if replace then k < |N| else k <= |N|)
    && exists rp ::
         && lv[n - 2] == Inserted(lv0[top], mix[top] + 1, rp)
         && TornInto(pages0, lv0[top], mix[top], rp, PutInto(N, k, x, replace), s, pages)
  }

  lemma SetHalved(pages0: Pages, lv0: seq<seq<int>>, cs0: seq<Stack>, db: Database, me: nat, top: nat, x: int,
                  replace: bool, mix: seq<nat>, rp: Id, s: nat, up: seq<nat>, c: nat, ks: seq<int>, n: nat)
    requires KeysSet(pages0, lv0, cs0, db, me, top, x, replace, mix, rp, s, up, c, ks, n)
    ensures me < |cs0| && Halved(pages0, lv0, cs0[me], top, x, replace, mix, s, db.pages, db.lv, n)
  {
    hide Nodes, PutInto, Inserted, TornInto, KeyedTo;
  }

  /** Pages in no row do not matter to that. */
  lemma HalvedAside(pages0: Pages, pages1: Pages, lv0: seq<seq<int>>, mc: Stack, top: nat, x: int, replace: bool,
                    mix: seq<nat>, s: nat, pages: Pages, lv: seq<seq<int>>, n: nat)
    requires Halved(pages1, lv0, mc, top, x, replace, mix, s, pages, lv, n)
    requires SameOn(pages0, pages1, lv0[top]) && Nodes(pages1, mc.pg[top]) == Nodes(pages0, mc.pg[top])
    ensures Halved(pages0, lv0, mc, top, x, replace, mix, s, pages, lv, n)
  {
    hide Nodes, PutInto, Inserted;
    var N, k := Nodes(pages0, mc.pg[top]), mc.ki[top];
    var rp :| lv[n - 2] == Inserted(lv0[top], mix[top] + 1, rp)
              && TornInto(pages1, lv0[top], mix[top], rp, PutInto(N, k, x, replace), s, pages);
    assert TornInto(pages0, lv0[top], mix[top], rp, PutInto(N, k, x, replace), s, pages);
  }

  lemma KeysAlike(keys: Keys, id: Id)
    ensures KeysBut(keys, keys, id)
  {
  }

  /** The parent had room: the key of the new page is right there, and the nodes are dealt out. */
  lemma SimpleKeyed(pages: Pages, root: Id, lv: seq<seq<int>>, cs: seq<Stack>, loose: seq<Id>, next: Id, me: nat,
                    M: nat, x: int, replace: bool, places: seq<nat>, mix: seq<nat>, rp: Id, s: nat, mp: Id, P: Id,
                    all: seq<int>, pages': Pages, rows: seq<seq<int>>, up: seq<nat>, c: nat, keys: Keys, ks: seq<int>)
    requires Before(pages, root, lv, cs, loose, next, me, M, x, replace, places, mix, rp, s) && M >= 2
    requires mix[M - 1] < |lv[M - 1]| && rows == SplitRows(lv[..M + 1], M - 1, mix[M - 1], rp, places[me], x, replace)
    requires var mc := cs[me];
             mp == mc.pg[M - 1] && P == mc.pg[M - 2] && mc.ki[M - 2] < |Nodes(pages, P)| && s < |all|
             && all == PutInto(Nodes(pages, mp), mc.ki[M - 1], x, replace)
             && pages' == SplitPair(pages, P, mc.ki[M - 2], rp, mp, all, s)
    requires |up| == |lv[M - 1]| && KeyedTo(pages, lv, M - 1, up, keys, ks) && Parts(ks, c, KeyOf(keys, rp))
    ensures KeyedTo(pages', rows + lv[M + 1..], M - 1, Inserted(up, mix[M - 1] + 1, c), keys, ks)
    ensures TornInto(pages, lv[M - 1], mix[M - 1], rp, all, s, pages')
            && (rows + lv[M + 1..])[M - 1] == Inserted(lv[M - 1], mix[M - 1] + 1, rp)
  {
    hide Joined, Nodes, Distinct, Rows, Traces, MinKeys, On, KeyedTo, Parts, KeyOf, PutInto;
    BeforeParent(pages, root, lv, cs, loose, next, me, M, x, replace, places, mix, rp, s);
    var L, j, t, kp := M - 1, mix[M - 1], mix[M - 2], cs[me].ki[M - 2];
    WithParent(pages, root, lv, M, cs[me], places[me], mix, x, replace, rp, s);
    TraceLink(pages, lv[..M + 1], cs[me], mix, L - 1);
    Places(lv, L, j, L - 1, t);
    PairNodes(pages, P, kp, rp, mp, all, s);
    forall l, i | 0 <= l < |lv| - 1 && 0 <= i < |lv[l]| && !(l == L && i == j) && !(l == L - 1 && i == t)
      ensures Nodes(pages', lv[l][i]) == Nodes(pages, lv[l][i]) && lv[l][i] != mp
    {
      Places(lv, l, i, L, j);
      Places(lv, l, i, L - 1, t);
    }
    forall l | 0 <= l < L - 1 ensures SameOn(pages, pages', lv[l]) {
    }
    SameBesides(pages, pages', lv[L - 1], t);
    KeysAlike(keys, rp);
    KeyedLink(pages, root, lv, L, t, kp, rp, up, c, keys, keys, ks, pages', rows + lv[M + 1..]);
  }

  lemma PairNodes(pages: Pages, P: Id, kp: nat, rp: Id, mp: Id, all: seq<int>, s: nat)
    requires kp < |Nodes(pages, P)| && s <= |all| && P != rp && P != mp && rp != mp
    ensures var pages' := SplitPair(pages, P, kp, rp, mp, all, s);
            && Nodes(pages', P) == Inserted(Nodes(pages, P), kp + 1, rp) && Nodes(pages', rp) == all[s..]
            && Nodes(pages', mp) == all[..s]
            && forall y :: y != P && y != rp && y != mp ==> Nodes(pages', y) == Nodes(pages, y)
  {
  }

  /** The acting cursor goes on to the page that has got the new node. */
  method Land(mc: Stack, rp: Id, split: nat, ki: nat) returns (m: Stack)
    requires |mc.pg| == |mc.ki| >= 2
    requires var k := mc.ki[|mc.ki| - 1]; ki == if k < split then k else k - split
    ensures m == Landed(mc, rp, split)
  {
    m := mc;
    var top := |mc.pg| - 1;
    if mc.ki[top] < split {
      m := m.(ki := m.ki[top := ki]);
      assert m.ki == mc.ki;
    } else {
      m := m.(pg := m.pg[top := rp], ki := m.ki[top - 1 := m.ki[top - 1] + 1][top := ki]);
    }
  }

  /** What SplitSimple does. */
  ghost predicate SplitBeside(pages0: Pages, lv0: seq<seq<int>>, cs0: seq<Stack>, db: Database, me: nat, M: nat, x: int,
                              replace: bool, p: nat, mix: seq<nat>, rp: Id, s: nat, rows: seq<seq<int>>)
    reads db
  {
    && me < |cs0| && 2 <= M < |lv0| && |mix| == M + 1 && mix[M - 1] < |lv0[M - 1]|
    && (if replace then p < |lv0[M]| else p <= |lv0[M]|)
    && rows == SplitRows(lv0[..M + 1], M - 1, mix[M - 1], rp, p, x, replace)
    && db.depth + 1 == |lv0| && db.lv == rows + lv0[M + 1..]
    && (forall i :: 0 <= i < |cs0| ==> |cs0[i].pg| == |cs0[i].ki|) && |cs0[me].pg| == M
    && var mc := cs0[me];
    var mp, k, P, kp := mc.pg[M - 1], mc.ki[M - 1], mc.pg[M - 2], mc.ki[M - 2];
    && (if replace then k < |Nodes(pages0, mp)| else k <= |Nodes(pages0, mp)|)
    && kp < |Nodes(pages0, P)| && s < |PutInto(Nodes(pages0, mp), k, x, replace)|
    && db.pages == SplitPair(pages0, P, kp, rp, mp, PutInto(Nodes(pages0, mp), k, x, replace), s)
    && |db.cursors| == |cs0| && db.cursors[me] == Landed(mc, rp, s)
    && forall i :: 0 <= i < |cs0| && i != me ==>
         db.cursors[i] == SplitFix(cs0[i], M - 1, mp, rp, k, replace, s, OnRight(mc, rp), false, P, if k < s then kp
                                   else kp + 1)
  }

  /** What that comes to. */
  lemma SimpleDone(pages0: Pages, lv0: seq<seq<int>>, cs0: seq<Stack>, db: Database, me: nat, top: nat, x: int,
                   replace: bool, places: seq<nat>, mix: seq<nat>, rp: Id, s: nat, rows: seq<seq<int>>, up: seq<nat>,
                   c: nat, ks: seq<int>)
    requires Before(pages0, db.root, lv0, cs0, db.loose, db.next, me, top + 1, x, replace, places, mix, rp, s)
             && top > 0 && me < |places|
    requires SplitBeside(pages0, lv0, cs0, db, me, top + 1, x, replace, places[me], mix, rp, s, rows)
    requires |up| == |lv0[top]| && KeyedTo(pages0, lv0, top, up, db.keys, ks) && Parts(ks, c, KeyOf(db.keys, rp))
    ensures KeysSet(pages0, lv0, cs0, db, me, top, x, replace, mix, rp, s, up, c, ks, top + 2)
    ensures HasSplit(pages0, lv0, cs0, db, me, top, x, replace, places, top + 2)
    ensures forall y :: Fresh(lv0, y) && y != rp && (y != x || top + 1 == db.depth || replace) ==> Fresh(db.lv, y)
    ensures forall y :: Fresh(lv0, y) && y != rp ==> Nodes(db.pages, y) == Nodes(pages0, y)
  {
    hide Joined, Nodes, Distinct, Rows, Traces, MinKeys, SplitFix, At, PutInto, SameOn, Slot, On, Admissible, Before,
         HasSplit, Divided, Unused, Adds, Follows, AllFollow, Splittable, Tree, Inserted, KeyedTo, TornInto, Parts,
         KeyOf, Landed, SplitPair;
    var M, mc := top + 1, cs0[me];
    var mp, P := mc.pg[top], mc.pg[top - 1];
    var all := PutInto(Nodes(pages0, mp), mc.ki[top], x, replace);
    SimpleHolds(pages0, lv0, cs0, me, M, x, replace, places, mix, rp, s, db, rows);
    SimpleKeyed(pages0, db.root, lv0, cs0, db.loose, db.next, me, M, x, replace, places, mix, rp, s, mp, P, all,
                db.pages, rows, up, c, db.keys, ks);
    AddsFresh(lv0, db.lv, {rp} + if M == |lv0| - 1 || replace then {} else {x});
    PairOnly(pages0, P, mc.ki[top - 1], rp, mp, all, s);
    SimpleSame(pages0, db.root, lv0, cs0, db.loose, db.next, me, M, x, replace, places, mix, rp, s, mp, P, db.pages);
  }

  lemma PairOnly(pages: Pages, P: Id, kp: nat, rp: Id, mp: Id, all: seq<int>, s: nat)
    requires kp < |Nodes(pages, P)| && s <= |all|
    ensures Only(pages, SplitPair(pages, P, kp, rp, mp, all, s), {mp, rp, P})
  {
    ThreePages(pages, mp, rp, P, Inserted(Nodes(pages, P), kp + 1, rp), all[s..], all[..s]);
  }

  lemma SepsKeyed(db: Database, top: nat, rp: Id, up: seq<nat>, c: nat, ks: seq<int>)
    requires KeysReady(db, top, rp, up, c, ks)
    ensures top < |db.lv| && |up| == |db.lv[top]| && KeyedTo(db.pages, db.lv, top, up, db.keys, ks)
            && Parts(ks, c, KeyOf(db.keys, rp))
  {
  }

  /** The pages after a split; the node for the new one comes to index at of the parent. */
  method DealPair(db: Database, mp: Id, rp: Id, parent: Id, at: nat, newindx: nat, x: int, replace: bool, split: nat)
    returns (ki: nat)
    requires 1 <= at <= |Nodes(db.pages, parent)|
    requires var nodes := Nodes(db.pages, mp);
             && (if replace then newindx < |nodes| else newindx <= |nodes|)
             && 1 <= split <= |nodes| - (if replace then 1 else 0)
    requires db.Intact() && db.first <= mp && db.first <= rp && db.first <= parent
    modifies db`pages
    ensures db.Intact()
    ensures ki == (if newindx < split then newindx else newindx - split)
    ensures var all := PutInto(Nodes(old(db.pages), mp), newindx, x, replace);
            split < |all| && db.pages == SplitPair(old(db.pages), parent, at - 1, rp, mp, all, split)
  {
    hide Nodes, PutInto, Inserted;
    var nodes := Nodes(db.pages, mp);
    ApartEdit(db.base, db.first, db.pages, db.loose, db.next, db.dirty, parent,
              Inserted(Nodes(db.pages, parent), at, rp));
    db.pages := db.pages[parent := Inserted(Nodes(db.pages, parent), at, rp)];
    var left, right;
    left, right, ki := Deal(nodes, newindx, x, replace, split);
    ApartEdit(db.base, db.first, db.pages, db.loose, db.next, db.dirty, rp, right);
    ApartEdit(db.base, db.first, db.pages[rp := right], db.loose, db.next, db.dirty, mp, left);
    db.pages := db.pages[rp := right][mp := left];
  }

  /** The same under a new root. */
  method DealRootPair(db: Database, mp: Id, rp: Id, pp: Id, newindx: nat, x: int, replace: bool, split: nat)
    returns (ki: nat)
    requires var nodes := Nodes(db.pages, mp);
             && (if replace then newindx < |nodes| else newindx <= |nodes|)
             && 1 <= split <= |nodes| - (if replace then 1 else 0)
    requires db.Intact() && db.first <= mp && db.first <= rp && db.first <= pp
    modifies db`pages
    ensures db.Intact()
    ensures ki == (if newindx < split then newindx else newindx - split)
    ensures var all := PutInto(Nodes(old(db.pages), mp), newindx, x, replace);
            split < |all| && db.pages == RootPair(old(db.pages), mp, rp, pp, all, split)
  {
    hide Nodes, PutInto, Inserted;
    var nodes := Nodes(db.pages, mp);
    InsertSecond(mp, rp);
    ApartEdit(db.base, db.first, db.pages, db.loose, db.next, db.dirty, pp, Inserted([mp], 1, rp));
    db.pages := db.pages[pp := Inserted([mp], 1, rp)];
    var left, right;
    left, right, ki := Deal(nodes, newindx, x, replace, split);
    ApartEdit(db.base, db.first, db.pages, db.loose, db.next, db.dirty, rp, right);
    ApartEdit(db.base, db.first, db.pages[rp := right], db.loose, db.next, db.dirty, mp, left);
    db.pages := db.pages[rp := right][mp := left];
  }

  /** The nodes are dealt out to the page and its new neighbour, and the parent
      gets a node for it. */
  method DealBeside(db: Database, me: nat, top: nat, x: int, replace: bool, rp: Id, split: nat, ghost p: nat,
                    ghost mix: seq<nat>) returns (ghost rows: seq<seq<int>>)
    requires me < |db.cursors| && db.WellFormed() && 0 < top < |db.lv| - 1 == db.depth && |mix| == top + 2
             && mix[top] < |db.lv[top]|
    requires |db.cursors[me].pg| == top + 1 && (if replace then p < |db.lv[top + 1]| else p <= |db.lv[top + 1]|)
    requires var mc := db.cursors[me];
             var k, nodes := mc.ki[top], Nodes(db.pages, mc.pg[top]);
             && (if replace then k < |nodes| else k <= |nodes|) && 1 <= split <= |nodes| - (if replace then 1 else 0)
             && mc.ki[top - 1] < |Nodes(db.pages, mc.pg[top - 1])|
    requires db.Writable(db.cursors[me], top + 1) && db.first <= rp
    modifies db`pages, db`cursors, db`lv
    ensures db.Intact()
    ensures SplitBeside(old(db.pages), old(db.lv), old(db.cursors), db, me, top + 1, x, replace, p, mix, rp, split,
                        rows)
  {
    hide Joined, Nodes, SplitFix, PutInto, Inserted, OnRight, Landed, SplitRows, SplitPair;
    var mc, ptop := db.cursors[me], top - 1;
    var mp, newindx, parent := mc.pg[top], mc.ki[top], mc.pg[ptop];
    OnRightShape(mc, rp, split);
    var mn := OnRight(mc, rp);
    var ki := DealPair(db, mp, rp, parent, mn.ki[ptop], newindx, x, replace, split);
    mc := Land(mc, rp, split, ki);
    rows := SplitRows(db.lv[..top + 2], top, mix[top], rp, p, x, replace);
    db.lv := rows + db.lv[top + 2..];
    SplitOthers(db, me, top, mp, rp, newindx, replace, split, mn, false, parent, mc.ki[ptop]);
    db.cursors := db.cursors[me := mc];
  }

  lemma OnRightShape(mc: Stack, rp: Id, s: nat)
    requires |mc.pg| == |mc.ki| >= 2
    ensures var top := |mc.pg| - 1;
            var mn, m := OnRight(mc, rp), Landed(mc, rp, s);
            && |mn.pg| == |mn.ki| == |mc.pg| && mn.ki[top - 1] == mc.ki[top - 1] + 1
            && |m.pg| == |m.ki| == |mc.pg| && m.ki[top - 1] == if mc.ki[top] < s then mc.ki[top - 1]
                                                               else mc.ki[top - 1] + 1
  {
  }

  /** The parent has room. */
  method SplitSimple(db: Database, me: nat, top: nat, x: int, replace: bool, rp: Id, split: nat, ghost places: seq<nat>,
                     ghost mix: seq<nat>, ghost up: seq<nat>, ghost c: nat, ghost ks: seq<int>)
    requires me < |db.cursors|
    requires Before(db.pages, db.root, db.lv, db.cursors, db.loose, db.next, me, top + 1, x, replace, places, mix, rp,
                    split)
    requires top > 0 && |db.cursors[me].pg| == top + 1
             && db.sizes.room(db.keys, Nodes(db.pages, db.cursors[me].pg[top - 1]), rp)
    requires db.depth + 1 == |db.lv| && KeysReady(db, top, rp, up, c, ks)
    requires db.Writable(db.cursors[me], top + 1) && db.first <= rp
    modifies db`pages, db`cursors, db`lv
    ensures db.Intact()
    ensures KeysSet(old(db.pages), old(db.lv), old(db.cursors), db, me, top, x, replace, mix, rp, split, up, c, ks,
                    top + 2)
    ensures HasSplit(old(db.pages), old(db.lv), old(db.cursors), db, me, top, x, replace, places, top + 2)
    ensures forall y :: Fresh(old(db.lv), y) && y != rp && (y != x || top + 1 == db.depth || replace) ==>
              Fresh(db.lv, y)
    ensures forall y :: Fresh(old(db.lv), y) && y != rp ==> Nodes(db.pages, y) == Nodes(old(db.pages), y)
  {
    hide Joined, Nodes, Distinct, Rows, Traces, MinKeys, At, PutInto, Admissible, Before, HasSplit, Unused, Tree,
         Inserted, KeyedTo, Parts, KeyOf, KeysSet, Fresh, KeysReady, SplitBeside;
    ghost var pages0, lv0, cs0 := db.pages, db.lv, db.cursors;
    SepsKeyed(db, top, rp, up, c, ks);
    BeforeParent(pages0, db.root, lv0, cs0, db.loose, db.next, me, top + 1, x, replace, places, mix, rp, split);
    ghost var rows := DealBeside(db, me, top, x, replace, rp, split, places[me], mix);
    SimpleDone(pages0, lv0, cs0, db, me, top, x, replace, places, mix, rp, split, rows, up, c, ks);
  }

  lemma BeforeRoot(pages: Pages, root: Id, lv: seq<seq<int>>, cs: seq<Stack>, loose: seq<Id>, next: Id, me: nat, x: int,
                   replace: bool, places: seq<nat>, mix: seq<nat>, rp: Id, s: nat)
    requires Before(pages, root, lv, cs, loose, next, me, 1, x, replace, places, mix, rp, s)
    ensures me < |cs| == |places| && |lv| >= 2 && |mix| == 2 && lv[0] == [root]
            && Admissible(pages, lv, 1, places[me], x, replace)
    ensures var mc := cs[me];
            && |mc.pg| == |mc.ki| == 1 && mc.pg[0] == root
            && (if replace then mc.ki[0] < |Nodes(pages, root)| else mc.ki[0] <= |Nodes(pages, root)|)
            && 1 <= s <= |Nodes(pages, root)| - (if replace then 1 else 0)
            && s < |PutInto(Nodes(pages, root), mc.ki[0], x, replace)|
    ensures (forall i :: 0 <= i < |cs| ==> |cs[i].pg| == |cs[i].ki|) && if replace then places[me] < |lv[1]|
            else places[me] <= |lv[1]|
  {
    hide Joined, Nodes, Distinct, Traces, MinKeys, On;
    AtRootPage(pages, root, lv, cs[me], places[me], mix, x, replace, rp, s);
  }

  /** The root was split: everything the split has to establish. */
  lemma RootHolds(pages0: Pages, root: Id, lv0: seq<seq<int>>, cs0: seq<Stack>, me: nat, x: int, replace: bool,
                  places: seq<nat>, mix: seq<nat>, rp: Id, pp: Id, s: nat, db: Database, rows: seq<seq<int>>)
    requires Before(pages0, root, lv0, cs0, db.loose, db.next, me, 1, x, replace, places, mix, rp, s)
    requires Fresh(lv0, pp) && pp < db.next && pp !in db.loose && pp != rp && (1 < |lv0| - 1 ==> x != pp)
    requires rows == RootRows(root, rp, pp, PutInto(lv0[1], places[me], x, replace))
    requires db.depth == |lv0| && db.lv == rows + lv0[2..] && db.root == pp
    requires var mc := cs0[me];
             var k, mn := mc.ki[0], OnRight(Raised(mc, pp, 0), rp);
             && s < |PutInto(Nodes(pages0, root), k, x, replace)|
             && db.pages == RootPair(pages0, root, rp, pp, PutInto(Nodes(pages0, root), k, x, replace), s)
             && |db.cursors| == |cs0| && db.cursors[me] == Landed(Raised(mc, pp, 0), rp, s)
             && forall i :: 0 <= i < |cs0| && i != me ==>
                  db.cursors[i] == RootSplitFix(cs0[i], root, rp, pp, k, replace, s, mn, if k < s then 0 else 1)
    ensures HasSplit(pages0, lv0, cs0, db, me, 0, x, replace, places, 3)
    ensures Adds(lv0, db.lv, {rp, pp} + if 1 == |lv0| - 1 || replace then {} else {x})
  {
    hide Joined, Nodes, Distinct, Rows, Traces, MinKeys, RootSplitFix, At, PutInto, SameOn, Slot, On, Divided,
         Splittable, Unused, Adds;
    BeforeRoot(pages0, root, lv0, cs0, db.loose, db.next, me, x, replace, places, mix, rp, s);
    var mc, p := cs0[me], places[me];
    var k, mn := mc.ki[0], OnRight(Raised(mc, pp, 0), rp);
    var all := PutInto(Nodes(pages0, root), k, x, replace);
    RootSplit(pages0, root, lv0, mc, p, mix, x, replace, rp, pp, s, k, all, db.pages, rows);
    RootFollows(pages0, root, lv0, mc, p, mix, x, replace, rp, pp, s, k, all, db.pages, rows);
    assert db.lv[..3] == rows && |rows| == 3;
    LandedShape(Raised(mc, pp, 0), rp, s);
    forall i | 0 <= i < |cs0| && i != me
      ensures Follows(lv0[..2], cs0[i], places[i], p, replace, db.pages, rows, db.cursors[i])
    {
      RootSplitFixShape(cs0[i], root, rp, pp, k, replace, s, mn, if k < s then 0 else 1);
      if !cs0[i].init {
        Uninit(lv0[..2], cs0[i], places[i], p, replace, db.pages, rows, db.cursors[i]);
      }
    }
    RootAdds(lv0, root, rp, pp, p, x, replace);
    UnusedAfter(lv0, db.lv, {rp, pp} + if 1 == |lv0| - 1 || replace then {} else {x}, db.loose, db.next);
    FollowShapes(lv0[..2], me, cs0, places, p, replace, db.pages, rows, db.cursors);
  }

  lemma RootAdds(lv: seq<seq<int>>, root: Id, rp: Id, pp: Id, p: nat, x: int, replace: bool)
    requires |lv| >= 2 && lv[0] == [root] && (if replace then p < |lv[1]| else p <= |lv[1]|)
             && (1 < |lv| - 1 && replace ==> lv[1][p] == x)
    ensures Adds(lv, RootRows(root, rp, pp, PutInto(lv[1], p, x, replace)) + lv[2..], {rp, pp} + if 1 == |lv| - 1
                 || replace then {} else {x})
  {
    AddsPut(lv, 1, p, x, replace);
    var lv1 := lv[1 := PutInto(lv[1], p, x, replace)];
    var lv2 := RootRows(root, rp, pp, PutInto(lv[1], p, x, replace)) + lv[2..];
    forall l, i | 0 <= l < |lv2| - 1 && 0 <= i < |lv2[l]| ensures lv2[l][i] in {rp, pp} || !Fresh(lv1, lv2[l][i]) {
      if l >= 2 {
        assert lv2[l] == lv1[l - 1];
      } else if l == 1 && i == 0 {
        assert lv1[0][0] == root;
      }
    }
    AddsTwice(lv, lv1, lv2, if 1 == |lv| - 1 || replace then {} else {x}, {rp, pp});
    assert {rp, pp} + (if 1 == |lv| - 1 || replace then {} else {x}) ==
           (if 1 == |lv| - 1 || replace then {} else {x}) + {rp, pp};
  }

  lemma RootKeyed(pages: Pages, root: Id, lv: seq<seq<int>>, cs: seq<Stack>, loose: seq<Id>, next: Id, me: nat, x: int,
                  replace: bool, places: seq<nat>, mix: seq<nat>, rp: Id, pp: Id, s: nat, all: seq<int>, pages': Pages,
                  rows: seq<seq<int>>, up: seq<nat>, c: nat, keys: Keys, ks: seq<int>)
    requires Before(pages, root, lv, cs, loose, next, me, 1, x, replace, places, mix, rp, s) && pp != rp
             && Fresh(lv, pp)
    requires all == PutInto(Nodes(pages, root), cs[me].ki[0], x, replace) && s < |all|
             && pages' == RootPair(pages, root, rp, pp, all, s)
    requires rows == RootRows(root, rp, pp, PutInto(lv[1], places[me], x, replace))
    requires |up| == |lv[0]| && Parts(ks, c, KeyOf(keys, rp))
    ensures |lv[0]| == 1 && mix[0] == 0 && KeyedTo(pages', rows + lv[2..], 1, Inserted(up, 1, c), keys, ks)
    ensures TornInto(pages, lv[0], 0, rp, all, s, pages') && (rows + lv[2..])[1] == Inserted(lv[0], 1, rp)
  {
    hide Joined, Distinct, Traces, MinKeys, On, Parts, KeyOf, PutInto;
    BeforeRoot(pages, root, lv, cs, loose, next, me, x, replace, places, mix, rp, s);
    assert lv[0][0] == root;
    TraceLink(pages, lv[..2], cs[me], mix, 0);
    var lv' := rows + lv[2..];
    assert lv'[0] == [pp] && [pp][..0] == [];
    NoPages(pages');
    var cuts := Inserted(up, 1, c);
    assert RowKeyed(pages', lv'[0], cuts, keys, ks);
  }

  /** What SplitRoot does. */
  ghost predicate SplitTop(pages0: Pages, root: Id, lv0: seq<seq<int>>, cs0: seq<Stack>, db: Database, me: nat, x: int,
                           replace: bool, p: nat, rp: Id, pp: Id, s: nat, rows: seq<seq<int>>)
    reads db
  {
    && me < |cs0| && |lv0| >= 2 && (if replace then p < |lv0[1]| else p <= |lv0[1]|)
    && rows == RootRows(root, rp, pp, PutInto(lv0[1], p, x, replace))
    && db.depth == |lv0| && db.lv == rows + lv0[2..] && db.root == pp
    && (forall i :: 0 <= i < |cs0| ==> |cs0[i].pg| == |cs0[i].ki|) && |cs0[me].pg| == 1
    && var k, mn := cs0[me].ki[0], OnRight(Raised(cs0[me], pp, 0), rp);
    && (if replace then k < |Nodes(pages0, root)| else k <= |Nodes(pages0, root)|)
    && s < |PutInto(Nodes(pages0, root), k, x, replace)|
    && db.pages == RootPair(pages0, root, rp, pp, PutInto(Nodes(pages0, root), k, x, replace), s)
    && |db.cursors| == |cs0| && db.cursors[me] == Landed(Raised(cs0[me], pp, 0), rp, s)
    && forall i :: 0 <= i < |cs0| && i != me ==>
         db.cursors[i] == RootSplitFix(cs0[i], root, rp, pp, k, replace, s, mn, if k < s then 0 else 1)
  }

  /** What that comes to. */
  lemma RootDone(pages0: Pages, root: Id, lv0: seq<seq<int>>, cs0: seq<Stack>, db: Database, me: nat, x: int,
                 replace: bool, places: seq<nat>, mix: seq<nat>, rp: Id, pp: Id, s: nat, rows: seq<seq<int>>,
                 up: seq<nat>, c: nat, ks: seq<int>)
    requires Before(pages0, root, lv0, cs0, db.loose, db.next, me, 1, x, replace, places, mix, rp, s) && me < |places|
    requires Fresh(lv0, pp) && pp < db.next && pp !in db.loose && pp != rp && (1 < |lv0| - 1 ==> x != pp)
    requires SplitTop(pages0, root, lv0, cs0, db, me, x, replace, places[me], rp, pp, s, rows)
    requires |up| == |lv0[0]| && Parts(ks, c, KeyOf(db.keys, rp))
    ensures KeysSet(pages0, lv0, cs0, db, me, 0, x, replace, mix, rp, s, up, c, ks, 3)
    ensures HasSplit(pages0, lv0, cs0, db, me, 0, x, replace, places, 3)
    ensures forall y :: Fresh(lv0, y) && y != rp && y != pp && (y != x || 2 == db.depth || replace) ==> Fresh(db.lv, y)
    ensures forall y :: Fresh(lv0, y) && y != rp && y != pp ==> Nodes(db.pages, y) == Nodes(pages0, y)
  {
    hide Joined, Nodes, Distinct, Rows, Traces, MinKeys, RootSplitFix, At, PutInto, SameOn, Slot, On, Admissible,
         Before, HasSplit, Divided, Unused, Adds, Follows, AllFollow, Splittable, Tree, Inserted, KeyedTo, TornInto,
         Parts, KeyOf, Landed, RootPair;
    BeforeRoot(pages0, root, lv0, cs0, db.loose, db.next, me, x, replace, places, mix, rp, s);
    var all := PutInto(Nodes(pages0, root), cs0[me].ki[0], x, replace);
    RootHolds(pages0, root, lv0, cs0, me, x, replace, places, mix, rp, pp, s, db, rows);
    RootKeyed(pages0, root, lv0, cs0, db.loose, db.next, me, x, replace, places, mix, rp, pp, s, all, db.pages, rows,
              up, c, db.keys, ks);
    AddsFresh(lv0, db.lv, {rp, pp} + if 1 == |lv0| - 1 || replace then {} else {x});
    RootOnly(pages0, root, rp, pp, all, s);
    NotRoot(lv0, root, pages0, db.pages, rp, pp);
  }

  lemma RootOnly(pages: Pages, root: Id, rp: Id, pp: Id, all: seq<int>, s: nat)
    requires s <= |all|
    ensures Only(pages, RootPair(pages, root, rp, pp, all, s), {root, rp, pp})
  {
    ThreePages(pages, root, rp, pp, [root, rp], all[s..], all[..s]);
  }

  lemma RaisedShape(mc: Stack, pp: Id, rp: Id, s: nat)
    requires |mc.pg| == |mc.ki| == 1
    ensures var c := Raised(mc, pp, 0);
            && |c.pg| == |c.ki| == 2 && c.ki[1] == mc.ki[0]
            && var mn, m := OnRight(c, rp), Landed(c, rp, s);
            && |mn.pg| == |mn.ki| == 2 && mn.ki[0] == 1
            && |m.pg| == |m.ki| == 2 && m.ki[0] == if mc.ki[0] < s then 0 else 1
  {
  }

  /** The new root, and the two pages below it. */
  method DealUnderRoot(db: Database, me: nat, x: int, replace: bool, rp: Id, pp: Id, split: nat, ghost p: nat)
    returns (ghost rows: seq<seq<int>>)
    requires me < |db.cursors| && db.WellFormed() && db.cursors[me].pg == [db.root] && db.depth + 1 == |db.lv| >= 2
    requires if replace then p < |db.lv[1]| else p <= |db.lv[1]|
    requires var k, nodes := db.cursors[me].ki[0], Nodes(db.pages, db.root);
             (if replace then k < |nodes| else k <= |nodes|) && 1 <= split <= |nodes| - if replace then 1 else 0
    requires db.Writable(db.cursors[me], 1) && db.first <= rp && db.first <= pp
    modifies db`pages, db`cursors, db`lv, db`root, db`depth
    ensures db.Intact()
    ensures SplitTop(old(db.pages), old(db.root), old(db.lv), old(db.cursors), db, me, x, replace, p, rp, pp, split,
                     rows)
  {
    hide Joined, Nodes, RootSplitFix, PutInto, Inserted, Raised, OnRight, Landed, RootRows, RootPair;
    var mc := db.cursors[me];
    RaisedShape(mc, pp, rp, split);
    var mp, newindx := mc.pg[0], mc.ki[0];
    mc := Raised(mc, pp, 0);
    db.root, db.depth := pp, db.depth + 1;
    var mn := OnRight(mc, rp);
    var ki := DealRootPair(db, mp, rp, pp, newindx, x, replace, split);
    mc := Land(mc, rp, split, ki);
    rows := RootRows(mp, rp, pp, PutInto(db.lv[1], p, x, replace));
    db.lv := rows + db.lv[2..];
    RaiseOthers(db, me, mp, rp, pp, newindx, replace, split, mn, mc.ki[0]);
    db.cursors := db.cursors[me := mc];
  }

  /** The root is split: pp is the new root. */
  method SplitRoot(db: Database, me: nat, x: int, replace: bool, rp: Id, pp: Id, split: nat, ghost places: seq<nat>,
                   ghost mix: seq<nat>, ghost up: seq<nat>, ghost c: nat, ghost ks: seq<int>)
    requires Before(db.pages, db.root, db.lv, db.cursors, db.loose, db.next, me, 1, x, replace, places, mix, rp, split)
    requires db.depth + 1 == |db.lv| && db.Reserved(pp) && pp != rp && (1 < db.depth ==> x != pp)
             && KeysReady(db, 0, rp, up, c, ks)
    requires me < |db.cursors| && db.Writable(db.cursors[me], 1) && db.first <= rp && db.first <= pp
    modifies db`pages, db`cursors, db`lv, db`root, db`depth
    ensures db.Intact()
    ensures KeysSet(old(db.pages), old(db.lv), old(db.cursors), db, me, 0, x, replace, mix, rp, split, up, c, ks, 3)
    ensures HasSplit(old(db.pages), old(db.lv), old(db.cursors), db, me, 0, x, replace, places, 3)
    ensures forall y :: Fresh(old(db.lv), y) && y != rp && y != pp && (y != x || 1 == old(db.depth) || replace) ==>
              Fresh(db.lv, y)
    ensures forall y :: Fresh(old(db.lv), y) && y != rp && y != pp ==> Nodes(db.pages, y) == Nodes(old(db.pages), y)
  {
    hide Joined, Nodes, Distinct, Rows, Traces, MinKeys, At, PutInto, Before, HasSplit, Unused, Tree, Inserted, KeyedTo,
         Parts, KeyOf, KeysSet, Fresh, KeysReady, Admissible;
    ghost var pages0, lv0, cs0, root := db.pages, db.lv, db.cursors, db.root;
    SepsKeyed(db, 0, rp, up, c, ks);
    BeforeRoot(pages0, root, lv0, cs0, db.loose, db.next, me, x, replace, places, mix, rp, split);
    ghost var rows := DealUnderRoot(db, me, x, replace, rp, pp, split, places[me]);
    RootDone(pages0, root, lv0, cs0, db, me, x, replace, places, mix, rp, pp, split, rows, up, c, ks);
  }

  lemma InsertSecond(a: int, b: int)
    ensures Inserted([a], 1, b) == [a, b]
  {
  }

  lemma NotRoot(lv: seq<seq<int>>, root: Id, pages: Pages, pages': Pages, rp: Id, pp: Id)
    requires |lv| >= 2 && lv[0] == [root] && Only(pages, pages', {root, rp, pp})
    ensures forall y :: Fresh(lv, y) && y != rp && y != pp ==> Nodes(pages', y) == Nodes(pages, y)
  {
    hide Nodes;
    assert lv[0][0] == root;
  }
}
