/**
 mdb_page_split, with as many parents split as need be.

 `SplitDeep` is the case of a full parent: the cursor mn, lifted to the parent
 and set on the place of the new page, is put among the tracked cursors, the
 parent is split, and then both cursors have to find their pages again, whose
 parents may have changed.  The other cursors have been adjusted by the split of
 the parent, so the loop of this one leaves their upper parts alone.

 `Split` makes the new pages and takes the separator, and is recursive through
 `SplitWith`, `SplitCase` and `SplitDeep`.  Its contract speaks of any row, and
 of a node that is added as well as of one that is replaced.
 */
module Splitting {
  import opened Sequences
  import opened Levels
  import opened Separators
  import opened KeyedMoves
  import opened Tracking
  import opened Positions
  import opened Touching
  import opened Insertion
  import opened PageSplit
  import opened DealingOut
  import opened RowSplits
  import opened SplitSteps

  /** The place in the row above, for the upper part of a stack. */
  lemma UpperAt(pages: Pages, rows: seq<seq<int>>, c: Stack, ix: seq<nat>)
    requires |rows| >= 3 && |c.pg| == |c.ki| == |rows| - 1 && |ix| == |rows| && Traces(pages, rows, c, ix)
    ensures AtIx(pages, rows[..|rows| - 1], Top(c, |rows| - 2), ix[|rows| - 2], ix[..|rows| - 1])
  {
    hide Joined, Nodes;
    var n := |rows| - 1;
    var up, c0, ux := rows[..n], Top(c, n - 1), ix[..n];
    forall l | 0 <= l < |up| - 1
      ensures Link(pages, up[l], ux[l], c0.pg[l], c0.ki[l], ux[l + 1]) && c0.ki[l] < |Nodes(pages, c0.pg[l])|
    {
      TraceLink(pages, rows, c, ix, l);
    }
  }

  lemma TopTop(c: Stack, n: nat, m: nat)
    requires |c.pg| == |c.ki| >= n >= m
    ensures Top(Top(c, n), m) == Top(c, m)
  {
    assert c.pg[..n][..m] == c.pg[..m] && c.ki[..n][..m] == c.ki[..m];
  }

  /** How every stack comes down to the page that is split. */
  ghost predicate Ways(pages: Pages, rows: seq<seq<int>>, me: nat, cs: seq<Stack>, places: seq<nat>, mix: seq<nat>,
                       ixs: seq<seq<nat>>) {
    && |ixs| == |cs| == |places| && me < |cs| && |rows| >= 3 && ixs[me] == mix && |mix| == |rows|
    && Traces(pages, rows, cs[me], mix) && |cs[me].pg| == |cs[me].ki| == |rows| - 1
    && forall i :: 0 <= i < |cs| && i != me && cs[i].init ==>
         |cs[i].pg| == |cs[i].ki| >= |rows| - 1 && AtIx(pages, rows, Top(cs[i], |rows| - 1), places[i], ixs[i])
  }

  lemma FindWays(pages: Pages, rows: seq<seq<int>>, me: nat, cs: seq<Stack>, places: seq<nat>, mix: seq<nat>)
    returns (ixs: seq<seq<nat>>)
    requires OthersOn(pages, rows, me, cs, places) && me < |cs| && |rows| >= 3 && |mix| == |rows|
    requires Traces(pages, rows, cs[me], mix) && |cs[me].pg| == |cs[me].ki| == |rows| - 1
    ensures Ways(pages, rows, me, cs, places, mix, ixs)
  {
    hide Traces, Inside;
    ixs := [];
    while |ixs| < |cs|
      invariant |ixs| <= |cs| && (me < |ixs| ==> ixs[me] == mix)
      invariant forall i :: 0 <= i < |ixs| && i != me && cs[i].init ==>
                  |cs[i].pg| == |cs[i].ki| >= |rows| - 1 && AtIx(pages, rows, Top(cs[i], |rows| - 1), places[i], ixs[i])
    {
      var i, ix := |ixs|, mix;
      if i != me && cs[i].init {
        assert On(pages, rows, cs[i], places[i]);
        ix :| AtIx(pages, rows, Top(cs[i], |rows| - 1), places[i], ix);
      }
      ixs := ixs + [ix];
    }
  }

  /** The places one row up; the last is that of the new page. */
  ghost function UpperPlaces(ixs: seq<seq<nat>>, L: nat, j: nat): (r: seq<nat>)
    ensures |r| == |ixs| + 1 && r[|ixs|] == j && forall i :: 0 <= i < |ixs| ==> r[i] == if L < |ixs[i]| then ixs[i][L]
            else 0
  {
    seq(|ixs|, i requires 0 <= i < |ixs| => if L < |ixs[i]| then ixs[i][L] else 0) + [j]
  }

  /** The cursor copy mn with the row of the split page taken off. */
  function Lifted(mc: Stack): Stack
    requires |mc.pg| == |mc.ki| >= 2
  {
    var top := |mc.pg| - 1;
    mc.(pg := mc.pg[..top], ki := mc.ki[..top - 1] + [mc.ki[top - 1] + 1])
  }

  lemma LiftedSlot(pages: Pages, rows: seq<seq<int>>, mc: Stack, mix: seq<nat>)
    requires |rows| >= 3 && |mc.pg| == |mc.ki| == |rows| - 1 && |mix| == |rows| && Traces(pages, rows, mc, mix)
    ensures var L := |rows| - 2; Slot(pages, rows[..L + 1], Lifted(mc), mix[L] + 1, mix[..L] + [mix[L] + 1])
  {
    hide Joined, Nodes;
    var L := |rows| - 2;
    var up, c0, ux := rows[..L + 1], Lifted(mc), mix[..L] + [mix[L] + 1];
    TraceLink(pages, rows, mc, mix, L - 1);
    forall l | 0 <= l < |up| - 1
      ensures Link(pages, up[l], ux[l], c0.pg[l], c0.ki[l], ux[l + 1])
              && (l + 2 < |up| ==> c0.ki[l] < |Nodes(pages, c0.pg[l])|)
    {
      TraceLink(pages, rows, mc, mix, l);
    }
  }

  /** The parent can be split to take in the new page. */
  lemma ParentReady(db: Database, cs0: seq<Stack>, me: nat, top: nat, x: int, replace: bool, places: seq<nat>,
                    mix: seq<nat>, rp: Id, s: nat, ixs: seq<seq<nat>>)
    requires Before(db.pages, db.root, db.lv, cs0, db.loose, db.next, me, top + 1, x, replace, places, mix, rp, s)
             && top > 0
    requires db.depth + 1 == |db.lv| && db.Sized() && db.cursors == cs0 + [Lifted(cs0[me])]
             && !db.sizes.room(db.keys, Nodes(db.pages, cs0[me].pg[top - 1]), rp)
    requires Ways(db.pages, db.lv[..top + 2], me, cs0, places, mix, ixs)
    ensures CanSplit(db, |cs0|, top - 1, rp, false, UpperPlaces(ixs, top, mix[top] + 1), mix[..top] + [mix[top] + 1])
  {
    hide Joined, Nodes, Distinct, Rows, Traces, MinKeys, Admissible, Inside, At, Unused;
    BeforeParent(db.pages, db.root, db.lv, cs0, db.loose, db.next, me, top + 1, x, replace, places, mix, rp, s);
    var rows, places1 := db.lv[..top + 2], UpperPlaces(ixs, top, mix[top] + 1);
    var up := db.lv[..top + 1];
    assert rows[..top + 1] == up;
    LiftedSlot(db.pages, rows, cs0[me], mix);
    forall i | 0 <= i < |db.cursors| && i != |cs0| && db.cursors[i].init
      ensures On(db.pages, up, db.cursors[i], places1[i])
    {
      WayUp(db.pages, rows, me, cs0, places, mix, ixs, i);
    }
    ParentAdmits(db.pages, db.lv, top, mix[top] + 1, rp);
  }

  lemma WayUp(pages: Pages, rows: seq<seq<int>>, me: nat, cs: seq<Stack>, places: seq<nat>, mix: seq<nat>,
              ixs: seq<seq<nat>>, i: nat)
    requires Ways(pages, rows, me, cs, places, mix, ixs) && i < |cs| && cs[i].init
    ensures |ixs[i]| == |rows| && On(pages, rows[..|rows| - 1], cs[i], ixs[i][|rows| - 2])
  {
    hide Traces, Inside;
    TopTop(cs[i], |rows| - 1, |rows| - 2);
    assert i == me ==> Top(cs[i], |rows| - 1) == cs[i];
    UpperAt(pages, rows, Top(cs[i], |rows| - 1), ixs[i]);
  }

  lemma ParentAdmits(pages: Pages, lv: seq<seq<int>>, M: nat, p: nat, rp: Id)
    requires 1 <= M < |lv| - 1 && p <= |lv[M]| && Fresh(lv, rp) && Nodes(pages, rp) == []
    ensures Admissible(pages, lv, M, p, rp, false)
  {
  }

  /** The state after the parent has taken in the new page rp; n rows lead down to it. */
  ghost predicate ParentSplit(pages0: Pages, lv0: seq<seq<int>>, cs0: seq<Stack>, me: nat, top: nat, rp: Id, j: nat,
                              ixs: seq<seq<nat>>, db: Database, n: nat)
    reads db
  {
    && me < |cs0| == |ixs| && |cs0[me].pg| == |cs0[me].ki| == top + 1 && 0 < top < |lv0| - 1 && j < |lv0[top]|
    && HasSplit(pages0, lv0, cs0 + [Lifted(cs0[me])], db, |cs0|, top - 1, rp, false, UpperPlaces(ixs, top, j + 1), n)
    && Nodes(db.pages, rp) == []
  }

  lemma ParentRows(pages0: Pages, lv0: seq<seq<int>>, cs0: seq<Stack>, me: nat, top: nat, rp: Id, j: nat,
                   ixs: seq<seq<nat>>, db: Database, n: nat)
    requires ParentSplit(pages0, lv0, cs0, me, top, rp, j, ixs, db, n)
    ensures top + 1 <= n <= top + 2 && |db.lv| == db.depth + 1 == |lv0| + n - top - 1 >= n + 1
            && |db.cursors| == |cs0| + 1
    ensures db.lv[n - 1] == Inserted(lv0[top], j + 1, rp) && db.lv[n..] == lv0[top + 1..]
            && Tree(db.pages, db.root, db.lv) && MinKeys(db.pages, db.lv, {rp})
    ensures forall l :: top <= l < |lv0| - 1 ==> SameOn(pages0, db.pages, lv0[l])
    ensures db.WellFormed() && db.Spare()
    ensures |db.cursors[|cs0|].pg| == |db.cursors[|cs0|].ki| == n - 1
            && At(db.pages, db.lv[..n], db.cursors[|cs0|], j + 1)
    ensures forall i :: 0 <= i < |cs0| ==>
              db.cursors[i].init == cs0[i].init && db.cursors[i].eof == cs0[i].eof && db.cursors[i].del == cs0[i].del
              && (cs0[i].init ==> SameBelow(cs0[i], top, db.cursors[i], n - 1)
                                  && On(db.pages, db.lv[..n], db.cursors[i],
                                        Bump(if top < |ixs[i]| then ixs[i][top] else 0, j + 1)))
  {
    hide Joined, Nodes, Distinct, Rows, Traces, MinKeys, On, At, SameBelow, Inserted;
    assert db.lv[..n] + lv0[top + 1..] == db.lv;
    assert db.lv[..n][n - 1] == db.lv[n - 1];
    forall i | 0 <= i < |cs0|
      ensures db.cursors[i].init == cs0[i].init && db.cursors[i].eof == cs0[i].eof && db.cursors[i].del == cs0[i].del
      ensures cs0[i].init ==> SameBelow(cs0[i], top, db.cursors[i], n - 1)
                              && On(db.pages, db.lv[..n], db.cursors[i],
                                    Bump(if top < |ixs[i]| then ixs[i][top] else 0, j + 1))
    {
      assert (cs0 + [Lifted(cs0[me])])[i] == cs0[i];
    }
  }

  /** A stack that came through the parent's split, down to the row that is dealt out next. */
  lemma AfterParent(pages0: Pages, root0: Id, lv0: seq<seq<int>>, cs0: seq<Stack>, me: nat, top: nat, rp: Id,
                    places: seq<nat>, mix: seq<nat>, ixs: seq<seq<nat>>, db: Database, n: nat, i: nat)
    returns (ix1: seq<nat>)
    requires |mix| == top + 2 && ParentSplit(pages0, lv0, cs0, me, top, rp, mix[top], ixs, db, n)
             && Ways(pages0, lv0[..top + 2], me, cs0, places, mix, ixs)
    requires i < |cs0| && cs0[i].init
    ensures |ix1| == n + 1 && |db.lv| >= n + 1 && |db.cursors| == |cs0| + 1 && |ixs[i]| == top + 2
    ensures SameBelow(cs0[i], top, db.cursors[i], n - 1) && |cs0[i].pg| == |cs0[i].ki| > top
    ensures var c, c1 := cs0[i], db.cursors[i];
            && ix1[n] == ixs[i][top + 1] && ix1[n - 1] == Bump(ixs[i][top], mix[top] + 1)
            && |c1.pg| == |c1.ki| >= n && c1.pg[n - 1] == c.pg[top] && c1.ki[n - 1] == c.ki[top]
            && Traces(db.pages, db.lv[..n + 1], Top(c1, n), ix1)
            && Nodes(db.pages, c.pg[top]) == Nodes(pages0, c.pg[top])
            && mix[top] + 1 < |db.lv[n - 1]| && c.pg[top] != db.lv[n - 1][mix[top] + 1] && ixs[i][top] < |lv0[top]|
  {
    hide Joined, Nodes, Distinct, Rows, Traces, MinKeys, On, At, Inserted, Inside, ParentSplit;
    ParentRows(pages0, lv0, cs0, me, top, rp, mix[top], ixs, db, n);
    ParentEmpty(pages0, lv0, cs0, me, top, rp, mix[top], ixs, db, n);
    UpperTree(db.pages, db.root, db.lv, n + 1);
    var rows, rows1 := lv0[..top + 2], db.lv[..n + 1];
    assert rows1[..n] == db.lv[..n];
    assert i == me ==> Top(cs0[i], top + 1) == cs0[i];
    ix1 := Extended(pages0, root0, rows, cs0[i], ixs[i], mix[top], rp, db.pages, db.root, rows1, db.cursors[i]);
  }

  lemma ParentEmpty(pages0: Pages, lv0: seq<seq<int>>, cs0: seq<Stack>, me: nat, top: nat, rp: Id, j: nat,
                    ixs: seq<seq<nat>>, db: Database, n: nat)
    requires ParentSplit(pages0, lv0, cs0, me, top, rp, j, ixs, db, n)
    ensures Nodes(db.pages, rp) == [] && me < |cs0| && |cs0[me].pg| == |cs0[me].ki| == top + 1 && 0 < top < |lv0| - 1
            && j < |lv0[top]|
  {
  }

  lemma NearOther(pages0: Pages, root0: Id, lv0: seq<seq<int>>, cs0: seq<Stack>, me: nat, top: nat, rp: Id,
                  places: seq<nat>, mix: seq<nat>, ixs: seq<seq<nat>>, db: Database, n: nat, i: nat)
    requires |mix| == top + 2 && ParentSplit(pages0, lv0, cs0, me, top, rp, mix[top], ixs, db, n)
             && Ways(pages0, lv0[..top + 2], me, cs0, places, mix, ixs)
    requires i < |cs0| && cs0[i].init && i != me
    ensures |db.lv| >= n + 1 && |db.cursors| == |cs0| + 1
    ensures Near(db.pages, db.lv[..n + 1], mix[top], db.cursors[i], places[i])
            && SameBelow(cs0[i], top, db.cursors[i], n - 1) && |cs0[i].pg| > top
  {
    hide Joined, Nodes, Distinct, Rows, Traces, MinKeys, On, At, Inserted, ParentSplit;
    var ix1 := AfterParent(pages0, root0, lv0, cs0, me, top, rp, places, mix, ixs, db, n, i);
    ParentRows(pages0, lv0, cs0, me, top, rp, mix[top], ixs, db, n);
    ParentEmpty(pages0, lv0, cs0, me, top, rp, mix[top], ixs, db, n);
    assert |db.lv[n - 1]| == |lv0[top]| + 1;
    assert NearIx(db.pages, db.lv[..n + 1], mix[top], db.cursors[i], places[i], ix1);
  }

  /** The acting cursor and its copy are ready for the nodes to be dealt out. */
  lemma AfterParentMe(pages0: Pages, root0: Id, lv0: seq<seq<int>>, cs0: seq<Stack>, loose0: seq<Id>, next0: Id,
                      me: nat, top: nat, x: int, replace: bool, places: seq<nat>, mix: seq<nat>, rp: Id, s: nat,
                      ixs: seq<seq<nat>>, db: Database, n: nat) returns (mix1: seq<nat>, nix: seq<nat>)
    requires Before(pages0, root0, lv0, cs0, loose0, next0, me, top + 1, x, replace, places, mix, rp, s)
    requires |mix| == top + 2 && ParentSplit(pages0, lv0, cs0, me, top, rp, mix[top], ixs, db, n)
             && Ways(pages0, lv0[..top + 2], me, cs0, places, mix, ixs)
    requires top + 1 < |lv0| - 1 && !replace ==> Fresh(db.lv, x) && Nodes(db.pages, x) == []
    ensures |db.cursors| == |cs0| + 1 && |db.lv| >= n + 1 && |mix1| == n + 1 && mix1[n - 1] == mix[top]
    ensures var c, c1 := cs0[me], db.cursors[me];
            |c1.pg| == |c1.ki| == n && c1.pg[n - 1] == c.pg[top] && c1.ki[n - 1] == c.ki[top]
                && Nodes(db.pages, c.pg[top]) == Nodes(pages0, c.pg[top])
    ensures Dealable(db.pages, db.root, db.lv, n, db.cursors[me], places[me], mix1, x, replace, db.cursors[|cs0|], nix,
                     rp, s)
  {
    hide Joined, Nodes, Distinct, Rows, Traces, MinKeys, On, At, Inserted, ParentSplit;
    mix1 := AfterParent(pages0, root0, lv0, cs0, me, top, rp, places, mix, ixs, db, n, me);
    ParentRows(pages0, lv0, cs0, me, top, rp, mix[top], ixs, db, n);
    ParentEmpty(pages0, lv0, cs0, me, top, rp, mix[top], ixs, db, n);
    var j := mix[top];
    var c, c1, mn, rows := cs0[me], db.cursors[me], db.cursors[|cs0|], db.lv[..n + 1];
    assert |c1.pg[n - 1..]| == |c.pg[top..]| == 1;
    assert Top(c1, n) == c1;
    BumpAt(lv0[top], j + 1, rp, j);
    UpperTree(db.pages, db.root, db.lv, n + 1);
    UpperRows(db.pages, db.root, db.lv, n);
    AtInside(db.pages, db.root, db.lv[..n], mn, j + 1);
    nix := MakeLeads(db.pages, db.lv, mn, n, j + 1);
    assert db.lv[n] == db.lv[n..][0] == lv0[top + 1..][0] == lv0[top + 1];
  }

  lemma MakeLeads(pages: Pages, lv: seq<seq<int>>, mn: Stack, n: nat, j: nat) returns (nix: seq<nat>)
    requires 2 <= n < |lv| && At(pages, lv[..n], mn, j) && |mn.pg| == |mn.ki| == n - 1 && Inside(pages, mn)
    ensures Leads(pages, lv[..n + 1], mn, nix, n - 1, j)
  {
    hide Joined, Nodes;
    nix :| AtIx(pages, lv[..n], mn, j, nix);
    forall l | 0 <= l < n - 1
      ensures Link(pages, lv[..n + 1][l], nix[l], mn.pg[l], mn.ki[l], nix[l + 1]) && mn.ki[l] < |Nodes(pages, mn.pg[l])|
    {
      TraceLink(pages, lv[..n], mn, nix, l);
    }
  }

  /** The nodes are dealt out: everything the split has to establish. */
  lemma DeepHolds(pages0: Pages, lv0: seq<seq<int>>, cs0: seq<Stack>, me: nat, top: nat, x: int, replace: bool,
                  places: seq<nat>, rp: Id, s: nat, pages1: Pages, root1: Id, lv1: seq<seq<int>>, cs1: seq<Stack>,
                  n: nat, mix1: seq<nat>, nix: seq<nat>, db: Database, P: Id, mcki: nat)
    requires me < |cs0| == |places| && |cs1| == |cs0| + 1 && Admissible(pages0, lv0, top + 1, places[me], x, replace)
             && top + 2 <= n + 1 <= top + 3
    requires |lv1| == |lv0| + n - top - 1 && n < |lv1| && lv1[n..] == lv0[top + 1..]
    requires Dealable(pages1, root1, lv1, n, cs1[me], places[me], mix1, x, replace, cs1[|cs0|], nix, rp, s)
             && MinKeys(pages1, lv1, {rp})
    requires |mix1| == n + 1 && |cs1[me].pg| == |cs1[me].ki| == n && |cs1[|cs0|].pg| == |cs1[|cs0|].ki| == n - 1
    requires (forall l :: top < l < |lv0| - 1 ==> SameOn(pages0, pages1, lv0[l]))
             && (top + 1 < |lv0| - 1 ==> Nodes(pages1, x) == Nodes(pages0, x))
    requires Unused(lv1, db.loose, db.next) && (top + 1 < |lv0| - 1 && !replace ==> x < db.next && x !in db.loose)
    requires forall i :: 0 <= i < |cs0| ==>
               && |cs0[i].pg| == |cs0[i].ki| && |cs1[i].pg| == |cs1[i].ki| && cs1[i].init == cs0[i].init
               && cs1[i].eof == cs0[i].eof && cs1[i].del == cs0[i].del
               && (i != me && cs0[i].init ==>
                     Near(pages1, lv1[..n + 1], mix1[n - 1], cs1[i], places[i]) && SameBelow(cs0[i], top, cs1[i], n - 1)
                         && |cs0[i].pg| > top)
    requires var mc, mn := cs1[me], cs1[|cs0|];
             var mp, k := mc.pg[n - 1], mc.ki[n - 1];
             && (if replace then k < |Nodes(pages1, mp)| else k <= |Nodes(pages1, mp)|)
             && s < |PutInto(Nodes(pages1, mp), k, x, replace)|
             && db.pages == DealtPages(pages1, mp, rp, PutInto(Nodes(pages1, mp), k, x, replace), s)
             && |db.cursors| == |cs0| && db.cursors[me] == Poured(mc, n - 1, mp, rp, s, mn)
             && forall i :: 0 <= i < |cs0| && i != me ==>
                  db.cursors[i] == SplitFix(cs1[i], n - 1, mp, rp, k, replace, s, mn, true, P, mcki)
    requires db.depth + 1 == |lv1| && db.root == root1 && db.lv == lv1[n := PutInto(lv1[n], places[me], x, replace)]
    ensures HasSplit(pages0, lv0, cs0, db, me, top, x, replace, places, n + 1)
    ensures Adds(lv1, db.lv, if n == |lv1| - 1 || replace then {} else {x})
  {
    hide Joined, Nodes, Distinct, Rows, Traces, MinKeys, SplitFix, At, SameOn, Slot, On, Unused, Adds, Near, Poured,
         Dealable, SameBelow, Tree, Inserted, DealtPages;
    var mc, mn, p := cs1[me], cs1[|cs0|], places[me];
    var mp, k := mc.pg[n - 1], mc.ki[n - 1];
    var all := PutInto(Nodes(pages1, mp), k, x, replace);
    var rows := lv1[..n + 1][n := PutInto(lv1[n], p, x, replace)];
    assert lv1[n] == lv1[n..][0] == lv0[top + 1..][0] == lv0[top + 1];
    DeepSplit(pages1, root1, lv1, n, mc, p, mix1, x, replace, mn, nix, rp, s, mp, k, all, db.pages, rows);
    DealableIs(pages1, root1, lv1, n, mc, p, mix1, x, replace, mn, nix, rp, s);
    TailRows(lv0, top, lv1, n, db.lv, rows);
    DividedFrom(pages0, lv0, top, pages1, lv1, n, p, x, replace, db.pages, root1, rows);
    PouredShape(mc, n - 1, mp, rp, s, mn);
    forall i | 0 <= i < |cs0| && i != me
      ensures Follows(lv0[..top + 2], cs0[i], places[i], p, replace, db.pages, rows, db.cursors[i])
    {
      SplitFixShape(cs1[i], n - 1, mp, rp, k, replace, s, mn, true, P, mcki);
      if !cs0[i].init {
        Uninit(lv0[..top + 2], cs0[i], places[i], p, replace, db.pages, rows, db.cursors[i]);
      } else {
        DeepFollows(pages1, root1, lv1, n, mc, p, mix1, x, replace, mn, nix, rp, s, mp, k, all, db.pages, rows, P, mcki,
                    cs1[i], places[i]);
        BelowTwice(cs0[i], top, cs1[i], n - 1, db.cursors[i]);
      }
    }
    DealAdds(pages1, lv1, n, p, x, replace);
    UnusedAfter(lv1, db.lv, if n == |lv1| - 1 || replace then {} else {x}, db.loose, db.next);
    FollowShapes(lv0[..top + 2], me, cs0, places, p, replace, db.pages, rows, db.cursors);
  }

  lemma DealableIs(pages: Pages, root: Id, lv: seq<seq<int>>, M: nat, mc: Stack, p: nat, mix: seq<nat>, x: int,
                   replace: bool, mn: Stack, nix: seq<nat>, rp: Id, s: nat)
    requires Dealable(pages, root, lv, M, mc, p, mix, x, replace, mn, nix, rp, s)
    ensures Admissible(pages, lv, M, p, x, replace) && M >= 2
  {
  }

  lemma DealAdds(pages: Pages, lv: seq<seq<int>>, n: nat, p: nat, x: int, replace: bool)
    requires Admissible(pages, lv, n, p, x, replace)
    ensures Adds(lv, lv[n := PutInto(lv[n], p, x, replace)], if n == |lv| - 1 || replace then {} else {x})
  {
    AddsPut(lv, n, p, x, replace);
  }

  lemma TailRows(lv0: seq<seq<int>>, top: nat, lv1: seq<seq<int>>, n: nat, lv2: seq<seq<int>>, rows: seq<seq<int>>)
    requires n < |lv1| && top + 1 < |lv0| && lv1[n..] == lv0[top + 1..] && |rows| == n + 1
             && rows == lv1[..n + 1][n := rows[n]] && lv2 == lv1[n := rows[n]]
    ensures lv2[..n + 1] == rows && lv2 == rows + lv0[top + 2..] && lv1[n + 1..] == lv0[top + 2..]
  {
    assert lv1[n + 1..] == lv1[n..][1..] && lv0[top + 2..] == lv0[top + 1..][1..];
  }

  lemma DividedFrom(pages0: Pages, lv0: seq<seq<int>>, top: nat, pages1: Pages, lv1: seq<seq<int>>, n: nat, p: nat,
                    x: int, replace: bool, pages2: Pages, root2: Id, rows: seq<seq<int>>)
    requires Admissible(pages0, lv0, top + 1, p, x, replace) && Admissible(pages1, lv1, n, p, x, replace)
             && Divided(pages1, lv1, n, p, x, replace, pages2, root2, rows)
    requires |lv1| == |lv0| + n - top - 1 && lv1[n..] == lv0[top + 1..] && lv1[n + 1..] == lv0[top + 2..]
    requires (forall l :: top < l < |lv0| - 1 ==> SameOn(pages0, pages1, lv0[l]))
             && (top + 1 < |lv0| - 1 ==> Nodes(pages1, x) == Nodes(pages0, x))
    ensures Divided(pages0, lv0, top + 1, p, x, replace, pages2, root2, rows)
  {
    hide Joined, Nodes, Tree, MinKeys;
    assert lv1[n] == lv1[n..][0] == lv0[top + 1..][0] == lv0[top + 1];
    forall l | top + 1 <= l < |lv0| - 1 ensures SameOn(pages0, pages2, lv0[l]) {
      assert lv1[n..][l - top - 1] == lv1[n + l - top - 1] == lv0[l];
      assert SameOn(pages1, pages2, lv1[n + l - top - 1]);
    }
  }

  /** A page that is in no row may be cleared. */
  lemma FullAside(pages: Pages, pages': Pages, root: Id, lv: seq<seq<int>>, cs: seq<Stack>, me: nat, M: nat, x: int,
                  replace: bool, places: seq<nat>, mix: seq<nat>, id: Id)
    requires Full(pages, root, lv, cs, me, M, x, replace, places, mix) && Fresh(lv, id) && pages' == pages[id := []]
    ensures Full(pages', root, lv, cs, me, M, x, replace, places, mix)
  {
    hide Joined, Nodes, Distinct, Traces;
    NewNodes(pages, id, []);
    forall l | 0 <= l < |lv| - 1 ensures SameOn(pages, pages', lv[l]) && Joined(pages', lv[l]) == Joined(pages, lv[l]) {
      JoinedSame(pages, pages', lv[l]);
    }
    var rows := lv[..M + 1];
    SameTraces(pages, pages', rows, cs[me], mix);
    forall i | 0 <= i < |cs| && i != me && cs[i].init ensures On(pages', rows, cs[i], places[i]) {
      assert On(pages, rows, cs[i], places[i]);
      var c := Top(cs[i], |rows| - 1);
      var ix :| AtIx(pages, rows, c, places[i], ix);
      SameTraces(pages, pages', rows, c, ix);
      assert AtIx(pages', rows, c, places[i], ix);
    }
  }

  lemma FullRest(pages: Pages, root: Id, lv: seq<seq<int>>, cs: seq<Stack>, me: nat, M: nat, x: int, replace: bool,
                 places: seq<nat>, mix: seq<nat>)
    requires Full(pages, root, lv, cs, me, M, x, replace, places, mix)
    ensures me < |cs| && |cs[me].pg| == |cs[me].ki| == M >= 1
            && (replace ==> cs[me].ki[M - 1] < |Nodes(pages, cs[me].pg[M - 1])|)
  {
    hide Joined, Nodes, Distinct, Traces;
  }

  /** The other cursors, before the nodes are dealt out. */
  ghost predicate AllNear(cs0: seq<Stack>, me: nat, top: nat, places: seq<nat>, pages1: Pages, lv1: seq<seq<int>>,
                          cs1: seq<Stack>, n: nat, j: nat) {
    && |cs1| == |cs0| + 1 && |places| == |cs0| && n < |lv1| && n >= 1
    && forall i :: 0 <= i < |cs0| ==>
         && |cs0[i].pg| == |cs0[i].ki| && |cs1[i].pg| == |cs1[i].ki|
         && cs1[i].init == cs0[i].init && cs1[i].eof == cs0[i].eof && cs1[i].del == cs0[i].del
         && (i != me && cs0[i].init ==>
               Near(pages1, lv1[..n + 1], j, cs1[i], places[i]) && SameBelow(cs0[i], top, cs1[i], n - 1)
                   && |cs0[i].pg| > top)
  }

  /** The parent has taken in the new page, to which the last cursor leads, and
      every cursor has been adjusted; n rows lead down to the new page. */
  ghost predicate ParentDone(pages0: Pages, lv0: seq<seq<int>>, cs0: seq<Stack>, me: nat, top: nat, x: int,
                             replace: bool, places: seq<nat>, mix: seq<nat>, rp: Id, s: nat, pages1: Pages, root1: Id,
                             lv1: seq<seq<int>>, cs1: seq<Stack>, n: nat, mix1: seq<nat>, nix: seq<nat>) {
    && 0 < top < |lv0| - 1 && me < |cs0| == |places| && |mix| == top + 2 && mix[top] < |lv0[top]|
    && |cs0[me].pg| == |cs0[me].ki| == top + 1 && lv0[top][mix[top]] == cs0[me].pg[top] && Distinct(lv0)
    && Admissible(pages0, lv0, top + 1, places[me], x, replace)
    && top + 1 <= n <= top + 2 && |lv1| == |lv0| + n - top - 1 && n < |lv1| && lv1[n..] == lv0[top + 1..]
    && |cs1| == |cs0| + 1
    && lv1[n - 1] == Inserted(lv0[top], mix[top] + 1, rp) && Tree(pages1, root1, lv1) && MinKeys(pages1, lv1, {rp})
    && (forall l :: top <= l < |lv0| - 1 ==> SameOn(pages0, pages1, lv0[l]))
    && (top + 1 < |lv0| - 1 ==> Nodes(pages1, x) == Nodes(pages0, x))
    && AllNear(cs0, me, top, places, pages1, lv1, cs1, n, mix[top]) && |mix1| == n + 1 && mix1[n - 1] == mix[top]
    && |cs1[me].pg| == |cs1[me].ki| == n && |cs1[|cs0|].pg| == |cs1[|cs0|].ki| == n - 1
    && cs1[me].pg[n - 1] == cs0[me].pg[top] && cs1[me].ki[n - 1] == cs0[me].ki[top]
    && Nodes(pages1, cs0[me].pg[top]) == Nodes(pages0, cs0[me].pg[top])
    && Dealable(pages1, root1, lv1, n, cs1[me], places[me], mix1, x, replace, cs1[|cs0|], nix, rp, s)
  }

  lemma ParentIsDone(pages0: Pages, root0: Id, lv0: seq<seq<int>>, cs0: seq<Stack>, loose0: seq<Id>, next0: Id, me: nat,
                     top: nat, x: int, replace: bool, places: seq<nat>, mix: seq<nat>, rp: Id, s: nat,
                     ixs: seq<seq<nat>>, db: Database, n: nat) returns (mix1: seq<nat>, nix: seq<nat>)
    requires Before(pages0, root0, lv0, cs0, loose0, next0, me, top + 1, x, replace, places, mix, rp, s) && top > 0
    requires |mix| == top + 2 && ParentSplit(pages0, lv0, cs0, me, top, rp, mix[top], ixs, db, n)
             && Ways(pages0, lv0[..top + 2], me, cs0, places, mix, ixs)
    requires top + 1 < |lv0| - 1 && !replace ==>
               Fresh(db.lv, x) && Nodes(db.pages, x) == [] && Nodes(db.pages, x) == Nodes(pages0, x)
    ensures ParentDone(pages0, lv0, cs0, me, top, x, replace, places, mix, rp, s, db.pages, db.root, db.lv, db.cursors,
                       n, mix1, nix)
    ensures db.WellFormed() && db.Spare() && 0 < n < |db.lv| == db.depth + 1
  {
    hide Joined, Nodes, Distinct, Rows, Traces, MinKeys, At, SameOn, Slot, On, Admissible, Before, HasSplit, Unused,
         Tree, Inserted, Ways, Near, Dealable, SameBelow, ParentSplit;
    ParentAbove(pages0, root0, lv0, cs0, loose0, next0, me, top + 1, x, replace, places, mix, rp, s);
    BeforeParent(pages0, root0, lv0, cs0, loose0, next0, me, top + 1, x, replace, places, mix, rp, s);
    mix1, nix := AfterParentMe(pages0, root0, lv0, cs0, loose0, next0, me, top, x, replace, places, mix, rp, s, ixs, db,
                               n);
    ParentRows(pages0, lv0, cs0, me, top, rp, mix[top], ixs, db, n);
    InsertedSame(pages0, db.pages, lv0, top + 1, places[me], x, replace);
    forall i | 0 <= i < |cs0| && i != me && cs0[i].init
      ensures Near(db.pages, db.lv[..n + 1], mix[top], db.cursors[i], places[i])
              && SameBelow(cs0[i], top, db.cursors[i], n - 1) && |cs0[i].pg| > top
    {
      NearOther(pages0, root0, lv0, cs0, me, top, rp, places, mix, ixs, db, n, i);
    }
  }

  /** The parent is split, to take in the new page; the last cursor is mn. */
  method SplitParent(db: Database, me: nat, top: nat, x: int, replace: bool, rp: Id, split: nat, ghost places: seq<nat>,
                     ghost mix: seq<nat>, ghost up: seq<nat>, ghost c: nat, ghost ks: seq<int>)
    returns (ghost n: nat, ghost mix1: seq<nat>, ghost nix: seq<nat>)
    requires Before(db.pages, db.root, db.lv, db.cursors, db.loose, db.next, me, top + 1, x, replace, places, mix, rp,
                    split)
    requires top > 0 && db.depth + 1 == |db.lv| && db.Sized()
             && !db.sizes.room(db.keys, Nodes(db.pages, db.cursors[me].pg[top - 1]), rp)
    requires (top + 1 < db.depth && !replace ==> db.Reserved(x) && x != rp) && KeysReady(db, top, rp, up, c, ks)
    requires me < |db.cursors| && db.Writable(db.cursors[me], top + 1) && db.first <= rp
    modifies db
    ensures db.Intact()
    ensures ParentDone(old(db.pages), old(db.lv), old(db.cursors), me, top, x, replace, places, mix, rp, split,
                       db.pages, db.root, db.lv, db.cursors, n, mix1, nix)
    ensures db.WellFormed() && db.Spare() && |db.lv| == db.depth + 1 && |up| == |old(db.lv)[top]|
    ensures 0 < n < |db.lv| && mix[top] + 1 <= |up|
            && KeyedTo(db.pages, db.lv, n - 1, Inserted(up, mix[top] + 1, c), db.keys, ks)
    ensures KeysKept(old(db.lv), top, old(db.keys), db.keys)
            && forall y :: old(db.Reserved(y)) ==> KeyOf(db.keys, y) == KeyOf(old(db.keys), y)
    ensures forall y :: old(db.Reserved(y)) && y != rp ==>
              Nodes(db.pages, y) == Nodes(old(db.pages), y) && db.Reserved(y)
    decreases top, 0
  {
    hide Joined, Nodes, Distinct, Rows, Traces, MinKeys, At, PutInto, SameOn, Slot, On, Admissible, Before, HasSplit,
         Unused, Tree, Inserted, CanSplit, Ways, Near, Dealable, SameBelow, Database.Sized, KeyedTo, RowKeyed, Parts,
         KeyOf, CanKey, KeysKept, KeysDone, CutsUp, OthersOn, AllNear, ParentDone;
    ghost var pages0, root0, lv0, cs0, loose0, next0, keys0 :=
        db.pages, db.root, db.lv, db.cursors, db.loose, db.next, db.keys;
    BeforeParent(pages0, root0, lv0, cs0, loose0, next0, me, top + 1, x, replace, places, mix, rp, split);
    ghost var ixs := WaysBefore(pages0, root0, lv0, cs0, loose0, next0, me, top + 1, x, replace, places, mix, rp,
                                split);
    db.cursors := db.cursors + [Lifted(db.cursors[me])];
    ParentReady(db, cs0, me, top, x, replace, places, mix, rp, split, ixs);
    ParentAbove(pages0, root0, lv0, cs0, loose0, next0, me, top + 1, x, replace, places, mix, rp, split);
    ParentCanKey(db, cs0, me, top, mix, rp, up, c, ks, ixs);
    ghost var marks := Marks(CutsUp(db.pages, db.lv[top - 1], up), up, c, ks);
    label Parent:
    n := Split(db, |db.cursors| - 1, top - 1, rp, false, UpperPlaces(ixs, top, mix[top] + 1),
               mix[..top] + [mix[top] + 1], marks);
    ParentKeys(lv0, top, db, mix[top] + 1, marks, n);
    KeysKeptBelow(lv0, top, keys0, db.keys);
    forall y | old(db.Reserved(y))
      ensures KeyOf(db.keys, y) == KeyOf(keys0, y)
              && (y != rp ==> Nodes(db.pages, y) == Nodes(pages0, y) && db.Reserved(y))
    {
      assert old@Parent(db.Reserved(y));
    }
    mix1, nix := ParentIsDone(pages0, root0, lv0, cs0, loose0, next0, me, top, x, replace, places, mix, rp, split, ixs,
                              db, n);
  }

  /** The check whether the left page has changed its parent, too, fails for a
      cursor that is tracked: the split of the parent has adjusted it. */
  lemma LeftParentFound(pages: Pages, root: Id, lv: seq<seq<int>>, M: nat, mc: Stack, p: nat, mix: seq<nat>, x: int,
                        replace: bool, mn: Stack, nix: seq<nat>, rp: Id, s: nat)
    requires Dealable(pages, root, lv, M, mc, p, mix, x, replace, mn, nix, rp, s) && |mc.pg| == |mc.ki| == M
    ensures M >= 2 && mc.ki[M - 2] < |Nodes(pages, mc.pg[M - 2])|
  {
    hide Joined, Nodes, Distinct, Rows, Traces, Leads;
    TraceLink(pages, lv[..M + 1], mc, mix, M - 2);
  }

  /** What DealOut leaves. */
  ghost predicate DealtOut(pages1: Pages, lv1: seq<seq<int>>, cs1: seq<Stack>, db: Database, me: nat, n: nat, x: int,
                           replace: bool, p: nat, rp: Id, s: nat, mn: Stack)
    reads db
  {
    && me < |cs1| && |cs1[me].pg| == |cs1[me].ki| == n >= 2 && n < |lv1| && |mn.pg| == |mn.ki| == n - 1
    && var mc := cs1[me];
    var mp, k := mc.pg[n - 1], mc.ki[n - 1];
    && (if replace then k < |Nodes(pages1, mp)| else k <= |Nodes(pages1, mp)|)
    && 1 <= s < |PutInto(Nodes(pages1, mp), k, x, replace)|
    && (if replace then p < |lv1[n]| else p <= |lv1[n]|)
    && db.pages == DealtPages(pages1, mp, rp, PutInto(Nodes(pages1, mp), k, x, replace), s)
    && db.lv == lv1[n := PutInto(lv1[n], p, x, replace)]
    && |db.cursors| == |cs1| && db.cursors[me] == Poured(mc, n - 1, mp, rp, s, mn)
    && forall i :: 0 <= i < |cs1| && i != me ==>
         |cs1[i].pg| == |cs1[i].ki| && db.cursors[i] ==
             SplitFix(cs1[i], n - 1, mp, rp, k, replace, s, mn, true, mc.pg[n - 2], mc.ki[n - 2])
  }

  /** The nodes are dealt out: what the whole split leaves. */
  lemma DeepDone(pages0: Pages, lv0: seq<seq<int>>, cs0: seq<Stack>, me: nat, top: nat, x: int, replace: bool,
                 places: seq<nat>, mix: seq<nat>, rp: Id, s: nat, pages1: Pages, root1: Id, lv1: seq<seq<int>>,
                 cs1: seq<Stack>, n: nat, mix1: seq<nat>, nix: seq<nat>, db: Database, up: seq<nat>, c: nat,
                 ks: seq<int>)
    requires ParentDone(pages0, lv0, cs0, me, top, x, replace, places, mix, rp, s, pages1, root1, lv1, cs1, n, mix1,
                        nix)
    requires DealtOut(pages1, lv1, cs1[..|cs0|], db, me, n, x, replace, places[me], rp, s, cs1[|cs0|])
    requires db.depth + 1 == |lv1| && db.root == root1 && Unused(lv1, db.loose, db.next)
    requires top + 1 < |lv0| - 1 && !replace ==> x < db.next && x !in db.loose
    requires |up| == |lv0[top]| && KeyedTo(pages1, lv1, n - 1, Inserted(up, mix[top] + 1, c), db.keys, ks)
    ensures KeysSet(pages0, lv0, cs0, db, me, top, x, replace, mix, rp, s, up, c, ks, n + 1)
    ensures HasSplit(pages0, lv0, cs0, db, me, top, x, replace, places, n + 1)
    ensures forall y :: Fresh(lv1, y) && (y != x || n == |lv1| - 1 || replace) ==> Fresh(db.lv, y)
    ensures forall y :: y != cs0[me].pg[top] && y != rp ==> Nodes(db.pages, y) == Nodes(pages1, y)
  {
    hide Joined, Nodes, Distinct, Rows, Traces, MinKeys, SplitFix, At, PutInto, SameOn, Slot, On, Admissible, HasSplit,
         Unused, Adds, Tree, Inserted, Near, Dealable, Poured, SameBelow, KeyedTo, TornInto, DealtPages;
    var mp := cs0[me].pg[top];
    var all := PutInto(Nodes(pages1, mp), cs0[me].ki[top], x, replace);
    DeepHolds(pages0, lv0, cs0, me, top, x, replace, places, rp, s, pages1, root1, lv1, cs1, n, mix1, nix, db,
              cs1[me].pg[n - 2], cs1[me].ki[n - 2]);
    AddsFresh(lv1, db.lv, if n == |lv1| - 1 || replace then {} else {x});
    DealtSame(pages1, mp, rp, db.pages);
    DeepKeyed(pages0, lv0, top, mix[top], pages1, root1, lv1, n, rp, mp, all, s, db, up, c, ks);
  }

  /** The parent is split first, to take in the new page. */
  method SplitDeep(db: Database, me: nat, top: nat, x: int, replace: bool, rp: Id, split: nat, ghost places: seq<nat>,
                   ghost mix: seq<nat>, ghost up: seq<nat>, ghost c: nat, ghost ks: seq<int>) returns (ghost n: nat)
    requires Before(db.pages, db.root, db.lv, db.cursors, db.loose, db.next, me, top + 1, x, replace, places, mix, rp,
                    split)
    requires top > 0 && db.depth + 1 == |db.lv| && db.Sized()
             && !db.sizes.room(db.keys, Nodes(db.pages, db.cursors[me].pg[top - 1]), rp)
    requires (top + 1 < db.depth && !replace ==> db.Reserved(x) && x != rp) && KeysReady(db, top, rp, up, c, ks)
    requires me < |db.cursors| && db.Writable(db.cursors[me], top + 1) && db.first <= rp
    modifies db
    ensures db.Intact()
    ensures KeysSet(old(db.pages), old(db.lv), old(db.cursors), db, me, top, x, replace, mix, rp, split, up, c, ks, n)
    ensures KeysKept(old(db.lv), top, old(db.keys), db.keys)
            && forall y :: old(db.Reserved(y)) ==> KeyOf(db.keys, y) == KeyOf(old(db.keys), y)
    ensures HasSplit(old(db.pages), old(db.lv), old(db.cursors), db, me, top, x, replace, places, n)
    ensures forall y :: old(db.Reserved(y)) && y != rp ==>
              Nodes(db.pages, y) == Nodes(old(db.pages), y) && (y != x || top + 1 == old(db.depth) ==> db.Reserved(y))
    decreases top, 1
  {
    hide Joined, Nodes, Distinct, Rows, Traces, MinKeys, At, PutInto, SameOn, Slot, On, Admissible, Before, HasSplit,
         Unused, Tree, Inserted, Near, Dealable, SameBelow, Database.Sized, KeyedTo, RowKeyed, Parts, KeyOf, KeysKept,
         KeysReady, KeysSet, TornInto, AllNear, DealtOut, Fresh;
    ghost var pages0, lv0, cs0 := db.pages, db.lv, db.cursors;
    ghost var mix1, nix;
    n, mix1, nix := SplitParent(db, me, top, x, replace, rp, split, places, mix, up, c, ks);
    ghost var pages1, root1, lv1, cs1 := db.pages, db.root, db.lv, db.cursors;
    label Parent:
    var mn := db.cursors[|db.cursors| - 1];
    db.cursors := db.cursors[..|db.cursors| - 1];
    var mc := db.cursors[me];
    var ptop := |mc.pg| - 2;
    LeftParentFound(pages1, root1, lv1, n, mc, places[me], mix1, x, replace, mn, nix, rp, split);
    if mn.pg[ptop] != mc.pg[ptop] && mc.ki[ptop] >= |Nodes(db.pages, mc.pg[ptop])| {
      assert false;
    }
    DealOut(db, me, x, replace, rp, split, mn, places[me], mix1, nix, n);
    DeepDone(pages0, lv0, cs0, me, top, x, replace, places, mix, rp, split, pages1, root1, lv1, cs1, n, mix1, nix, db,
             up, c, ks);
    forall y | old(db.Reserved(y)) && y != rp
      ensures Nodes(db.pages, y) == Nodes(pages0, y) && (y != x || top + 1 == old(db.depth) ==> db.Reserved(y))
    {
      assert old@Parent(db.Reserved(y));
      NotFresh(lv0, top, mix[top], y);
    }
    n := n + 1;
  }

  lemma NotFresh(lv: seq<seq<int>>, l: nat, i: nat, y: Id)
    requires Fresh(lv, y) && l < |lv| - 1 && i < |lv[l]|
    ensures lv[l][i] != y
  {
  }

  /** The acting cursor goes on to the page that has got the new node. */
  method LandMe(pages: Pages, mc: Stack, mn: Stack, rp: Id, split: nat, ki: nat) returns (m: Stack)
    requires |mc.pg| == |mc.ki| >= 2 && |mn.pg| == |mn.ki| >= |mc.pg| - 1
    requires var k := mc.ki[|mc.ki| - 1]; ki == if k < split then k else k - split
    ensures m == LandedDeep(pages, mc, mn, rp, split)
  {
    m := mc;
    var top := |mc.pg| - 1;
    var ptop := top - 1;
    if mc.ki[top] < split {
      m := m.(ki := m.ki[top := ki]);
      assert m.ki == mc.ki;
    } else {
      m := m.(pg := m.pg[top := rp], ki := m.ki[ptop := m.ki[ptop] + 1][top := ki]);
      if mn.pg[ptop] != m.pg[ptop] && m.ki[ptop] >= |Nodes(pages, m.pg[ptop])| {
        m := m.(pg := mn.pg[..top] + m.pg[top..], ki := mn.ki[..top] + m.ki[top..]);
      }
    }
  }

  /** The end of mdb_page_split after the parent was split. */
  method DealOut(db: Database, me: nat, x: int, replace: bool, rp: Id, split: nat, mn: Stack, ghost p: nat,
                 ghost mix: seq<nat>, ghost nix: seq<nat>, ghost n: nat)
    requires me < |db.cursors| && db.WellFormed() && |db.cursors[me].pg| == n >= 2 && |mix| == n + 1
             && |mn.pg| == |mn.ki| == n - 1
    requires db.depth + 1 == |db.lv| > n
             && Dealable(db.pages, db.root, db.lv, n, db.cursors[me], p, mix, x, replace, mn, nix, rp, split)
    requires db.Intact() && db.first <= db.cursors[me].pg[n - 1] && db.first <= rp
    modifies db`pages, db`cursors, db`lv
    ensures db.Intact()
    ensures DealtOut(old(db.pages), old(db.lv), old(db.cursors), db, me, n, x, replace, p, rp, split, mn)
  {
    hide Joined, Nodes, Distinct, Rows, Traces, SplitFix, PutInto, Slot, Admissible, Tree, Inserted, Dealable, Poured,
         LandedDeep;
    var mc := db.cursors[me];
    var top := |mc.pg| - 1;
    var ptop := top - 1;
    var mp, newindx := mc.pg[top], mc.ki[top];
    ghost var pages1, lv1 := db.pages, db.lv;
    DealableRest(pages1, db.root, lv1, n, mc, p, mix, x, replace, mn, nix, rp, split);
    var left, right, ki := Deal(Nodes(db.pages, mp), newindx, x, replace, split);
    ApartEdit(db.base, db.first, db.pages, db.loose, db.next, db.dirty, rp, right);
    ApartEdit(db.base, db.first, db.pages[rp := right], db.loose, db.next, db.dirty, mp, left);
    db.pages := db.pages[rp := right][mp := left];
    TwoPages(pages1, mp, rp, right, left);
    DealableLands(pages1, db.root, lv1, n, mc, p, mix, x, replace, mn, nix, rp, split, db.pages);
    SplitOthers(db, me, top, mp, rp, newindx, replace, split, mn, true, mc.pg[ptop], mc.ki[ptop]);
    var m := LandMe(db.pages, mc, mn, rp, split, ki);
    db.cursors := db.cursors[me := m];
    db.lv := db.lv[n := PutInto(db.lv[n], p, x, replace)];
  }

  lemma DealtSame(pages: Pages, mp: Id, rp: Id, pages': Pages)
    requires exists all: seq<int>, s: nat :: s <= |all| && pages' == DealtPages(pages, mp, rp, all, s)
    ensures forall y :: y != mp && y != rp ==> Nodes(pages', y) == Nodes(pages, y)
  {
  }

  lemma InsertedSame(pages: Pages, pages': Pages, lv: seq<seq<int>>, M: nat, p: nat, x: int, replace: bool)
    requires Admissible(pages, lv, M, p, x, replace) && forall l :: M <= l < |lv| - 1 ==> SameOn(pages, pages', lv[l])
    requires M < |lv| - 1 && !replace ==> Nodes(pages', x) == Nodes(pages, x)
    ensures M < |lv| - 1 ==> Nodes(pages', x) == Nodes(pages, x)
  {
    hide Nodes;
  }

  lemma TwoPages(pages: Pages, mp: Id, rp: Id, a: seq<int>, b: seq<int>)
    ensures Only(pages, pages[rp := a][mp := b], {mp, rp})
  {
  }

  lemma DealableRest(pages: Pages, root: Id, lv: seq<seq<int>>, M: nat, mc: Stack, p: nat, mix: seq<nat>, x: int,
                     replace: bool, mn: Stack, nix: seq<nat>, rp: Id, s: nat)
    requires Dealable(pages, root, lv, M, mc, p, mix, x, replace, mn, nix, rp, s) && |mc.pg| == |mc.ki| == M
             && |mix| == M + 1
    ensures var N, k := Nodes(pages, mc.pg[M - 1]), mc.ki[M - 1];
            && (if replace then k < |N| else k <= |N|) && 1 <= s <= |N| - (if replace then 1 else 0)
            && s < |PutInto(N, k, x, replace)|
            && (if replace then p < |lv[M]| else p <= |lv[M]|)
  {
    hide Joined, Nodes, Distinct, Rows, Traces, Leads;
    LinkedPage(pages, root, lv[..M + 1], mc, p, mix, replace, mn, nix);
  }

  lemma DealableLands(pages: Pages, root: Id, lv: seq<seq<int>>, M: nat, mc: Stack, p: nat, mix: seq<nat>, x: int,
                      replace: bool, mn: Stack, nix: seq<nat>, rp: Id, s: nat, pages': Pages)
    requires Dealable(pages, root, lv, M, mc, p, mix, x, replace, mn, nix, rp, s) && |mc.pg| == |mc.ki| == M
             && |mix| == M + 1 && |mn.pg| == |mn.ki| == M - 1
    requires Only(pages, pages', {mc.pg[M - 1], rp})
    ensures LandedDeep(pages', mc, mn, rp, s) == Poured(mc, M - 1, mc.pg[M - 1], rp, s, mn)
  {
    hide Joined, Nodes, Distinct, Rows, Traces, Leads, LandedDeep, Poured;
    var rows, L := lv[..M + 1], M - 1;
    LinkedPage(pages, root, rows, mc, p, mix, replace, mn, nix);
    TraceLink(pages, rows, mc, mix, L - 1);
    Places(rows, L, mix[L], L - 1, mix[L - 1]);
    Places(rows, L, mix[L] + 1, L - 1, mix[L - 1]);
    LandedDeepIs(pages, root, rows, mc, p, mix, replace, mn, nix, pages', rp, s);
  }

  lemma ParentAbove(pages: Pages, root: Id, lv: seq<seq<int>>, cs: seq<Stack>, loose: seq<Id>, next: Id, me: nat,
                    M: nat, x: int, replace: bool, places: seq<nat>, mix: seq<nat>, rp: Id, s: nat)
    requires Before(pages, root, lv, cs, loose, next, me, M, x, replace, places, mix, rp, s) && M >= 2
    ensures |mix| == M + 1 && 2 <= M < |lv| && mix[M - 2] < |lv[M - 2]| && mix[M - 1] < |lv[M - 1]| && me < |cs|
            && |cs[me].pg| == M && lv[M - 1][mix[M - 1]] == cs[me].pg[M - 1]
    ensures Distinct(lv)
  {
    hide Joined, Nodes, Distinct, Rows, Traces, MinKeys, On;
    WithParent(pages, root, lv, M, cs[me], places[me], mix, x, replace, rp, s);
  }

  /** The keys for the split of the parent. */
  lemma ParentCanKey(db: Database, cs0: seq<Stack>, me: nat, top: nat, mix: seq<nat>, rp: Id, up: seq<nat>, c: nat,
                     ks: seq<int>, ixs: seq<seq<nat>>)
    requires me < |cs0| == |ixs| && |cs0[me].pg| == |cs0[me].ki| == top + 1 && top > 0 && |mix| == top + 2
             && top + 1 < |db.lv|
    requires db.cursors == cs0 + [Lifted(cs0[me])] && KeysReady(db, top, rp, up, c, ks)
             && mix[top - 1] < |db.lv[top - 1]| && mix[top] < |db.lv[top]|
    ensures CanKey(db, |cs0|, top - 1, rp, false, UpperPlaces(ixs, top, mix[top] + 1), mix[..top] + [mix[top] + 1],
                   Marks(CutsUp(db.pages, db.lv[top - 1], up), up, c, ks))
  {
    hide Joined, Nodes, RowKeyed, Parts, KeyOf;
  }

  lemma ParentKeys(lv0: seq<seq<int>>, top: nat, db: Database, p: nat, m: Marks, n: nat)
    requires 0 < top < |lv0| - 1 && KeysDone(lv0, db, top - 1, p, false, m, n)
    ensures n - 1 < |db.lv| && n >= 1 && p <= |m.cuts|
            && KeyedTo(db.pages, db.lv, n - 1, Inserted(m.cuts, p, m.cx), db.keys, m.ks)
  {
  }

  lemma KeysKeptBelow(lv: seq<seq<int>>, top: nat, keys: Keys, keys': Keys)
    requires top > 0 && KeysKept(lv, top - 1, keys, keys')
    ensures KeysKept(lv, top, keys, keys')
  {
  }

  /** Dealing the nodes out leaves the keys above right. */
  lemma DeepKeyed(pages0: Pages, lv0: seq<seq<int>>, top: nat, j: nat, pages1: Pages, root1: Id, lv1: seq<seq<int>>,
                  n: nat, rp: Id, mp: Id, all: seq<int>, s: nat, db: Database, up: seq<nat>, c: nat, ks: seq<int>)
    requires Tree(pages1, root1, lv1) && 2 <= n < |lv1| && top < |lv0| - 1 && j < |lv0[top]| && |up| == |lv0[top]|
             && Distinct(lv0)
    requires lv1[n - 1] == Inserted(lv0[top], j + 1, rp) && mp == lv0[top][j] && SameOn(pages0, pages1, lv0[top])
    requires 1 <= s < |all| && db.pages == DealtPages(pages1, mp, rp, all, s)
    requires |db.lv| == |lv1| && forall l :: 0 <= l < n ==> db.lv[l] == lv1[l]
    requires KeyedTo(pages1, lv1, n - 1, Inserted(up, j + 1, c), db.keys, ks)
    ensures KeyedTo(db.pages, db.lv, n - 1, Inserted(up, j + 1, c), db.keys, ks)
            && TornInto(pages0, lv0[top], j, rp, all, s, db.pages)
  {
    hide Joined, Nodes, Distinct, Rows, KeyedTo, KeyOf;
    BumpAt(lv0[top], j + 1, rp, j);
    Places(lv1, n - 1, j, n - 1, j + 1);
    DealtNodes(pages1, mp, rp, all, s);
    forall l, i | 0 <= l < n - 1 && 0 <= i < |lv1[l]| ensures lv1[l][i] != mp && lv1[l][i] != rp {
      Places(lv1, l, i, n - 1, j);
      Places(lv1, l, i, n - 1, j + 1);
    }
    forall l | 0 <= l < n - 1 ensures SameOn(pages1, db.pages, lv1[l]) {
    }
    forall l | 1 <= l <= n - 1 ensures SameKeys(db.keys, db.keys, lv1[l]) {
    }
    KeyedSame(pages1, root1, lv1, db.pages, db.lv, n - 1, Inserted(up, j + 1, c), db.keys, db.keys, ks);
    forall i | 0 <= i < |lv0[top]| && i != j
      ensures Nodes(db.pages, lv0[top][i]) == Nodes(pages0, lv0[top][i]) && lv0[top][i] != mp
    {
      Places(lv0, top, i, top, j);
      BumpAt(lv0[top], j + 1, rp, i);
      Places(lv1, n - 1, Bump(i, j + 1), n - 1, j + 1);
    }
  }

  lemma DealtNodes(pages: Pages, mp: Id, rp: Id, all: seq<int>, s: nat)
    requires s <= |all| && mp != rp
    ensures var pages' := DealtPages(pages, mp, rp, all, s);
            Nodes(pages', mp) == all[..s] && Nodes(pages', rp) == all[s..]
                && forall y :: y != mp && y != rp ==> Nodes(pages', y) == Nodes(pages, y)
  {
  }

  lemma WaysBefore(pages: Pages, root: Id, lv: seq<seq<int>>, cs: seq<Stack>, loose: seq<Id>, next: Id, me: nat, M: nat,
                   x: int, replace: bool, places: seq<nat>, mix: seq<nat>, rp: Id, s: nat) returns (ixs: seq<seq<nat>>)
    requires Before(pages, root, lv, cs, loose, next, me, M, x, replace, places, mix, rp, s) && M >= 2
    ensures Ways(pages, lv[..M + 1], me, cs, places, mix, ixs) && |ixs| == |cs|
  {
    hide Joined, Nodes, Distinct, Traces, On, Inside;
    ixs := FindWays(pages, lv[..M + 1], me, cs, places, mix);
  }

  /** No other node leads to the page that comes in. */
  lemma SplitOthersKeep(pages: Pages, root: Id, lv: seq<seq<int>>, top: nat, j: nat, k: nat, x: int, replace: bool,
                        keys: Keys, keys': Keys)
    requires Tree(pages, root, lv) && top + 2 < |lv| && j < |lv[top]|
             && Admissible(pages, lv, top + 1, Start(pages, lv[top], j) + k, x, replace)
    requires (replace ==> k < |Nodes(pages, lv[top][j])|) && SameKeys(keys, keys', lv[top + 1])
    ensures OthersKeep(pages, lv[top], j, k, x, replace, keys, keys')
  {
    hide Joined, Nodes, Distinct, KeyOf;
    RowBelow(pages, root, lv, top);
    forall t, i | 0 <= t < |lv[top]| && 0 <= i < |Nodes(pages, lv[top][t])| && !(replace && t == j && i == k)
      ensures Nodes(pages, lv[top][t])[i] != x && KeyOf(keys', Nodes(pages, lv[top][t])[i]) ==
              KeyOf(keys, Nodes(pages, lv[top][t])[i])
    {
      NodeAt(pages, lv[top], t, i);
      if replace {
        Places(lv, top + 1, Start(pages, lv[top], t) + i, top + 1, Start(pages, lv[top], j) + k);
        if Nodes(pages, lv[top][t])[i] == x {
          OneParent(pages, lv[top], t, i, j, k);
        }
      }
    }
  }

  /** The node that becomes the first of the new page gives it its key. */
  lemma SepReady(pages: Pages, root: Id, lv: seq<seq<int>>, keys: Keys, key: int -> int, k: nat, top: nat, x: int,
                 replace: bool, p: nat, mix: seq<nat>, m: Marks, s: nat)
    requires Tree(pages, root, lv) && Keyable(pages, lv, keys, key, k, top, x, replace, p, mix, m)
             && Admissible(pages, lv, top + 1, p, x, replace)
    requires p == Start(pages, lv[top], mix[top]) + k
             && (if replace then k < |Nodes(pages, lv[top][mix[top]])| else k <= |Nodes(pages, lv[top][mix[top]])|)
    requires 1 <= s < |PutInto(Nodes(pages, lv[top][mix[top]]), k, x, replace)|
    ensures var y := PutInto(Nodes(pages, lv[top][mix[top]]), k, x, replace)[s];
            Parts(m.ks, CutOf(pages, lv, top, p, replace, mix, m, s), if top + 2 < |lv| then KeyOf(keys, y) else key(y))
  {
    hide Joined, Nodes, Distinct, KeyOf, KeyedTo, OthersKeep, Admissible, Rows, Parts, RowKeyed, PutInto;
    RowBelow(pages, root, lv, top);
    JoinedAt(pages, lv[top], mix[top]);
    if top + 2 < |lv| {
      SplitOthersKeep(pages, root, lv, top, mix[top], k, x, replace, keys, keys);
      PutNode(pages, lv[top], mix[top], k, x, replace, m.cuts, m.cx, keys, keys, m.ks, s);
    } else {
      LeafSep(pages, lv[top], mix[top], k, x, replace, key, m.ks, s);
    }
  }

  lemma KeysAt(key: int -> int, items: seq<int>, ks: seq<int>, i: nat)
    requires KeysAre(key, items, ks) && i < |items|
    ensures i < |ks| && ks[i] == key(items[i])
  {
  }

  /** The key of an item parts those before it from the rest. */
  lemma LeafSep(pages: Pages, row: seq<Id>, j: nat, k: nat, x: int, replace: bool, key: int -> int, ks: seq<int>,
                s: nat)
    requires j < |row| && (if replace then k < |Nodes(pages, row[j])| else k <= |Nodes(pages, row[j])|)
    requires var p, items := Start(pages, row, j) + k, Joined(pages, row);
             (if replace then p < |items| else p <= |items|) && Sorted(ks)
                 && KeysAre(key, PutInto(items, p, x, replace), ks)
    requires s < |PutInto(Nodes(pages, row[j]), k, x, replace)|
    ensures Parts(ks, Start(pages, row, j) + s, key(PutInto(Nodes(pages, row[j]), k, x, replace)[s]))
  {
    hide Joined, Nodes, PutInto, Inserted, Sorted, KeysAre, Parts;
    var b, N, items := Start(pages, row, j), Nodes(pages, row[j]), Joined(pages, row);
    JoinedAt(pages, row, j);
    PutElement(N, k, x, replace, s);
    PutElement(items, b + k, x, replace, b + s);
    if s != k {
      NodeAt(pages, row, j, if replace || s < k then s else s - 1);
    }
    KeysAt(key, PutInto(items, b + k, x, replace), ks, b + s);
    SortedParts(ks, b + s);
  }

  /** All keys are right once the nodes are dealt out. */
  lemma KeysFinal(pages0: Pages, root0: Id, lv0: seq<seq<int>>, cs0: seq<Stack>, keys0: Keys, db: Database, me: nat,
                  top: nat, x: int, replace: bool, p: nat, mix: seq<nat>, rp: Id, s: nat, m: Marks, n: nat)
    requires Tree(pages0, root0, lv0) && me < |cs0| && |cs0[me].ki| == top + 1
             && Admissible(pages0, lv0, top + 1, p, x, replace)
    requires Keyable(pages0, lv0, keys0, db.key, cs0[me].ki[top], top, x, replace, p, mix, m)
             && p == Start(pages0, lv0[top], mix[top]) + cs0[me].ki[top]
    requires KeysSet(pages0, lv0, cs0, db, me, top, x, replace, mix, rp, s, m.up,
                     CutOf(pages0, lv0, top, p, replace, mix, m, s), m.ks, n)
    requires lv0[top][mix[top]] == cs0[me].pg[top]
    requires top + 2 < |lv0| ==> SameKeys(keys0, db.keys, lv0[top + 1]) && KeyOf(db.keys, x) == KeyOf(keys0, x)
    ensures KeysDone(lv0, db, top, p, replace, m, n)
  {
    hide Joined, Nodes, Distinct, KeyOf, OthersKeep, Rows, Parts, TornInto, RowKeyed, PutInto, Admissible, CutsUp,
         Sorted, KeysAre;
    RowBelow(pages0, root0, lv0, top);
    var j, k, c := mix[top], cs0[me].ki[top], CutOf(pages0, lv0, top, p, replace, mix, m, s);
    if top + 2 < |lv0| {
      SplitOthersKeep(pages0, root0, lv0, top, j, k, x, replace, keys0, db.keys);
      assert TornWith(pages0, lv0[top], j, k, x, replace, rp, s, db.pages, m.cuts, m.cx);
      RowTorn(pages0, lv0[top], j, k, x, replace, rp, s, db.pages, m.cuts, m.cx, keys0, db.keys, m.ks);
      TornCuts(pages0, lv0[top], j, k, x, replace, rp, s, db.pages, m.cuts, m.cx);
    } else {
      LeafStarts(pages0, lv0[top], j, rp, PutInto(Nodes(pages0, cs0[me].pg[top]), k, x, replace), s, db.pages, m.up,
                 replace);
    }
  }

  lemma LeafStarts(pages: Pages, row: seq<Id>, j: nat, rp: Id, all: seq<int>, s: nat, pages': Pages, up: seq<nat>,
                   replace: bool)
    requires TornInto(pages, row, j, rp, all, s, pages') && |up| == |row|
             && |all| == |Nodes(pages, row[j])| + (if replace then 0 else 1)
    requires forall i :: 0 <= i < |up| ==> up[i] == Start(pages, row, i) + if i > j && !replace then 1 else 0
    ensures Starts(pages', Inserted(row, j + 1, rp)) == Inserted(up, j + 1, Start(pages, row, j) + s)
  {
    hide Joined, Nodes, TornInto;
    TornIndex(pages, row, j, rp, all, s, pages');
    var row' := Inserted(row, j + 1, rp);
    forall i | 0 <= i < |row'| ensures Start(pages', row', i) == Inserted(up, j + 1, Start(pages, row, j) + s)[i] {
      TornStarts(pages, row, j, rp, all, s, pages', if i <= j + 1 then i else i - 1);
    }
    assert Starts(pages', row') == Inserted(up, j + 1, Start(pages, row, j) + s);
  }

  lemma TornIndex(pages: Pages, row: seq<Id>, j: nat, rp: Id, all: seq<int>, s: nat, pages': Pages)
    requires TornInto(pages, row, j, rp, all, s, pages')
    ensures j < |row|
  {
  }

  /** The page was divided at the split point that its nodes call for. */
  ghost predicate PickedHalves(sizes: Sizes, keys: Keys, depth: nat, pages0: Pages, lv0: seq<seq<int>>, mc: Stack,
                               top: nat, x: int, replace: bool, mix: seq<nat>, pages: Pages, lv: seq<seq<int>>, n: nat)
  {
    && |mc.pg| == |mc.ki| == top + 1
    && var nodes, k := Nodes(pages0, mc.pg[top]), mc.ki[top];
    && (if replace then k < |nodes| else k <= |nodes|)
    && Halved(pages0, lv0, mc, top, x, replace, mix, Picked(sizes, keys, top + 1 == depth, nodes, k, x, replace), pages,
              lv, n)
  }

  lemma HalvesAside(sizes: Sizes, keys: Keys, depth: nat, pages0: Pages, pages1: Pages, lv0: seq<seq<int>>, mc: Stack,
                    top: nat, x: int, replace: bool, mix: seq<nat>, pages: Pages, lv: seq<seq<int>>, n: nat)
    requires PickedHalves(sizes, keys, depth, pages1, lv0, mc, top, x, replace, mix, pages, lv, n)
    requires top < |lv0| && SameOn(pages0, pages1, lv0[top])
             && Nodes(pages1, mc.pg[top]) == Nodes(pages0, mc.pg[top])
    ensures PickedHalves(sizes, keys, depth, pages0, lv0, mc, top, x, replace, mix, pages, lv, n)
  {
    hide Nodes, Halved, Picked, SameOn;
    var k := mc.ki[top];
    HalvedAside(pages0, pages1, lv0, mc, top, x, replace, mix,
                Picked(sizes, keys, top + 1 == depth, Nodes(pages0, mc.pg[top]), k, x, replace), pages, lv, n);
  }

  /** The split point, and the key of the new page rp. */
  method MakeSeparator(db: Database, me: nat, top: nat, x: int, replace: bool, rp: Id, ghost places: seq<nat>,
                       ghost mix: seq<nat>, ghost marks: Marks) returns (split: nat, ghost c: nat)
    requires CanSplit(db, me, top, x, replace, places, mix) && CanKey(db, me, top, x, replace, places, mix, marks)
    requires db.Reserved(rp) && Nodes(db.pages, rp) == [] && (top + 1 < db.depth ==> rp != x)
    modifies db`keys
    ensures Before(db.pages, db.root, db.lv, db.cursors, db.loose, db.next, me, top + 1, x, replace, places, mix, rp,
                   split)
    ensures KeysReady(db, top, rp, marks.up, c, marks.ks) && KeysBut(old(db.keys), db.keys, rp)
    ensures |db.cursors[me].pg| == |db.cursors[me].ki| == top + 1
    ensures var nodes, k := Nodes(db.pages, db.cursors[me].pg[top]), db.cursors[me].ki[top];
            (if replace then k < |nodes| else k <= |nodes|)
            && split == Picked(db.sizes, old(db.keys), top == db.depth - 1, nodes, k, x, replace)
    ensures |mix| == top + 2 && top + 1 < |db.lv| && mix[top] < |db.lv[top]|
            && c == CutOf(db.pages, db.lv, top, places[me], replace, mix, marks, split)
  {
    hide Joined, Nodes, Distinct, Rows, Traces, MinKeys, SplitFix, At, PutInto, SameOn, Slot, On, Admissible,
         Before, Inserted, Full, Unused, KeyedTo, RowKeyed, Parts, KeyOf, KeysBut, Keyable;
    FullRest(db.pages, db.root, db.lv, db.cursors, me, top + 1, x, replace, places, mix);
    FullPlace(db.pages, db.root, db.lv, db.cursors, me, top + 1, x, replace, places, mix);
    ghost var p := places[me];
    var mc := db.cursors[me];
    var newindx := mc.ki[top];
    var nodes := Nodes(db.pages, mc.pg[top]);
    SplitReady(db, me, top, x, replace, rp, places, mix);
    var rest := if replace then Without(nodes, newindx) else nodes;
    var leaf := top == db.depth - 1;
    split := db.sizes.pick(db.keys, leaf, rest, newindx, x);
    BeforeBounds(db.pages, db.root, db.lv, db.cursors, db.loose, db.next, me, top + 1, x, replace, places, mix, rp,
                 split);
    AtSplit(nodes, rest, newindx, x, replace, split);
    var node := if split == newindx then x else rest[if split < newindx then split else split - 1];
    var sepkey := if leaf then db.key(node) else KeyOf(db.keys, node);
    c := CutOf(db.pages, db.lv, top, p, replace, mix, marks, split);
    SepReady(db.pages, db.root, db.lv, db.keys, db.key, newindx, top, x, replace, p, mix, marks, split);
    KeyableUp(db.pages, db.lv, db.keys, db.key, newindx, top, x, replace, p, mix, marks);
    NewKey(db.pages, db.root, db.lv, db.keys, rp, sepkey, top, marks.up, marks.ks);
    db.keys := db.keys[rp := sepkey];
  }

  /** The three ways of a split, by where the separator goes: rp is the new page,
      and pp the new root if the root is split. */
  method SplitCase(db: Database, me: nat, top: nat, x: int, replace: bool, rp: Id, pp: Id, split: nat,
                   ghost places: seq<nat>, ghost mix: seq<nat>, ghost up: seq<nat>, ghost c: nat, ghost ks: seq<int>)
    returns (ghost n: nat)
    requires Before(db.pages, db.root, db.lv, db.cursors, db.loose, db.next, me, top + 1, x, replace, places, mix, rp,
                    split)
    requires db.depth + 1 == |db.lv| && db.Sized() && me < |db.cursors| && |db.cursors[me].pg| == top + 1
    requires (top + 1 < db.depth && !replace ==> db.Reserved(x) && x != rp) && KeysReady(db, top, rp, up, c, ks)
    requires top == 0 ==> db.Reserved(pp) && pp != rp && (top + 1 < db.depth ==> pp != x)
    requires db.Writable(db.cursors[me], top + 1) && db.first <= rp && db.first <= pp
    modifies db
    ensures db.Intact()
    ensures KeysSet(old(db.pages), old(db.lv), old(db.cursors), db, me, top, x, replace, mix, rp, split, up, c, ks, n)
    ensures KeysKept(old(db.lv), top, old(db.keys), db.keys)
            && forall y :: old(db.Reserved(y)) ==> KeyOf(db.keys, y) == KeyOf(old(db.keys), y)
    ensures HasSplit(old(db.pages), old(db.lv), old(db.cursors), db, me, top, x, replace, places, n)
    ensures forall y :: old(db.Reserved(y)) && y != rp && (top == 0 ==> y != pp) ==>
              Nodes(db.pages, y) == Nodes(old(db.pages), y) && (y != x || top + 1 == old(db.depth) ==> db.Reserved(y))
    decreases top, 2
  {
    hide Joined, Nodes, Distinct, Rows, Traces, MinKeys, SplitFix, At, PutInto, SameOn, Slot, On, Admissible, Before,
         HasSplit, Divided, Adds, Follows, AllFollow, Splittable, Inserted, Unused, KeyedTo, RowKeyed, Parts, KeyOf,
         KeysKept, KeysSet, KeysReady;
    var mc := db.cursors[me];
    KeysKeptSelf(db.lv, top, db.keys);
    if top == 0 {
      SplitRoot(db, me, x, replace, rp, pp, split, places, mix, up, c, ks);
      n := 3;
    } else if db.sizes.room(db.keys, Nodes(db.pages, mc.pg[top - 1]), rp) {
      SplitSimple(db, me, top, x, replace, rp, split, places, mix, up, c, ks);
      n := top + 2;
    } else {
      n := SplitDeep(db, me, top, x, replace, rp, split, places, mix, up, c, ks);
    }
  }

  /** The split of a page once the new pages are there. */
  method SplitWith(db: Database, me: nat, top: nat, x: int, replace: bool, rp: Id, pp: Id, ghost places: seq<nat>,
                   ghost mix: seq<nat>, ghost marks: Marks) returns (ghost n: nat)
    requires CanSplit(db, me, top, x, replace, places, mix) && CanKey(db, me, top, x, replace, places, mix, marks)
    requires db.Reserved(rp) && Nodes(db.pages, rp) == [] && (top + 1 < db.depth ==> rp != x)
    requires top == 0 ==> db.Reserved(pp) && pp != rp && (top + 1 < db.depth ==> pp != x)
    requires me < |db.cursors| && db.Writable(db.cursors[me], top + 1) && db.first <= rp && db.first <= pp
    modifies db
    ensures db.Intact()
    ensures PickedHalves(db.sizes, old(db.keys), old(db.depth), old(db.pages), old(db.lv), old(db.cursors)[me], top,
                         x, replace, mix, db.pages, db.lv, n)
    ensures KeysDone(old(db.lv), db, top, places[me], replace, marks, n)
            && KeysKept(old(db.lv), top, old(db.keys), db.keys)
    ensures forall y :: old(db.Reserved(y)) && y != rp ==> KeyOf(db.keys, y) == KeyOf(old(db.keys), y)
    ensures HasSplit(old(db.pages), old(db.lv), old(db.cursors), db, me, top, x, replace, places, n)
    ensures forall y :: old(db.Reserved(y)) && y != rp && (top == 0 ==> y != pp) ==>
              Nodes(db.pages, y) == Nodes(old(db.pages), y) && (y != x || top + 1 == old(db.depth) ==> db.Reserved(y))
    decreases top, 3
  {
    hide Joined, Nodes, Distinct, Rows, Traces, MinKeys, SplitFix, At, PutInto, SameOn, Slot, On, Admissible, Before,
         HasSplit, Divided, Adds, Follows, AllFollow, Splittable, Inserted, Full, Unused, KeyedTo, RowKeyed, Parts,
         KeyOf, KeysKept, KeysSet, KeysDone, Keyable, KeysBut, CutOf, KeysReady, CutsUp;
    FullRest(db.pages, db.root, db.lv, db.cursors, me, top + 1, x, replace, places, mix);
    FullPlace(db.pages, db.root, db.lv, db.cursors, me, top + 1, x, replace, places, mix);
    ghost var pages0, root0, lv0, cs0, keys0 := db.pages, db.root, db.lv, db.cursors, db.keys;
    var split;
    ghost var c;
    split, c := MakeSeparator(db, me, top, x, replace, rp, places, mix, marks);
    ghost var keys1 := db.keys;
    KeysButAll(keys0, keys1, rp);
    label Separated:
    n := SplitCase(db, me, top, x, replace, rp, pp, split, places, mix, marks.up, c, marks.ks);
    forall y | old(db.Reserved(y)) && y != rp ensures KeyOf(db.keys, y) == KeyOf(keys0, y) {
      assert old@Separated(db.Reserved(y));
    }
    KeysThrough(lv0, top, rp, x, replace, keys0, keys1, db.keys);
    KeyOfNew(pages0, lv0, top, places[me], x, replace, keys0, db.keys);
    SetHalved(pages0, lv0, cs0, db, me, top, x, replace, mix, rp, split, marks.up, c, marks.ks, n);
    KeysFinal(pages0, root0, lv0, cs0, keys0, db, me, top, x, replace, places[me], mix, rp, split, marks, n);
  }

  lemma KeysButAll(keys: Keys, keys': Keys, id: Id)
    requires KeysBut(keys, keys', id)
    ensures forall y :: y != id ==> KeyOf(keys', y) == KeyOf(keys, y)
  {
  }

  lemma KeyOfNew(pages: Pages, lv: seq<seq<int>>, top: nat, p: nat, x: int, replace: bool, keys: Keys, keys': Keys)
    requires Admissible(pages, lv, top + 1, p, x, replace) && (top + 2 < |lv| ==> SameKeys(keys, keys', lv[top + 1]))
    requires top + 2 < |lv| && !replace ==> KeyOf(keys', x) == KeyOf(keys, x)
    ensures top + 2 < |lv| ==> KeyOf(keys', x) == KeyOf(keys, x)
  {
    hide KeyOf;
  }

  lemma FullTree(pages: Pages, root: Id, lv: seq<seq<int>>, cs: seq<Stack>, me: nat, M: nat, x: int, replace: bool,
                 places: seq<nat>, mix: seq<nat>)
    requires Full(pages, root, lv, cs, me, M, x, replace, places, mix)
    ensures Tree(pages, root, lv)
  {
  }

  /** New pages do not matter to the keys. */
  lemma KeyableAside(pages: Pages, pages': Pages, root: Id, lv: seq<seq<int>>, keys: Keys, key: int -> int, k: nat,
                     top: nat, x: int, replace: bool, p: nat, mix: seq<nat>, m: Marks, a: Id, b: Id)
    requires Tree(pages, root, lv) && Keyable(pages, lv, keys, key, k, top, x, replace, p, mix, m)
    requires Fresh(lv, a) && Fresh(lv, b) && forall y :: y != a && y != b ==> Nodes(pages', y) == Nodes(pages, y)
    ensures Keyable(pages', lv, keys, key, k, top, x, replace, p, mix, m)
  {
    hide Joined, Nodes, Distinct, KeyOf, KeyedTo, RowKeyed, Parts, Rows, PutInto, KeysAre, Sorted;
    forall l | 0 <= l < |lv| - 1 ensures SameOn(pages, pages', lv[l]) {
    }
    forall l | 1 <= l <= top ensures SameKeys(keys, keys, lv[l]) {
    }
    KeyedSame(pages, root, lv, pages', lv, top, m.up, keys, keys, m.ks);
    if top + 2 < |lv| {
      RowSame(pages, pages', lv[top], m.cuts, keys, keys, m.ks);
      UpSame(pages, pages', lv[top], m.cuts);
    } else {
      forall i | 0 <= i < |m.up| ensures Start(pages', lv[top], i) == Start(pages, lv[top], i) {
        LinkSame(pages, pages', lv[top], i, lv[top][i]);
      }
    }
  }

  lemma FullPlace(pages: Pages, root: Id, lv: seq<seq<int>>, cs: seq<Stack>, me: nat, M: nat, x: int, replace: bool,
                  places: seq<nat>, mix: seq<nat>)
    requires Full(pages, root, lv, cs, me, M, x, replace, places, mix)
    ensures Tree(pages, root, lv) && 1 <= M < |lv| && |mix| == M + 1 && me < |cs| == |places|
            && |cs[me].pg| == |cs[me].ki| == M && Admissible(pages, lv, M, places[me], x, replace)
    ensures mix[M - 1] < |lv[M - 1]| && lv[M - 1][mix[M - 1]] == cs[me].pg[M - 1]
            && places[me] == Start(pages, lv[M - 1], mix[M - 1]) + cs[me].ki[M - 1]
  {
    hide Joined, Nodes, Distinct, Traces;
    TraceLink(pages, lv[..M + 1], cs[me], mix, M - 1);
  }

  lemma BeforeBounds(pages: Pages, root: Id, lv: seq<seq<int>>, cs: seq<Stack>, loose: seq<Id>, next: Id, me: nat,
                     M: nat, x: int, replace: bool, places: seq<nat>, mix: seq<nat>, rp: Id, s: nat)
    requires Before(pages, root, lv, cs, loose, next, me, M, x, replace, places, mix, rp, s)
    ensures me < |cs| && |cs[me].pg| == |cs[me].ki| == M >= 1
    ensures var N, k := Nodes(pages, cs[me].pg[M - 1]), cs[me].ki[M - 1];
            && (if replace then k < |N| else k <= |N|) && 1 <= s < |PutInto(N, k, x, replace)|
  {
    hide Joined, Nodes, Distinct, Traces, MinKeys, On;
  }

  lemma AtSplit(nodes: seq<int>, rest: seq<int>, k: nat, x: int, replace: bool, s: nat)
    requires (if replace then k < |nodes| else k <= |nodes|) && s < |PutInto(nodes, k, x, replace)|
    requires rest == if replace then Without(nodes, k) else nodes
    ensures s != k ==> (if s < k then s else s - 1) < |rest| && (s < k || s >= 1)
    ensures PutInto(nodes, k, x, replace)[s] == if s == k then x else rest[if s < k then s else s - 1]
  {
  }

  lemma KeyableUp(pages: Pages, lv: seq<seq<int>>, keys: Keys, key: int -> int, k: nat, top: nat, x: int, replace: bool,
                  p: nat, mix: seq<nat>, m: Marks)
    requires Keyable(pages, lv, keys, key, k, top, x, replace, p, mix, m)
    ensures top + 1 < |lv| && |m.up| == |lv[top]| && KeyedTo(pages, lv, top, m.up, keys, m.ks)
  {
  }

  lemma KeysKeptSelf(lv: seq<seq<int>>, top: nat, keys: Keys)
    ensures KeysKept(lv, top, keys, keys)
  {
  }

  lemma NewKey(pages: Pages, root: Id, lv: seq<seq<int>>, keys: Keys, rp: Id, sepkey: int, top: nat, up: seq<nat>,
               ks: seq<int>)
    requires Rows(pages, root, lv) && top < |lv| - 1 && Fresh(lv, rp) && KeyedTo(pages, lv, top, up, keys, ks)
    ensures KeyedTo(pages, lv, top, up, keys[rp := sepkey], ks) && KeyOf(keys[rp := sepkey], rp) == sepkey
            && KeysBut(keys, keys[rp := sepkey], rp)
  {
    hide Joined, Nodes, KeyedTo;
    KeysFresh(lv, rp, keys, keys[rp := sepkey]);
    SameToItself(pages, lv);
    KeyedSame(pages, root, lv, pages, lv, top, up, keys, keys[rp := sepkey], ks);
  }

  /** What the split leaves of the keys that were there. */
  lemma KeysThrough(lv: seq<seq<int>>, top: nat, rp: Id, x: int, replace: bool, keys: Keys, keys1: Keys, keys': Keys)
    requires top + 1 < |lv| && Fresh(lv, rp) && KeysBut(keys, keys1, rp) && KeysKept(lv, top, keys1, keys')
    ensures KeysKept(lv, top, keys, keys') && (top + 2 < |lv| ==> SameKeys(keys, keys', lv[top + 1]))
  {
    hide KeyOf;
    KeysFresh(lv, rp, keys, keys1);
    forall l | top + 1 <= l < |lv| - 1 ensures SameKeys(keys, keys', lv[l]) {
      assert SameKeys(keys1, keys', lv[l]) && SameKeys(keys, keys1, lv[l]);
    }
  }

  /** mdb_page_split: the page of row top, into which the new node does not fit,
      is split in two; its parents are split as far as needed. */
  method Split(db: Database, me: nat, top: nat, x: int, replace: bool, ghost places: seq<nat>, ghost mix: seq<nat>,
               ghost marks: Marks) returns (ghost n: nat)
    requires CanSplit(db, me, top, x, replace, places, mix) && CanKey(db, me, top, x, replace, places, mix, marks)
    requires me < |db.cursors| && db.Writable(db.cursors[me], top + 1)
    modifies db
    ensures PickedHalves(db.sizes, old(db.keys), old(db.depth), old(db.pages), old(db.lv), old(db.cursors)[me], top,
                         x, replace, mix, db.pages, db.lv, n)
    ensures db.Intact() && CleanKept(old(db.pages), old(db.dirty), old(db.next), db.pages, db.dirty)
    ensures KeysDone(old(db.lv), db, top, places[me], replace, marks, n)
            && KeysKept(old(db.lv), top, old(db.keys), db.keys)
    ensures forall y :: old(db.Reserved(y)) ==> KeyOf(db.keys, y) == KeyOf(old(db.keys), y)
    ensures HasSplit(old(db.pages), old(db.lv), old(db.cursors), db, me, top, x, replace, places, n)
    ensures forall y :: old(db.Reserved(y)) ==>
              Nodes(db.pages, y) == Nodes(old(db.pages), y) && (y != x || top + 1 == old(db.depth) ==> db.Reserved(y))
    decreases top, 4
  {
    hide Joined, Nodes, Distinct, Rows, Traces, MinKeys, SplitFix, At, PutInto, SameOn, Slot, On, Admissible, Before,
         HasSplit, Divided, Adds, Follows, AllFollow, Splittable, Inserted, Full, Unused, Keyable, KeysDone, KeysKept,
         KeyOf, Tree, PickedHalves, Apart, CleanKept;
    FullTree(db.pages, db.root, db.lv, db.cursors, me, top + 1, x, replace, places, mix);
    ghost var pages0, lv0, cs0, keys0, depth0 := db.pages, db.lv, db.cursors, db.keys, db.depth;
    ghost var loose0, next0, dirty0 := db.loose, db.next, db.dirty;
    var rp := db.NewPage();
    FullAside(pages0, db.pages, db.root, db.lv, db.cursors, me, top + 1, x, replace, places, mix, rp);
    var pp := rp;
    if top == 0 {
      ghost var pages1 := db.pages;
      pp := db.NewPage();
      FullAside(pages1, db.pages, db.root, db.lv, db.cursors, me, top + 1, x, replace, places, mix, pp);
    }
    TwoPages(pages0, pp, rp, [], []);
    Cleared(pages0, rp, pp);
    assert top > 0 ==> pages0[rp := []][pp := []] == db.pages;
    FullSame(pages0, db.pages, db.root, db.lv, db.cursors, me, top + 1, x, replace, places, mix, rp, pp);
    ghost var pages2 := db.pages;
    KeyableAside(pages0, pages2, db.root, lv0, db.keys, db.key, db.cursors[me].ki[top], top, x, replace, places[me],
                 mix, marks, rp, pp);
    RowAside(pages0, pages2, db.root, lv0, cs0, me, top + 1, x, replace, places, mix, rp, pp);
    label Paged:
    n := SplitWith(db, me, top, x, replace, rp, pp, places, mix, marks);
    forall y | old(db.Reserved(y))
      ensures Nodes(db.pages, y) == Nodes(pages0, y) && (y != x || top + 1 == old(db.depth) ==> db.Reserved(y))
    {
      assert old@Paged(db.Reserved(y));
    }
    HalvesAside(db.sizes, keys0, depth0, pages0, pages2, lv0, cs0[me], top, x, replace, mix, db.pages, db.lv, n);
    SplitFrom(pages0, pages2, lv0, cs0, db, me, top, x, replace, places, n);
    ApartKeeps(db.base, db.first, pages0, loose0, next0, dirty0, db.pages, db.loose, db.next, db.dirty);
  }

  lemma Cleared(pages: Pages, a: Id, b: Id)
    ensures Nodes(pages[a := []][b := []], a) == []
  {
  }

  /** The row of the page is none of the new pages' concern. */
  lemma RowAside(pages: Pages, pages': Pages, root: Id, lv: seq<seq<int>>, cs: seq<Stack>, me: nat, M: nat, x: int,
                 replace: bool, places: seq<nat>, mix: seq<nat>, a: Id, b: Id)
    requires Full(pages, root, lv, cs, me, M, x, replace, places, mix) && M >= 1 && Fresh(lv, a) && Fresh(lv, b)
    requires forall y :: y != a && y != b ==> Nodes(pages', y) == Nodes(pages, y)
    ensures me < |cs| && |cs[me].pg| == M < |lv| && SameOn(pages, pages', lv[M - 1])
    ensures Nodes(pages', cs[me].pg[M - 1]) == Nodes(pages, cs[me].pg[M - 1])
  {
    hide Joined, Nodes, Distinct, Traces, MinKeys, On;
    FullPlace(pages, root, lv, cs, me, M, x, replace, places, mix);
  }

  lemma FullSame(pages: Pages, pages': Pages, root: Id, lv: seq<seq<int>>, cs: seq<Stack>, me: nat, M: nat, x: int,
                 replace: bool, places: seq<nat>, mix: seq<nat>, a: Id, b: Id)
    requires Full(pages, root, lv, cs, me, M, x, replace, places, mix) && Fresh(lv, a) && Fresh(lv, b)
             && Only(pages, pages', {a, b})
    ensures Admissible(pages, lv, M, places[me], x, replace)
    ensures forall l :: M <= l < |lv| - 1 ==> SameOn(pages, pages', lv[l])
    ensures replace && M < |lv| - 1 ==> x != a && x != b
    ensures forall y :: y != a && y != b ==> Nodes(pages', y) == Nodes(pages, y)
  {
    hide Joined, Distinct, Traces, Nodes;
  }

  lemma SplitFrom(pages0: Pages, pages1: Pages, lv0: seq<seq<int>>, cs0: seq<Stack>, db: Database, me: nat, top: nat,
                  x: int, replace: bool, places: seq<nat>, n: nat)
    requires HasSplit(pages1, lv0, cs0, db, me, top, x, replace, places, n)
             && Admissible(pages0, lv0, top + 1, places[me], x, replace)
    requires forall l :: top + 1 <= l < |lv0| - 1 ==> SameOn(pages0, pages1, lv0[l])
    requires top + 1 < |lv0| - 1 ==> Nodes(pages1, x) == Nodes(pages0, x)
    ensures HasSplit(pages0, lv0, cs0, db, me, top, x, replace, places, n)
  {
    hide Joined, Nodes, Tree, MinKeys, Follows, AllFollow, At, Inside;
    forall l | top + 1 <= l < |lv0| - 1 ensures SameOn(pages0, db.pages, lv0[l]) {
      assert SameOn(pages1, db.pages, lv0[l]) && SameOn(pages0, pages1, lv0[l]);
    }
  }
}
