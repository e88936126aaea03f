/**
 Deleting and inserting items through one cursor while others are open: the
 fix-ups that keep every tracked cursor on its item, at any tree depth.

 `Stands` is a stack in the middle of an operation: it leads through the rows,
 and it may be past the nodes of its leaf only if that is the last leaf or the
 page at work.  `Kept` says that a stack leads to the same item before and after
 a change, whatever that item is.

 `Database` has the pages, the keys of branch nodes and all open cursors.  Its
 methods are the single changes that mdb_rebalance makes to a page and its
 neighbour or to the root; Rebalancing puts them together, with the writes to
 the parent that may split it.
 */
module Tracking {
  import opened Sequences
  import opened Levels
  import opened Separators
  import opened KeyedMoves

  // ------------------------------------------------------------ positions

  ghost predicate Tree(pages: Pages, root: Id, lv: seq<seq<int>>) { Rows(pages, root, lv) && Distinct(lv) }

  /** Pages of the last row of pages hold at least the given number of nodes and
      those above at least two, but for one page that is being changed. */
  ghost predicate MinTo(pages: Pages, lv: seq<seq<int>>, least: nat, except: set<Id>) {
    forall l, i :: 0 <= l < |lv| - 1 && 0 <= i < |lv[l]| ==>
      lv[l][i] in except || |Nodes(pages, lv[l][i])| >= if l == |lv| - 2 then least else 2
  }

  /** Leaves hold at least one item and branches at least two children. */
  ghost predicate MinKeys(pages: Pages, lv: seq<seq<int>>, except: set<Id>) { MinTo(pages, lv, 1, except) }

  /** The index in its leaf is that of an item. */
  ghost predicate Inside(pages: Pages, c: Stack)
    requires |c.pg| == |c.ki| > 0
  {
    c.ki[|c.ki| - 1] < |Nodes(pages, c.pg[|c.pg| - 1])|
  }

  /** The stack traces ix, and is past the items of its leaf only on the last
      leaf or on the given one. */
  ghost predicate Stands(pages: Pages, lv: seq<seq<int>>, page: Id, c: Stack, ix: seq<nat>) {
    && |c.pg| == |c.ki| == |lv| - 1 >= 1 && |ix| == |lv|
    && Traces(pages, lv, c, ix)
    && c.ki[|c.ki| - 1] <= |Nodes(pages, c.pg[|c.pg| - 1])|
    && (Inside(pages, c) || ix[|lv| - 2] + 1 == |lv[|lv| - 2]| || c.pg[|c.pg| - 1] == page)
  }

  /** The cursor keeps its place in the sequence of items. */
  ghost predicate Kept(pages: Pages, lv: seq<seq<int>>, page: Id, c: Stack, pages': Pages, lv': seq<seq<int>>,
                       page': Id, c': Stack) {
    && (|c.pg| == |c.ki| ==> |c'.pg| == |c'.ki|)
    && c'.init == c.init && c'.eof == c.eof && c'.del == c.del
    && (c.init ==> forall ix :: Stands(pages, lv, page, c, ix) ==>
          StandsSame(pages, c, ix, page, pages', lv', page', c'))
  }

  ghost predicate StandsSame(pages: Pages, c: Stack, ix: seq<nat>, page: Id, pages': Pages, lv': seq<seq<int>>,
                             page': Id, c': Stack)
    requires |c.pg| == |c.ki| > 0 && |ix| > 0
  {
    exists ix' :: Stands(pages', lv', page', c', ix') && ix'[|lv'| - 1] == ix[|ix| - 1]
      && (Inside(pages, c) ==> Inside(pages', c'))
      && (c.pg[|c.pg| - 1] == page ==> c'.pg[|c'.pg| - 1] == page')
  }

  lemma KeptTwice(p0: Pages, lv0: seq<seq<int>>, g0: Id, c0: Stack, p1: Pages, lv1: seq<seq<int>>, g1: Id, c1: Stack,
                  p2: Pages, lv2: seq<seq<int>>, g2: Id, c2: Stack)
    requires Kept(p0, lv0, g0, c0, p1, lv1, g1, c1) && Kept(p1, lv1, g1, c1, p2, lv2, g2, c2)
    ensures Kept(p0, lv0, g0, c0, p2, lv2, g2, c2)
  {
    hide Traces, Nodes;
    if c0.init {
      forall ix | Stands(p0, lv0, g0, c0, ix) ensures StandsSame(p0, c0, ix, g0, p2, lv2, g2, c2) {
        assert StandsSame(p0, c0, ix, g0, p1, lv1, g1, c1);
        var ix1 :| Stands(p1, lv1, g1, c1, ix1) && ix1[|lv1| - 1] == ix[|ix| - 1]
          && (Inside(p0, c0) ==> Inside(p1, c1)) && (c0.pg[|c0.pg| - 1] == g0 ==> c1.pg[|c1.pg| - 1] == g1);
        assert StandsSame(p1, c1, ix1, g1, p2, lv2, g2, c2);
      }
    }
  }

  lemma KeptStill(p0: Pages, lv0: seq<seq<int>>, g0: Id, c0: Stack)
    ensures Kept(p0, lv0, g0, c0, p0, lv0, g0, c0)
  {
    hide Traces, Nodes;
    forall ix | Stands(p0, lv0, g0, c0, ix) ensures StandsSame(p0, c0, ix, g0, p0, lv0, g0, c0) {
    }
  }

  /** Pages of other rows, and the leaf a cursor is on, hold what they held. */
  lemma LeafAside(pages: Pages, pages': Pages, lv: seq<seq<int>>, c: Stack, ix: seq<nat>)
    requires |lv| >= 2 && Traces(pages, lv, c, ix) && SameOn(pages, pages', lv[|lv| - 2])
    ensures |c.pg| == |lv| - 1 && Nodes(pages', c.pg[|c.pg| - 1]) == Nodes(pages, c.pg[|c.pg| - 1])
  {
    hide Joined, Nodes, Traces, SameOn;
    TraceLink(pages, lv, c, ix, |lv| - 2);
    LinkSame(pages, pages', lv[|lv| - 2], ix[|lv| - 2], c.pg[|lv| - 2]);
  }

  /** A node moved right, into the page being rebalanced. */
  lemma FromLeftKept(pages: Pages, root: Id, lv: seq<seq<int>>, L: nat, t: nat, kp: nat, j: nat, page: Id, c: Stack)
    requires Tree(pages, root, lv) && Siblings(pages, lv, L, t, kp, j) && |Nodes(pages, lv[L][j])| > 0
    requires L == |lv| - 2 ==> page == lv[L][j + 1]
    requires |c.pg| == |c.ki|
    ensures var a, b := lv[L][j], lv[L][j + 1];
            Kept(pages, lv, page, c, MoveLeftNode(pages, a, b), lv, page,
                 FromLeft(c, L, a, b, |Nodes(pages, a)| - 1, 0))
  {
    hide Joined, Nodes, Distinct, Rows, Traces, FromLeft, MoveLeftNode;
    var a, b := lv[L][j], lv[L][j + 1];
    FromLeftShape(c, L, a, b, |Nodes(pages, a)| - 1, 0);
    if c.init {
      forall ix | Stands(pages, lv, page, c, ix)
        ensures StandsSame(pages, c, ix, page, MoveLeftNode(pages, a, b), lv, page,
                           FromLeft(c, L, a, b, |Nodes(pages, a)| - 1, 0))
      {
        FromLeftStands(pages, root, lv, L, t, kp, j, page, c, ix);
      }
    }
  }

  lemma FromLeftShape(m3: Stack, top: nat, mps: Id, mpd: Id, ski: nat, dki: nat)
    requires |m3.pg| == |m3.ki| && top > 0
    ensures var c' := FromLeft(m3, top, mps, mpd, ski, dki);
            |c'.pg| == |c'.ki| == |m3.pg| && c'.init == m3.init && c'.eof == m3.eof && c'.del == m3.del
            && (forall l :: 0 <= l < |m3.pg| && l != top ==> c'.pg[l] == m3.pg[l])
            && (forall l :: 0 <= l < |m3.pg| && l != top && l != top - 1 ==> c'.ki[l] == m3.ki[l])
            && (|m3.pg| > top && m3.pg[top] == mpd && mpd != mps ==> c'.pg[top] == mpd)
  {
  }

  lemma FromLeftStands(pages: Pages, root: Id, lv: seq<seq<int>>, L: nat, t: nat, kp: nat, j: nat, page: Id, c: Stack,
                       ix: seq<nat>)
    requires Tree(pages, root, lv) && Siblings(pages, lv, L, t, kp, j) && |Nodes(pages, lv[L][j])| > 0
    requires L == |lv| - 2 ==> page == lv[L][j + 1]
    requires c.init && Stands(pages, lv, page, c, ix)
    ensures var a, b := lv[L][j], lv[L][j + 1];
            StandsSame(pages, c, ix, page, MoveLeftNode(pages, a, b), lv, page,
                       FromLeft(c, L, a, b, |Nodes(pages, a)| - 1, 0))
  {
    hide Joined, Nodes, Distinct, Rows, Traces, FromLeft, MoveLeftNode;
    var a, b := lv[L][j], lv[L][j + 1];
    var n := |Nodes(pages, a)|;
    var pages', c' := MoveLeftNode(pages, a, b), FromLeft(c, L, a, b, n - 1, 0);
    FromLeftShape(c, L, a, b, n - 1, 0);
    ThroughParent(pages, lv, L, t, kp, j, c, ix);
    TraceLink(pages, lv, c, ix, L);
    Places(lv, L, j, L, j + 1);
    FromLeftKeeps(pages, root, lv, L, t, kp, j, c, ix);
    MovedNodes(pages, a, b);
    RowsShift(pages, pages', root, lv, L, j);
    if L < |lv| - 2 {
      LeafAside(pages, pages', lv, c, ix);
    }
    var ix' := ix[L := if c.pg[L] == a && c.ki[L] == n - 1 then j + 1 else ix[L]];
    assert Stands(pages', lv, page, c', ix');
  }

  /** A node moved left, into the page being rebalanced. */
  lemma FromRightKept(pages: Pages, root: Id, lv: seq<seq<int>>, L: nat, t: nat, kp: nat, j: nat, page: Id, c: Stack)
    requires Tree(pages, root, lv) && Siblings(pages, lv, L, t, kp, j) && |Nodes(pages, lv[L][j + 1])| > 0
    requires L == |lv| - 2 ==> page == lv[L][j]
    requires |c.pg| == |c.ki|
    ensures var a, b := lv[L][j], lv[L][j + 1];
            Kept(pages, lv, page, c, MoveRightNode(pages, a, b), lv, page, FromRight(c, L, b, a, |Nodes(pages, a)|))
  {
    hide Joined, Nodes, Distinct, Rows, Traces, FromRight, MoveRightNode;
    var a, b := lv[L][j], lv[L][j + 1];
    FromRightShape(c, L, b, a, |Nodes(pages, a)|);
    if c.init {
      forall ix | Stands(pages, lv, page, c, ix)
        ensures StandsSame(pages, c, ix, page, MoveRightNode(pages, a, b), lv, page,
                           FromRight(c, L, b, a, |Nodes(pages, a)|))
      {
        FromRightStands(pages, root, lv, L, t, kp, j, page, c, ix);
      }
    }
  }

  lemma FromRightShape(m3: Stack, top: nat, mps: Id, mpd: Id, dki: nat)
    requires |m3.pg| == |m3.ki| && top > 0
    ensures var c' := FromRight(m3, top, mps, mpd, dki);
            && |c'.pg| == |c'.ki| == |m3.pg| && c'.init == m3.init && c'.eof == m3.eof && c'.del == m3.del
            && (forall l :: 0 <= l < |m3.pg| && l != top ==> c'.pg[l] == m3.pg[l])
            && (forall l :: 0 <= l < |m3.pg| && l != top && l != top - 1 ==> c'.ki[l] == m3.ki[l])
            && (|m3.pg| > top && m3.pg[top] == mpd && mpd != mps ==> c'.pg[top] == mpd && c'.ki[top] == m3.ki[top])
  {
  }

  lemma FromRightStands(pages: Pages, root: Id, lv: seq<seq<int>>, L: nat, t: nat, kp: nat, j: nat, page: Id, c: Stack,
                        ix: seq<nat>)
    requires Tree(pages, root, lv) && Siblings(pages, lv, L, t, kp, j) && |Nodes(pages, lv[L][j + 1])| > 0
    requires L == |lv| - 2 ==> page == lv[L][j]
    requires c.init && Stands(pages, lv, page, c, ix)
    ensures var a, b := lv[L][j], lv[L][j + 1];
            StandsSame(pages, c, ix, page, MoveRightNode(pages, a, b), lv, page,
                       FromRight(c, L, b, a, |Nodes(pages, a)|))
  {
    hide Joined, Nodes, Distinct, Rows, Traces, FromRight, MoveRightNode;
    var a, b := lv[L][j], lv[L][j + 1];
    var pages', c' := MoveRightNode(pages, a, b), FromRight(c, L, b, a, |Nodes(pages, a)|);
    FromRightShape(c, L, b, a, |Nodes(pages, a)|);
    ThroughParent(pages, lv, L, t, kp, j, c, ix);
    TraceLink(pages, lv, c, ix, L);
    Places(lv, L, j, L, j + 1);
    FromRightKeeps(pages, root, lv, L, t, kp, j, c, ix);
    MovedNodes(pages, a, b);
    RowsShift(pages, pages', root, lv, L, j);
    if L < |lv| - 2 {
      LeafAside(pages, pages', lv, c, ix);
    }
    var ix' := ix[L := if c.pg[L] == b && c.ki[L] == 0 then j else ix[L]];
    assert Stands(pages', lv, page, c', ix');
  }

  /** Page j + 1 merged into page j. */
  lemma MergedKept(pages: Pages, root: Id, lv: seq<seq<int>>, L: nat, t: nat, kp: nat, j: nat, page: Id, page': Id,
                   c: Stack)
    requires Tree(pages, root, lv) && Siblings(pages, lv, L, t, kp, j)
    requires if L == |lv| - 2 then (page == lv[L][j] || page == lv[L][j + 1]) && page' == lv[L][j] else page' == page
    requires |c.pg| == |c.ki|
    ensures var a, b, P := lv[L][j], lv[L][j + 1], lv[L - 1][t];
            Kept(pages, lv, page, c, MergePages(pages, a, b, P, kp + 1), lv[L := Without(lv[L], j + 1)], page',
                 Merged(c, L, b, a, |Nodes(pages, a)|, P, kp, kp + 1))
  {
    hide Joined, Nodes, Distinct, Rows, Traces, Merged, MergePages;
    var a, b, P := lv[L][j], lv[L][j + 1], lv[L - 1][t];
    MergedFlags(c, L, b, a, |Nodes(pages, a)|, P, kp, kp + 1);
    if c.init {
      forall ix | Stands(pages, lv, page, c, ix)
        ensures StandsSame(pages, c, ix, page, MergePages(pages, a, b, P, kp + 1), lv[L := Without(lv[L], j + 1)],
                           page',
                           Merged(c, L, b, a, |Nodes(pages, a)|, P, kp, kp + 1))
      {
        MergedStands(pages, root, lv, L, t, kp, j, page, page', c, ix);
      }
    }
  }

  lemma MergedFlags(c: Stack, L: nat, b: Id, a: Id, n: nat, P: Id, up: nat, sup: nat)
    requires |c.pg| == |c.ki| && L > 0
    ensures var c' := Merged(c, L, b, a, n, P, up, sup);
            |c'.pg| == |c'.ki| == |c.pg| && c'.init == c.init && c'.eof == c.eof && c'.del == c.del
  {
  }

  lemma MergedStands(pages: Pages, root: Id, lv: seq<seq<int>>, L: nat, t: nat, kp: nat, j: nat, page: Id, page': Id,
                     c: Stack, ix: seq<nat>)
    requires Tree(pages, root, lv) && Siblings(pages, lv, L, t, kp, j)
    requires if L == |lv| - 2 then (page == lv[L][j] || page == lv[L][j + 1]) && page' == lv[L][j] else page' == page
    requires c.init && Stands(pages, lv, page, c, ix)
    ensures var a, b, P := lv[L][j], lv[L][j + 1], lv[L - 1][t];
            StandsSame(pages, c, ix, page, MergePages(pages, a, b, P, kp + 1), lv[L := Without(lv[L], j + 1)], page',
                       Merged(c, L, b, a, |Nodes(pages, a)|, P, kp, kp + 1))
  {
    hide Joined, Nodes, Distinct, Rows, Traces, Merged, MergePages;
    var a, b, P := lv[L][j], lv[L][j + 1], lv[L - 1][t];
    var pages' := MergePages(pages, a, b, P, kp + 1);
    var lv' := lv[L := Without(lv[L], j + 1)];
    var c' := Merged(c, L, b, a, |Nodes(pages, a)|, P, kp, kp + 1);
    MergedShape(c, L, b, a, |Nodes(pages, a)|, P, kp, kp + 1);
    TraceLink(pages, lv, c, ix, L);
    Places(lv, L, ix[L], L, j);
    MergeKeeps(pages, root, lv, L, t, kp, j, c, ix);
    MergedTree(pages, root, lv, L, t, kp, j);
    if L < |lv| - 2 {
      LeafAside(pages, pages', lv, c, ix);
    }
    var ix' := ix[L := if ix[L] > j then ix[L] - 1 else ix[L]];
    assert Stands(pages', lv', page', c', ix');
  }

  /** The root gave way to its only child. */
  lemma CollapsedKept(pages: Pages, root: Id, child: Id, lv: seq<seq<int>>, page: Id, c: Stack)
    requires Tree(pages, root, lv) && |lv| > 2 && Nodes(pages, root) == [child]
    requires |c.pg| == |c.ki|
    ensures Kept(pages, lv, page, c, pages, lv[1..], page, if c.init && |c.pg| > 0 && c.pg[0] == root then Collapsed(c)
                                                           else c)
  {
    hide Joined, Nodes, Distinct, Traces;
    CollapseKeeps(pages, root, child, lv);
    var c' := if c.init && |c.pg| > 0 && c.pg[0] == root then Collapsed(c) else c;
    if c.init {
      forall ix | Stands(pages, lv, page, c, ix) ensures StandsSame(pages, c, ix, page, pages, lv[1..], page, c') {
        assert Stands(pages, lv[1..], page, c', ix[1..]);
      }
    }
  }

  // ---------------------------------------------------------- the neighbours

  /** The page of the cursor at row L and the one beside it in their parent. */
  lemma Beside(pages: Pages, root: Id, lv: seq<seq<int>>, L: nat, mc: Stack, ix: seq<nat>, kp: nat)
    requires Tree(pages, root, lv) && Traces(pages, lv, mc, ix) && 0 < L < |lv| - 1
    requires |mc.pg| == |mc.ki| == |lv| - 1 && |ix| == |lv|
    requires kp + 1 < |Nodes(pages, mc.pg[L - 1])| && (mc.ki[L - 1] == kp || mc.ki[L - 1] == kp + 1)
    ensures var t, j := ix[L - 1], ix[L] - (mc.ki[L - 1] - kp);
            && j >= 0 && Siblings(pages, lv, L, t, kp, j) && lv[L - 1][t] == mc.pg[L - 1]
            && lv[L][j] == Nodes(pages, mc.pg[L - 1])[kp] && lv[L][j + 1] == Nodes(pages, mc.pg[L - 1])[kp + 1]
            && mc.pg[L] == lv[L][if mc.ki[L - 1] == kp then j else j + 1] && lv[L][j] != lv[L][j + 1]
  {
    hide Joined, Nodes, Distinct, Traces;
    TraceLink(pages, lv, mc, ix, L - 1);
    TraceLink(pages, lv, mc, ix, L);
    NodeAt(pages, lv[L - 1], ix[L - 1], kp);
    NodeAt(pages, lv[L - 1], ix[L - 1], kp + 1);
    Places(lv, L, ix[L] - (mc.ki[L - 1] - kp), L, ix[L] - (mc.ki[L - 1] - kp) + 1);
  }

  lemma KeysOfPage(pages: Pages, lv: seq<seq<int>>, except: set<Id>, c: Stack, ix: seq<nat>, l: nat)
    requires MinKeys(pages, lv, except) && Traces(pages, lv, c, ix) && l < |lv| - 1 && |c.pg| == |lv| - 1
    ensures c.pg[l] in except || |Nodes(pages, c.pg[l])| >= if l == |lv| - 2 then 1 else 2
  {
    TraceLink(pages, lv, c, ix, l);
  }

  /** One turn of the loop at the end of mdb_node_move. */
  function MovedOver(m3: Stack, top: nat, csrc: Stack, cdst: Stack, fromleft: bool): Stack
    requires |m3.pg| == |m3.ki| && |csrc.pg| == |csrc.ki| > top > 0 && |cdst.pg| == |cdst.ki| > top
  {
    if fromleft then FromLeft(m3, top, csrc.pg[top], cdst.pg[top], csrc.ki[top], cdst.ki[top])
    else FromRight(m3, top, csrc.pg[top], cdst.pg[top], cdst.ki[top])
  }

  /** One turn of the loop in mdb_page_merge. */
  function MergedInto(m3: Stack, top: nat, csrc: Stack, cdst: Stack, nkeys: nat): Stack
    requires |m3.pg| == |m3.ki| && |csrc.pg| == |csrc.ki| > top > 0 && |cdst.pg| == |cdst.ki| > top
  {
    Merged(m3, top, csrc.pg[top], cdst.pg[top], nkeys, csrc.pg[top - 1], cdst.ki[top - 1], csrc.ki[top - 1])
  }

  /** Page counts after a node move: only the two pages differ. */
  lemma MinAfterMove(pages: Pages, pages': Pages, lv: seq<seq<int>>, L: nat, j: nat, except: set<Id>)
    requires MinKeys(pages, lv, except) && L < |lv| - 1 && j + 1 < |lv[L]|
             && Only(pages, pages', {lv[L][j], lv[L][j + 1]}) && Distinct(lv)
    requires except <= {lv[L][j], lv[L][j + 1]}
    requires var least := if L == |lv| - 2 then 1 else 2;
             |Nodes(pages', lv[L][j])| >= least && |Nodes(pages', lv[L][j + 1])| >= least
    ensures MinKeys(pages', lv, {})
  {
    hide Nodes, Distinct;
    forall l, i | 0 <= l < |lv| - 1 && 0 <= i < |lv[l]|
      ensures |Nodes(pages', lv[l][i])| >= if l == |lv| - 2 then 1 else 2
    {
      Places(lv, l, i, L, j);
      Places(lv, l, i, L, j + 1);
    }
  }

  /** After a merge the parent alone may be short of a child. */
  lemma MinAfterMerge(pages: Pages, root: Id, lv: seq<seq<int>>, L: nat, t: nat, kp: nat, j: nat, except: set<Id>)
    requires Tree(pages, root, lv) && MinKeys(pages, lv, except) && Siblings(pages, lv, L, t, kp, j)
    requires except == {lv[L][j]} || except == {lv[L][j + 1]}
    ensures var pages' := MergePages(pages, lv[L][j], lv[L][j + 1], lv[L - 1][t], kp + 1);
            MinKeys(pages', lv[L := Without(lv[L], j + 1)], {lv[L - 1][t]})
  {
    hide Nodes, Distinct, MergePages;
    var a, b, P := lv[L][j], lv[L][j + 1], lv[L - 1][t];
    var pages' := MergePages(pages, a, b, P, kp + 1);
    var lv' := lv[L := Without(lv[L], j + 1)];
    Places(lv, L, j, L - 1, t);
    Places(lv, L, j, L, j + 1);
    MergeNodes(pages, a, b, P, kp + 1);
    forall l, i | 0 <= l < |lv'| - 1 && 0 <= i < |lv'[l]|
      ensures lv'[l][i] in {P} || |Nodes(pages', lv'[l][i])| >= if l == |lv'| - 2 then 1 else 2
    {
      var i0 := if l == L && i > j then i + 1 else i;
      assert lv'[l][i] == lv[l][i0];
      Places(lv, l, i0, L, j);
      Places(lv, l, i0, L, j + 1);
      assert lv[l][i0] in except || |Nodes(pages, lv[l][i0])| >= if l == |lv| - 2 then 1 else 2;
      assert lv[L][j] in except || |Nodes(pages, a)| >= if L == |lv| - 2 then 1 else 2;
      assert lv[L][j + 1] in except || |Nodes(pages, b)| >= if L == |lv| - 2 then 1 else 2;
    }
  }

  /** Pages that may be handed out are in no row. */
  ghost predicate Unused(lv: seq<seq<int>>, loose: seq<Id>, next: Id) {
    && (forall l, i :: 0 <= l < |lv| - 1 && 0 <= i < |lv[l]| ==> lv[l][i] < next)
    && (forall i :: 0 <= i < |loose| ==> loose[i] < next && Fresh(lv, loose[i]))
    && forall i, k :: 0 <= i < k < |loose| ==> loose[i] != loose[k]
  }

  /**
   The pages below first are those the transaction has found: they stay as they
   are in base.  The pages it may write are those from first on, and the loose
   ones are among them.
   */
  ghost predicate Apart(base: Pages, first: Id, pages: Pages, loose: seq<Id>, next: Id, dirty: set<Id>) {
    && first <= next
    && (forall id :: id in dirty <==> first <= id < next)
    && (forall i :: 0 <= i < |loose| ==> loose[i] in dirty)
    && forall id :: id < first ==> Nodes(pages, id) == Nodes(base, id)
  }

  lemma ApartEdit(base: Pages, first: Id, pages: Pages, loose: seq<Id>, next: Id, dirty: set<Id>, id: Id,
                  nodes: seq<int>)
    requires Apart(base, first, pages, loose, next, dirty) && first <= id
    ensures Apart(base, first, pages[id := nodes], loose, next, dirty)
  {
  }

  /** Every page that is not dirty stays as it is, and stays clean. */
  ghost predicate CleanKept(pages: Pages, dirty: set<Id>, next: Id, pages': Pages, dirty': set<Id>) {
    forall id :: id < next && id !in dirty ==> id !in dirty' && Nodes(pages', id) == Nodes(pages, id)
  }

  lemma DirtyNew(base: Pages, first: Id, pages: Pages, loose: seq<Id>, next: Id, dirty: set<Id>)
    requires Apart(base, first, pages, loose, next, dirty)
    ensures forall id :: id in dirty ==> first <= id
  {
  }

  lemma ApartKeeps(base: Pages, first: Id, pages: Pages, loose: seq<Id>, next: Id, dirty: set<Id>, pages': Pages,
                   loose': seq<Id>, next': Id, dirty': set<Id>)
    requires Apart(base, first, pages, loose, next, dirty) && Apart(base, first, pages', loose', next', dirty')
    ensures CleanKept(pages, dirty, next, pages', dirty')
  {
    hide Nodes;
  }

  lemma UnusedWithout(lv: seq<seq<int>>, L: nat, j: nat, loose: seq<Id>, next: Id)
    requires Unused(lv, loose, next) && Distinct(lv) && L < |lv| - 1 && j < |lv[L]|
    ensures Unused(lv[L := Without(lv[L], j)], [lv[L][j]] + loose, next)
            && Unused(lv[L := Without(lv[L], j)], loose, next)
  {
    var lv' := lv[L := Without(lv[L], j)];
    var id := lv[L][j];
    forall l, i | 0 <= l < |lv'| - 1 && 0 <= i < |lv'[l]|
      ensures lv'[l][i] < next && lv'[l][i] != id && forall k :: 0 <= k < |loose| ==> loose[k] != lv'[l][i]
    {
      var i0 := if l == L && i >= j then i + 1 else i;
      assert lv'[l][i] == lv[l][i0];
      Places(lv, l, i0, L, j);
    }
  }

  lemma UnusedLast(lv: seq<seq<int>>, row: seq<int>, loose: seq<Id>, next: Id)
    requires Unused(lv, loose, next) && |lv| > 0
    ensures Unused(lv[|lv| - 1 := row], loose, next)
  {
  }

  lemma UnusedEmpty(lv: seq<seq<int>>, loose: seq<Id>, next: Id)
    requires Unused(lv, loose, next)
    ensures Unused([], loose, next)
  {
  }

  lemma UnusedBelow(lv: seq<seq<int>>, loose: seq<Id>, next: Id)
    requires Unused(lv, loose, next) && |lv| > 1
    ensures Unused(lv[1..], loose, next)
  {
    var lv' := lv[1..];
    forall l, i | 0 <= l < |lv'| - 1 && 0 <= i < |lv'[l]|
      ensures lv'[l][i] < next && forall k :: 0 <= k < |loose| ==> loose[k] != lv'[l][i]
    {
      assert lv'[l][i] == lv[l + 1][i];
    }
  }

  /** Below a branch page with nodes all pages have some. */
  lemma KeyedRoom(pages: Pages, root: Id, lv: seq<seq<int>>, L: nat, t: nat, kp: nat, j: nat, page: Id)
    requires Tree(pages, root, lv) && Siblings(pages, lv, L, t, kp, j) && L + 2 < |lv| && MinKeys(pages, lv, {page})
             && Nodes(pages, page) != []
    requires page == lv[L][j] || page == lv[L][j + 1]
    ensures Nodes(pages, lv[L][j]) != [] && Nodes(pages, lv[L][j + 1]) != [] && NoneEmpty(pages, lv, L + 1)
    ensures var g := Start(pages, lv[L], j + 1);
            && g < |lv[L + 1]| && lv[L + 1][g] == Nodes(pages, lv[L][j + 1])[0]
            && Nodes(pages, lv[L + 1][g]) != [] && NoneEmpty(pages, lv, L + 2)
  {
    hide Joined, Distinct, Rows;
    forall m, i | L <= m < |lv| - 1 && 0 <= i < |lv[m]| ensures Nodes(pages, lv[m][i]) != [] {
      assert lv[m][i] in {page} || |Nodes(pages, lv[m][i])| >= if m == |lv| - 2 then 1 else 2;
    }
    RowBelow(pages, root, lv, L);
    NodeAt(pages, lv[L], j + 1, 0);
  }

  /** The tree and the acting cursor after a node has gone over. */
  lemma BorrowedTree(pages: Pages, pages': Pages, root: Id, lv: seq<seq<int>>, top: nat, t: nat, kp: nat, j: nat,
                     page: Id, mc: Stack, ix: seq<nat>, fromleft: bool, mc': Stack)
    requires Tree(pages, root, lv) && Siblings(pages, lv, top, t, kp, j) && |mc.pg| == |mc.ki| > top > 0 && mc.init
    requires Stands(pages, lv, page, mc, ix) && page == mc.pg[|mc.pg| - 1] && lv[top - 1][t] == mc.pg[top - 1]
    requires MinKeys(pages, lv, {mc.pg[top]}) && lv[top][j] != lv[top][j + 1]
             && (top < |lv| - 2 ==> Nodes(pages, mc.pg[top]) != [])
    requires var a, b := lv[top][j], lv[top][j + 1];
             && mc.pg[top] == (if fromleft then b else a)
             && |Nodes(pages, if fromleft then a else b)| > (if top == |lv| - 2 then 1 else 2)
             && pages' == if fromleft then MoveLeftNode(pages, a, b) else MoveRightNode(pages, a, b)
    requires mc' == mc.(ki := mc.ki[top := mc.ki[top] + if fromleft then 1 else 0])
    ensures Tree(pages', root, lv) && MinKeys(pages', lv, {})
            && Nodes(pages', mc.pg[top - 1]) == Nodes(pages, mc.pg[top - 1])
            && |Nodes(pages', mc.pg[top])| == |Nodes(pages, mc.pg[top])| + 1
    ensures StandsSame(pages, mc, ix, page, pages', lv, page, mc')
  {
    hide Joined, Nodes, Distinct, Rows, Traces, StandsSame, FromLeft, FromRight, MoveLeftNode, MoveRightNode, MinKeys;
    var a, b := lv[top][j], lv[top][j + 1];
    MovedNodes(pages, a, b);
    Places(lv, top, j, top - 1, t);
    Places(lv, top, j + 1, top - 1, t);
    RowsShift(pages, pages', root, lv, top, j);
    MinAfterMove(pages, pages', lv, top, j, {mc.pg[top]});
    LastTop(pages, lv, page, mc, ix);
    if fromleft {
      MovedSelf(mc, top, a, b, |Nodes(pages, a)| - 1);
      FromLeftStands(pages, root, lv, top, t, kp, j, page, mc, ix);
    } else {
      MovedSelf(mc, top, a, b, |Nodes(pages, a)|);
      FromRightStands(pages, root, lv, top, t, kp, j, page, mc, ix);
    }
  }

  lemma LastTop(pages: Pages, lv: seq<seq<int>>, page: Id, c: Stack, ix: seq<nat>)
    requires Stands(pages, lv, page, c, ix)
    ensures |c.pg| == |c.ki| == |lv| - 1 >= 1
  {
  }

  /**
   What is asked about the bytes of a page.  On a branch page that depends on the
   keys of its nodes, too, so all keys are passed.
   */
  datatype Sizes = Sizes(
    /** The PAGEFILL test of mdb_rebalance on a leaf (true) or branch page. */
    fill: (Keys, bool, seq<int>) -> bool,
    /** SIZELEFT of a leaf suffices for one more item. */
    leafRoom: (seq<int>, int) -> bool,
    /** SIZELEFT of a branch page suffices for a node that leads to the page. */
    room: (Keys, seq<int>, Id) -> bool,
    /** This key fits in the branch page in place of that of the node at the index. */
    fits: (Keys, seq<int>, nat, int) -> bool,
    /** The split point of mdb_page_split on a leaf (true) or branch page with
        these nodes, for a new node that comes to the given index. */
    pick: (Keys, bool, seq<int>, nat, int) -> nat)

  /** Nodes are small next to pages: beside a node that does not fit a leaf has
      two and a branch page three, and a split leaves each page what it needs. */
  ghost predicate Proportioned(sizes: Sizes) {
    && (forall nodes, x :: !sizes.leafRoom(nodes, x) ==> |nodes| >= 2)
    && (forall keys, nodes, id :: !sizes.room(keys, nodes, id) ==> |nodes| >= 3)
    && (forall keys, nodes, i, sep :: !sizes.fits(keys, nodes, i, sep) ==> |nodes| >= 4)
    && forall keys, leaf, nodes, i: nat, x :: i <= |nodes| && (if leaf then 2 else 3) <= |nodes| ==>
         var least := if leaf then 1 else 2;
         least <= sizes.pick(keys, leaf, nodes, i, x) && sizes.pick(keys, leaf, nodes, i, x) + least <= |nodes| + 1
  }

  class Database {
    var pages: Pages
    var root: Id
    var depth: nat
    var cursors: seq<Stack>

    /** The keys of the branch nodes, by the page they lead to. */
    var keys: Keys

    /** The key of an item. */
    const key: int -> int
    ghost var lv: seq<seq<int>>

    /** Loose pages, which mdb_page_alloc hands out first, and the number of the next new page. */
    var loose: seq<Id>
    var next: Id

    /** Pages that this transaction may write: P_DIRTY. */
    var dirty: set<Id>

    /** The pages when the transaction began, and the number of its first new page. */
    ghost const base: Pages
    ghost const first: Id

    /** What fits where. */
    const sizes: Sizes

    ghost predicate Sized() { Proportioned(sizes) }

    /** mdb_txn_begin: the tree as the last commit left it; page numbers from
        first on are free. */
    constructor (key: int -> int, sizes: Sizes, pages: Pages, root: Id, depth: nat, keys: Keys, first: Id,
                 ghost lv: seq<seq<int>>)
      requires Proportioned(sizes) && Unused(lv, [], first)
      ensures this.key == key && this.sizes == sizes && this.pages == pages == base && this.root == root
              && this.depth == depth && this.keys == keys && this.lv == lv && this.next == first == this.first
      ensures cursors == [] && loose == [] && dirty == {} && Spare() && Sized() && Intact()
    {
      this.key, this.sizes := key, sizes;
      this.pages, this.root, this.depth, this.keys, this.lv := pages, root, depth, keys, lv;
      cursors, loose, next, dirty, base, this.first := [], [], first, {}, pages, first;
    }

    /** No page of the last commit has been written. */
    ghost predicate Intact()
      reads `pages, `loose, `next, `dirty
    {
      Apart(base, first, pages, loose, next, dirty)
    }

    /** The first n pages of the stack may be written: mdb_cursor_touch has copied them. */
    ghost predicate Writable(c: Stack, n: nat)
      reads `pages, `loose, `next, `dirty
    {
      Intact() && n <= |c.pg| && forall l :: 0 <= l < n ==> first <= c.pg[l]
    }

    ghost predicate Spare()
      reads this
    {
      Unused(lv, loose, next)
    }

    /** Items in order, and all keys of branch nodes right. */
    ghost predicate InOrder()
      reads this
    {
      RightKeys(pages, lv, keys, key)
    }

    /** The page was handed out and is in no row yet. */
    ghost predicate Reserved(id: Id)
      reads this
    {
      id < next && id !in loose && Fresh(lv, id)
    }

    /** mdb_page_new. */
    method NewPage() returns (id: Id)
      requires Spare() && Intact()
      modifies `pages, `loose, `next, `dirty
      ensures Intact() && first <= id && CleanKept(old(pages), old(dirty), old(next), pages, dirty)
      ensures Spare() && Reserved(id) && pages == old(pages)[id := []] && dirty == old(dirty) + {id}
              && next >= old(next)
      ensures if old(loose) != [] then id == old(loose)[0] && loose == old(loose)[1..] && next == old(next)
              else id == old(next) && loose == [] && next == id + 1
      ensures forall y :: old(Reserved(y)) ==> Reserved(y) && y != id
    {
      if |loose| > 0 {
        id := loose[0];
        loose := loose[1..];
      } else {
        id := next;
        next := next + 1;
      }
      pages := pages[id := []];
      dirty := dirty + {id};
    }

    ghost predicate WellFormed()
      reads this
    {
      forall i :: 0 <= i < |cursors| ==> |cursors[i].pg| == |cursors[i].ki|
    }

    ghost predicate Ok(except: set<Id>)
      reads this
    {
      depth >= 1 && |lv| == depth + 1 && Tree(pages, root, lv) && MinKeys(pages, lv, except) && WellFormed()
    }

    /** Every tracked cursor but the acting one, after mdb_node_move. */
    method AdjustMoved(me: nat, csrc: Stack, cdst: Stack, top: nat, fromleft: bool)
      requires WellFormed()
      requires |csrc.pg| == |csrc.ki| > top > 0 && |cdst.pg| == |cdst.ki| > top
      modifies `cursors
      ensures |cursors| == |old(cursors)| && (me < |cursors| ==> cursors[me] == old(cursors)[me])
      ensures forall i :: 0 <= i < |cursors| && i != me ==>
        cursors[i] == MovedOver(old(cursors)[i], top, csrc, cdst, fromleft)
    {
      var i := 0;
      while i < |cursors|
        invariant 0 <= i <= |cursors| == |old(cursors)|
        invariant forall k :: i <= k < |cursors| ==> cursors[k] == old(cursors)[k]
        invariant forall k :: 0 <= k < i && k != me ==>
                    cursors[k] == MovedOver(old(cursors)[k], top, csrc, cdst, fromleft)
        invariant me < |cursors| ==> cursors[me] == old(cursors)[me]
      {
        if i != me {
          cursors := cursors[i := MovedOver(cursors[i], top, csrc, cdst, fromleft)];
        }
        i := i + 1;
      }
    }

    /** The same after mdb_page_merge, whose destination had nkeys nodes. */
    method AdjustMerged(me: nat, csrc: Stack, cdst: Stack, top: nat, nkeys: nat)
      requires WellFormed()
      requires |csrc.pg| == |csrc.ki| > top > 0 && |cdst.pg| == |cdst.ki| > top
      modifies `cursors
      ensures |cursors| == |old(cursors)| && (me < |cursors| ==> cursors[me] == old(cursors)[me])
      ensures forall i :: 0 <= i < |cursors| && i != me ==>
                cursors[i] == MergedInto(old(cursors)[i], top, csrc, cdst, nkeys)
    {
      var i := 0;
      while i < |cursors|
        invariant 0 <= i <= |cursors| == |old(cursors)|
        invariant forall k :: i <= k < |cursors| ==> cursors[k] == old(cursors)[k]
        invariant forall k :: 0 <= k < i && k != me ==>
                    cursors[k] == MergedInto(old(cursors)[k], top, csrc, cdst, nkeys)
        invariant me < |cursors| ==> cursors[me] == old(cursors)[me]
      {
        if i != me {
          cursors := cursors[i := MergedInto(cursors[i], top, csrc, cdst, nkeys)];
        }
        i := i + 1;
      }
    }

    /** mdb_node_move: the node csrc is on goes to where cdst is. */
    method NodeMove(me: nat, csrc: Stack, cdst: Stack, top: nat, fromleft: bool)
      requires WellFormed() && Intact()
      requires |csrc.pg| == |csrc.ki| > top > 0 && |cdst.pg| == |cdst.ki| > top && csrc.pg[top] != cdst.pg[top]
      requires Nodes(pages, csrc.pg[top]) != []
      requires fromleft ==> csrc.ki[top] == |Nodes(pages, csrc.pg[top])| - 1 && cdst.ki[top] == 0
      requires !fromleft ==> csrc.ki[top] == 0 && cdst.ki[top] == |Nodes(pages, cdst.pg[top])|
      requires first <= csrc.pg[top] && first <= cdst.pg[top]
      modifies `pages, `cursors
      ensures Intact()
      ensures pages == if fromleft then MoveLeftNode(old(pages), csrc.pg[top], cdst.pg[top])
                       else MoveRightNode(old(pages), cdst.pg[top], csrc.pg[top])
      ensures |cursors| == |old(cursors)| && (me < |cursors| ==> cursors[me] == old(cursors)[me])
      ensures forall i :: 0 <= i < |cursors| && i != me ==>
        cursors[i] == MovedOver(old(cursors)[i], top, csrc, cdst, fromleft)
    {
      var mps, mpd := csrc.pg[top], cdst.pg[top];
      var A, B := Nodes(pages, mps), Nodes(pages, mpd);
      pages := pages[mpd := Inserted(B, cdst.ki[top], A[csrc.ki[top]])];
      pages := pages[mps := Without(A, csrc.ki[top])];
      if fromleft {
        assert Inserted(B, 0, A[|A| - 1]) == [A[|A| - 1]] + B && Without(A, |A| - 1) == A[..|A| - 1];
      } else {
        assert Inserted(B, |B|, A[0]) == B + [A[0]] && Without(A, 0) == A[1..];
      }
      AdjustMoved(me, csrc, cdst, top, fromleft);
    }

    /** mdb_page_merge, before the parent is rebalanced; a dirty source page
        becomes loose. */
    method PageMerge(me: nat, csrc: Stack, cdst: Stack, top: nat)
      requires WellFormed() && Intact()
      requires |csrc.pg| == |csrc.ki| > top > 0 && |cdst.pg| == |cdst.ki| > top && csrc.pg[top] != cdst.pg[top]
      requires csrc.pg[top - 1] != cdst.pg[top] && csrc.ki[top - 1] < |Nodes(pages, csrc.pg[top - 1])|
      requires first <= csrc.pg[top - 1] && first <= cdst.pg[top]
      modifies `pages, `cursors, `loose
      ensures Intact()
      ensures loose == if csrc.pg[top] in dirty then [csrc.pg[top]] + old(loose) else old(loose)
      ensures pages == MergePages(old(pages), cdst.pg[top], csrc.pg[top], csrc.pg[top - 1], csrc.ki[top - 1])
      ensures |cursors| == |old(cursors)| && (me < |cursors| ==> cursors[me] == old(cursors)[me])
      ensures forall i :: 0 <= i < |cursors| && i != me ==>
        cursors[i] == MergedInto(old(cursors)[i], top, csrc, cdst, |Nodes(old(pages), cdst.pg[top])|)
    {
      var pdst, parent := cdst.pg[top], csrc.pg[top - 1];
      var src, dst := Nodes(pages, csrc.pg[top]), Nodes(pages, pdst);
      var nkeys := |dst|;
      var i, j := 0, nkeys;
      while i < |src|
        invariant 0 <= i <= |src| && j == nkeys + i
        invariant dst == Nodes(pages, pdst) + src[..i]
      {
        dst := Inserted(dst, j, src[i]);
        i, j := i + 1, j + 1;
      }
      assert src[..|src|] == src;
      pages := pages[pdst := dst];
      pages := pages[parent := Without(Nodes(pages, parent), csrc.ki[top - 1])];
      if csrc.pg[top] in dirty {
        loose := [csrc.pg[top]] + loose;
      }
      AdjustMerged(me, csrc, cdst, top, nkeys);
    }

    ghost function Items(): seq<int>
      requires |lv| > 0
      reads this
    {
      lv[|lv| - 1]
    }

    /** mdb_page_search_lowest: the key of the first item below page i of the row. */
    method Lowest(id: Id, row: nat, ghost i: nat) returns (k: int)
      requires Tree(pages, root, lv) && |lv| == depth + 1 && row < depth && i < |lv[row]| && lv[row][i] == id
      requires Nodes(pages, id) != [] && NoneEmpty(pages, lv, row + 1)
      ensures Low(pages, lv, row, i) < |lv[|lv| - 1]| && k == key(lv[|lv| - 1][Low(pages, lv, row, i)])
    {
      hide Joined, Nodes, Distinct, Rows, NoneEmpty;
      var at, page := row, id;
      ghost var g: nat := i;
      while at + 1 < depth
        invariant row <= at < depth && g < |lv[at]| && lv[at][g] == page && Nodes(pages, page) != []
                  && NoneEmpty(pages, lv, at + 1)
        invariant Low(pages, lv, at, g) == Low(pages, lv, row, i)
        decreases depth - at
      {
        RowBelow(pages, root, lv, at);
        NodeAt(pages, lv[at], g, 0);
        page := Nodes(pages, page)[0];
        g := Start(pages, lv[at], g);
        at := at + 1;
        NoneEmptyAt(pages, lv, at, g);
      }
      RowBelow(pages, root, lv, at);
      NodeAt(pages, lv[at], g, 0);
      k := key(Nodes(pages, page)[0]);
    }

    /** mdb_node_move with the keys of the nodes; sep is what the page on the
        right is to get for a key. */
    method MoveKeyed(me: nat, csrc: Stack, cdst: Stack, top: nat, fromleft: bool, ghost t: nat, ghost kp: nat,
                     ghost j: nat) returns (sep: int)
      requires depth == |csrc.pg| == |csrc.ki| == |cdst.pg| == |cdst.ki| > top > 0 && Ok({cdst.pg[top]}) && InOrder()
      requires Siblings(pages, lv, top, t, kp, j) && lv[top][j] != lv[top][j + 1]
      requires if fromleft then csrc.pg[top] == lv[top][j] && cdst.pg[top] == lv[top][j + 1]
               else csrc.pg[top] == lv[top][j + 1] && cdst.pg[top] == lv[top][j]
      requires |Nodes(pages, csrc.pg[top])| > 1 && (top < depth - 1 ==> Nodes(pages, cdst.pg[top]) != [])
      requires fromleft ==> csrc.ki[top] == |Nodes(pages, csrc.pg[top])| - 1 && cdst.ki[top] == 0
      requires !fromleft ==> csrc.ki[top] == 0 && cdst.ki[top] == |Nodes(pages, cdst.pg[top])|
      requires Intact() && first <= csrc.pg[top] && first <= cdst.pg[top]
      modifies `pages, `cursors, `keys
      ensures Intact()
      ensures pages == if fromleft then MoveLeftNode(old(pages), csrc.pg[top], cdst.pg[top])
                       else MoveRightNode(old(pages), cdst.pg[top], csrc.pg[top])
      ensures |cursors| == |old(cursors)| && (me < |cursors| ==> cursors[me] == old(cursors)[me])
      ensures forall i :: 0 <= i < |cursors| && i != me ==>
        cursors[i] == MovedOver(old(cursors)[i], top, csrc, cdst, fromleft)
      ensures RightKeys(pages, lv, keys[lv[top][j + 1] := sep], key)
    {
      hide Joined, Nodes, Distinct, Rows, MoveLeftNode, MoveRightNode, MinKeys, RightKeys, Low, NoneEmpty, KeyOf,
           MovedOver;
      var right, leaf := if fromleft then cdst.pg[top] else csrc.pg[top], top == depth - 1;
      ghost var pages0, keys0 := pages, keys;
      if !leaf {
        KeyedRoom(pages, root, lv, top, t, kp, j, cdst.pg[top]);
        var low := Lowest(Nodes(pages, right)[0], top + 1, Start(pages, lv[top], j + 1));
        keys := keys[Nodes(pages, right)[0] := low];
      }
      NodeMove(me, csrc, cdst, top, fromleft);
      MovedNodes(pages0, lv[top][j], lv[top][j + 1]);
      var first := Nodes(pages, right)[0];
      sep := if leaf then key(first) else KeyOf(keys, first);
      MovedKeys(pages0, root, lv, top, t, kp, j, fromleft, keys0, keys, sep, key);
    }

    /** The other cursors, after a node has gone over. */
    lemma OthersMoved(pages0: Pages, t: nat, kp: nat, j: nat, top: nat, page: Id, csrc: Stack, cdst: Stack,
                      fromleft: bool, cs0: seq<Stack>, me: nat)
      requires |csrc.pg| == |csrc.ki| > top > 0 && |cdst.pg| == |cdst.ki| > top
      requires Tree(pages0, root, lv) && Siblings(pages0, lv, top, t, kp, j)
               && (top == |lv| - 2 ==> page == cdst.pg[top])
      requires |Nodes(pages0, csrc.pg[top])| > 0 && |cursors| == |cs0|
      requires var a, b := lv[top][j], lv[top][j + 1];
               if fromleft then
                 csrc.pg[top] == a && cdst.pg[top] == b && csrc.ki[top] == |Nodes(pages0, a)| - 1 && cdst.ki[top] == 0
               else csrc.pg[top] == b && cdst.pg[top] == a && cdst.ki[top] == |Nodes(pages0, a)|
      requires pages == if fromleft then MoveLeftNode(pages0, csrc.pg[top], cdst.pg[top])
                        else MoveRightNode(pages0, cdst.pg[top], csrc.pg[top])
      requires forall i :: 0 <= i < |cs0| && i != me ==>
                 |cs0[i].pg| == |cs0[i].ki| && cursors[i] == MovedOver(cs0[i], top, csrc, cdst, fromleft)
      ensures forall i :: 0 <= i < |cs0| && i != me ==>
                Kept(pages0, lv, page, cs0[i], pages, lv, page, cursors[i]) && |cursors[i].pg| == |cursors[i].ki|
    {
      hide Joined, Nodes, Distinct, Rows, Traces, Kept, FromLeft, FromRight, MoveLeftNode, MoveRightNode;
      forall i | 0 <= i < |cs0| && i != me
        ensures Kept(pages0, lv, page, cs0[i], pages, lv, page, cursors[i]) && |cursors[i].pg| == |cursors[i].ki|
      {
        if fromleft {
          FromLeftKept(pages0, root, lv, top, t, kp, j, page, cs0[i]);
        } else {
          FromRightKept(pages0, root, lv, top, t, kp, j, page, cs0[i]);
        }
        KeptShape(pages0, lv, page, cs0[i], pages, lv, page, cursors[i]);
      }
    }

    /** mdb_rebalance with a neighbour that can spare a node. */
    method Borrow(me: nat, mc: Stack, mn: Stack, top: nat, fromleft: bool, ghost ix: seq<nat>)
      returns (mc': Stack, sep: int)
      requires depth == |mc.pg| == |mc.ki| == |mn.pg| == |mn.ki| > top > 0 && mc.init
      requires Ok({mc.pg[top]}) && Stands(pages, lv, mc.pg[depth - 1], mc, ix)
      requires top < depth - 1 ==> Nodes(pages, mc.pg[top]) != []
      requires var P, k := Nodes(pages, mc.pg[top - 1]), mc.ki[top - 1];
        if fromleft then 0 < k < |P| && mn.pg[top] == P[k - 1] && mn.ki[top] == |Nodes(pages, mn.pg[top])| - 1
        else k + 1 < |P| && mn.pg[top] == P[k + 1] && mn.ki[top] == 0
      requires |Nodes(pages, mn.pg[top])| > (if top == depth - 1 then 1 else 2) && InOrder()
      requires Writable(mc, top + 1) && first <= mn.pg[top]
      modifies `pages, `cursors, `keys
      ensures Intact() && |Nodes(pages, mc.pg[top])| == |Nodes(old(pages), mc.pg[top])| + 1
      ensures RightKeys(pages, lv, keys[(if fromleft then mc.pg[top] else mn.pg[top]) := sep], key)
      ensures Ok({}) && depth == old(depth) && Items() == old(Items())
      ensures |cursors| == |old(cursors)| && (me < |cursors| ==> cursors[me] == old(cursors)[me])
      ensures |mc'.pg| == |mc'.ki| == depth && mc'.init && mc'.del == mc.del && mc'.eof == mc.eof
      ensures mc'.pg == mc.pg && mc'.ki[top - 1] == mc.ki[top - 1]
              && Nodes(pages, mc.pg[top - 1]) == Nodes(old(pages), mc.pg[top - 1])
      ensures forall i :: 0 <= i < |cursors| && i != me ==>
        Kept(old(pages), old(lv), mc.pg[depth - 1], old(cursors)[i], pages, lv, mc'.pg[depth - 1], cursors[i])
      ensures StandsSame(old(pages), mc, ix, mc.pg[depth - 1], pages, lv, mc'.pg[depth - 1], mc')
    {
      hide Joined, Nodes, Distinct, Rows, Traces, Kept, StandsSame, Stands, MoveLeftNode, MoveRightNode, MinKeys,
           RightKeys, MovedOver, Apart;
      ghost var kp := if fromleft then mc.ki[top - 1] - 1 else mc.ki[top - 1];
      StandsTraces(pages, lv, mc.pg[depth - 1], mc, ix);
      Beside(pages, root, lv, top, mc, ix, kp);
      ghost var t, j, page := ix[top - 1], ix[top] - (mc.ki[top - 1] - kp), mc.pg[depth - 1];
      ghost var pages0, cs0 := pages, cursors;
      var oldki := mc.ki[top];
      var dst := mc.(ki := mc.ki[top := if fromleft then 0 else |Nodes(pages, mc.pg[top])|]);
      sep := MoveKeyed(me, mn, dst, top, fromleft, t, kp, j);
      if fromleft {
        oldki := oldki + 1;
      }
      mc' := mc.(ki := mc.ki[top := oldki]);
      BorrowedTree(pages0, pages, root, lv, top, t, kp, j, page, mc, ix, fromleft, mc');
      OthersMoved(pages0, t, kp, j, top, page, mn, dst, fromleft, cs0, me);
    }

    /** The key that the first node of the right page takes along when it is merged. */
    method KeyBeforeMerge(right: Id, top: nat, ghost t: nat, ghost kp: nat, ghost j: nat, ghost page: Id)
      requires 0 < top < depth && Ok({page}) && InOrder() && Siblings(pages, lv, top, t, kp, j)
               && right == lv[top][j + 1]
      requires (page == lv[top][j] || page == lv[top][j + 1]) && (top < depth - 1 ==> Nodes(pages, page) != [])
      modifies `keys
      ensures RightKeys(MergePages(pages, lv[top][j], right, lv[top - 1][t], kp + 1),
                        lv[top := Without(lv[top], j + 1)], keys, key)
    {
      hide Joined, Nodes, Distinct, Rows, MergePages, MinKeys, RightKeys, Low, NoneEmpty, KeyOf;
      ghost var keys0 := keys;
      if top < depth - 1 {
        KeyedRoom(pages, root, lv, top, t, kp, j, page);
        var low := Lowest(Nodes(pages, right)[0], top + 1, Start(pages, lv[top], j + 1));
        keys := keys[Nodes(pages, right)[0] := low];
      }
      FusedKeys(pages, root, lv, top, t, kp, j, keys0, keys, key);
    }

    /** The merge, and the stack of the acting cursor after it. */
    method MergeEither(me: nat, mc: Stack, mn: Stack, top: nat, fromleft: bool) returns (mc': Stack)
      requires WellFormed() && |mc.pg| == |mc.ki| == |mn.pg| == |mn.ki| > top > 0 && mc.pg[top - 1] == mn.pg[top - 1]
               && mc.pg[top] != mn.pg[top]
      requires mc.pg[top - 1] != if fromleft then mn.pg[top] else mc.pg[top]
      requires mc.ki[top - 1] < |Nodes(pages, mc.pg[top - 1])| && mn.ki[top - 1] < |Nodes(pages, mc.pg[top - 1])|
      requires if fromleft then mc.ki[top - 1] == mn.ki[top - 1] + 1 else mn.ki[top - 1] == mc.ki[top - 1] + 1
      requires Writable(mc, top) && first <= if fromleft then mn.pg[top] else mc.pg[top]
      modifies `pages, `cursors, `loose
      ensures Writable(mc', top)
      ensures var a, b := if fromleft then mn.pg[top] else mc.pg[top], if fromleft then mc.pg[top] else mn.pg[top];
              var kp := if fromleft then mn.ki[top - 1] else mc.ki[top - 1];
              && loose == (if b in dirty then [b] + old(loose) else old(loose))
              && pages == MergePages(old(pages), a, b, mc.pg[top - 1], kp + 1)
              && mc' == OnMerged(mc, top, a, |Nodes(old(pages), a)|, kp, fromleft)
              && |cursors| == |old(cursors)| && (me < |cursors| ==> cursors[me] == old(cursors)[me])
              && forall i :: 0 <= i < |cursors| && i != me ==>
                   cursors[i] == Merged(old(cursors)[i], top, b, a, |Nodes(old(pages), a)|, mc.pg[top - 1], kp, kp + 1)
    {
      hide Joined, Nodes, Merged, MergePages;
      var oldki := mc.ki[top];
      if !fromleft {
        PageMerge(me, mn, mc, top);
        mc' := mc.(ki := mc.ki[top := oldki]);
        assert mc' == mc;
      } else {
        oldki := oldki + |Nodes(pages, mn.pg[top])|;
        PageMerge(me, mc, mn, top);
        mc' := mc.(pg := mc.pg[top := mn.pg[top]], ki := mc.ki[top - 1 := mn.ki[top - 1]][top := oldki]);
      }
    }

    /** mdb_rebalance with a neighbour that cannot spare a node, up to the
        rebalancing of the parent. */
    method Absorb(me: nat, mc: Stack, mn: Stack, top: nat, fromleft: bool, ghost ix: seq<nat>)
      returns (mc': Stack, ghost ix': seq<nat>)
      requires depth == |mc.pg| == |mc.ki| == |mn.pg| == |mn.ki| > top > 0 && mc.init
      requires Ok({mc.pg[top]}) && Stands(pages, lv, mc.pg[depth - 1], mc, ix)
      requires var P, k := Nodes(pages, mc.pg[top - 1]), mc.ki[top - 1];
        if fromleft then
          0 < k < |P| && mn.pg[top] == P[k - 1] && mn.pg[top - 1] == mc.pg[top - 1] && mn.ki[top - 1] == k - 1
        else k + 1 < |P| && mn.pg[top] == P[k + 1] && mn.pg[top - 1] == mc.pg[top - 1] && mn.ki[top - 1] == k + 1
      requires Spare() && InOrder() && (top < depth - 1 ==> Nodes(pages, mc.pg[top]) != [])
      requires Writable(mc, top) && first <= if fromleft then mn.pg[top] else mc.pg[top]
      modifies `pages, `cursors, `lv, `loose, `keys
      ensures Spare() && InOrder() && Writable(mc', top)
      ensures |mc'.pg| == |mc'.ki| == depth && mc'.init && mc'.del == mc.del && mc'.eof == mc.eof
      ensures |lv| == |old(lv)| > top && |lv[top]| == |old(lv)[top]| - 1
              && forall l :: 0 <= l < |lv| && l != top ==> lv[l] == old(lv)[l]
      ensures depth == old(depth) && Ok({mc'.pg[top - 1]}) && Items() == old(Items())
              && Nodes(pages, mc'.pg[top - 1]) != []
      ensures |cursors| == |old(cursors)| && (me < |cursors| ==> cursors[me] == old(cursors)[me])
      ensures forall i :: 0 <= i < |cursors| && i != me ==>
        Kept(old(pages), old(lv), mc.pg[depth - 1], old(cursors)[i], pages, lv, mc'.pg[depth - 1], cursors[i])
      ensures Stands(pages, lv, mc'.pg[depth - 1], mc', ix') && |ix'| == |ix| && ix'[|ix'| - 1] == ix[|ix| - 1]
      ensures Inside(old(pages), mc) ==> Inside(pages, mc')
    {
      hide Joined, Nodes, Distinct, Rows, Traces, Kept, Merged, MergePages, MinKeys, Stands, Unused, Inside, RightKeys,
           OnMerged, Apart;
      ghost var kp := if fromleft then mc.ki[top - 1] - 1 else mc.ki[top - 1];
      ghost var page, P, lv0, pages0, cs0 := mc.pg[depth - 1], mc.pg[top - 1], lv, pages, cursors;
      ghost var j, page';
      j, page', ix' := MergeAll(pages, root, lv, top, mc, ix, kp);
      ghost var t := ix[top - 1];
      KeyBeforeMerge(if fromleft then mc.pg[top] else mn.pg[top], top, t, kp, j, mc.pg[top]);
      mc' := MergeEither(me, mc, mn, top, fromleft);
      lv := lv[top := Without(lv[top], j + 1)];
      UnusedWithout(lv0, top, j + 1, old(loose), next);
      forall i | 0 <= i < |cursors| && i != me
        ensures Kept(pages0, lv0, page, cs0[i], pages, lv, page', cursors[i]) && |cursors[i].pg| == |cursors[i].ki|
      {
        KeptShape(pages0, lv0, page, cs0[i], pages, lv, page', cursors[i]);
      }
    }

    /** Every other open cursor has a place. */
    ghost predicate AllStand(me: nat, page: Id)
      reads this
    {
      forall i :: 0 <= i < |cursors| && i != me && cursors[i].init ==> SomeStand(pages, lv, page, cursors[i])
    }

    /** The tree is empty: no cursor has a place any more. */
    method ReleaseAll(me: nat, mp: Id)
      requires WellFormed()
      modifies `cursors
      ensures |cursors| == |old(cursors)| && (me < |cursors| ==> cursors[me] == old(cursors)[me])
      ensures forall i :: 0 <= i < |cursors| && i != me ==>
        if old(cursors)[i].init && |old(cursors)[i].pg| > 0 && old(cursors)[i].pg[0] == mp
        then cursors[i] == old(cursors)[i].(pg := [], ki := [], init := false) else cursors[i] == old(cursors)[i]
    {
      var i := 0;
      while i < |cursors|
        invariant 0 <= i <= |cursors| == |old(cursors)|
        invariant forall k :: i <= k < |cursors| ==> cursors[k] == old(cursors)[k]
        invariant forall k :: 0 <= k < i && k != me ==>
          if old(cursors)[k].init && |old(cursors)[k].pg| > 0 && old(cursors)[k].pg[0] == mp
          then cursors[k] == old(cursors)[k].(pg := [], ki := [], init := false) else cursors[k] == old(cursors)[k]
        invariant me < |cursors| ==> cursors[me] == old(cursors)[me]
      {
        if i != me && cursors[i].init && |cursors[i].pg| > 0 && cursors[i].pg[0] == mp {
          cursors := cursors[i := cursors[i].(pg := [], ki := [], init := false)];
        }
        i := i + 1;
      }
    }

    /** The root mp has given way to its only child. */
    method CollapseOthers(me: nat, mp: Id)
      requires WellFormed()
      modifies `cursors
      ensures |cursors| == |old(cursors)| && (me < |cursors| ==> cursors[me] == old(cursors)[me])
      ensures forall i :: 0 <= i < |cursors| && i != me ==> cursors[i] == CollapsedFrom(old(cursors)[i], mp)
    {
      var i := 0;
      while i < |cursors|
        invariant 0 <= i <= |cursors| == |old(cursors)|
        invariant forall k :: i <= k < |cursors| ==> cursors[k] == old(cursors)[k]
        invariant forall k :: 0 <= k < i && k != me ==> cursors[k] == CollapsedFrom(old(cursors)[k], mp)
        invariant me < |cursors| ==> cursors[me] == old(cursors)[me]
      {
        if i != me {
          cursors := cursors[i := CollapsedFrom(cursors[i], mp)];
        }
        i := i + 1;
      }
    }

    /** The two cases of RootCase in which the root goes. */
    method RootEmpty(me: nat, mc: Stack) returns (mc': Stack)
      requires Spare() && WellFormed() && |mc.pg| > 0 && root == mc.pg[0]
      requires forall i :: 0 <= i < |cursors| && i != me && cursors[i].init ==>
                 |cursors[i].pg| > 0 && cursors[i].pg[0] == root
      modifies `root, `depth, `cursors, `lv
      ensures Spare() && depth == 0 && mc' == mc.(pg := [], ki := [], init := false)
      ensures |cursors| == |old(cursors)| && (me < |cursors| ==> cursors[me] == old(cursors)[me])
      ensures forall i :: 0 <= i < |cursors| && i != me ==> !cursors[i].init && |cursors[i].pg| == |cursors[i].ki|
    {
      hide Unused;
      var mp := root;
      root, depth := -1, 0;
      UnusedEmpty(lv, loose, next);
      lv := [];
      ReleaseAll(me, mp);
      mc' := mc.(pg := [], ki := [], init := false);
    }

    method RootLess(me: nat, mc: Stack, ghost ix: seq<nat>) returns (mc': Stack)
      requires depth == |mc.pg| == |mc.ki| > 1 && mc.init && root == mc.pg[0] && |Nodes(pages, root)| == 1
      requires Ok({root}) && Stands(pages, lv, mc.pg[depth - 1], mc, ix) && Spare() && InOrder()
      modifies `root, `depth, `cursors, `lv
      ensures Spare() && InOrder() && depth == old(depth) - 1 && |mc'.pg| == |mc'.ki| == depth
      ensures |cursors| == |old(cursors)| && (me < |cursors| ==> cursors[me] == old(cursors)[me])
      ensures |lv| == depth + 1 && Tree(pages, root, lv) && MinKeys(pages, lv, {}) && Items() == old(Items())
      ensures |old(lv)| > 0 && lv == old(lv)[1..]
      ensures mc'.init && mc'.del == mc.del && mc'.eof == mc.eof
      ensures StandsSame(old(pages), mc, ix, mc.pg[|mc.pg| - 1], pages, lv, mc'.pg[depth - 1], mc')
      ensures forall i :: 0 <= i < |cursors| && i != me ==>
        Kept(old(pages), old(lv), mc.pg[|mc.pg| - 1], old(cursors)[i], pages, lv, mc'.pg[depth - 1], cursors[i])
        && |cursors[i].pg| == |cursors[i].ki|
    {
      hide Joined, Nodes, Distinct, Rows, Traces, Kept, MinKeys, Stands, RightKeys, Unused, StandsSame;
      ghost var page, cs0, lv0 := mc.pg[depth - 1], cursors, lv;
      var nodes := Nodes(pages, root);
      assert nodes == [nodes[0]];
      CollapsedAll(pages, root, nodes[0], lv, page, mc, ix);
      MinAfterCollapse(pages, root, lv, nodes[0]);
      var mp := root;
      root, depth := nodes[0], depth - 1;
      mc' := Collapsed(mc);
      CollapseOthers(me, mp);
      UnusedBelow(lv, loose, next);
      CollapsedKeys(pages, lv, keys, key);
      lv := lv[1..];
      forall k | 0 <= k < |cursors| && k != me
        ensures Kept(old(pages), lv0, page, cs0[k], pages, lv, page, cursors[k]) && |cursors[k].pg| == |cursors[k].ki|
      {
        KeptShape(old(pages), lv0, page, cs0[k], pages, lv, page, cursors[k]);
      }
    }

    /** mdb_rebalance at the root: the tree may become empty, or lose a level. */
    method RootCase(me: nat, mc: Stack, ghost ix: seq<nat>) returns (mc': Stack)
      requires depth == |mc.pg| == |mc.ki| >= 1 && mc.init
      requires Ok({mc.pg[0]}) && Stands(pages, lv, mc.pg[depth - 1], mc, ix) && AllStand(me, mc.pg[depth - 1])
      requires depth > 1 ==> Nodes(pages, mc.pg[0]) != []
      requires Spare() && InOrder()
      modifies `root, `depth, `cursors, `lv
      ensures Spare() && (depth > 0 ==> InOrder())
      ensures |cursors| == |old(cursors)| && (me < |cursors| ==> cursors[me] == old(cursors)[me])
              && |mc'.pg| == |mc'.ki| == depth
      ensures depth == 0 ==> old(Items()) == [] && !mc'.init && WellFormed() && forall i ::
                0 <= i < |cursors| && i != me ==> !cursors[i].init
      ensures depth > 0 ==> lv == old(lv) || (|old(lv)| > 0 && lv == old(lv)[1..])
      ensures depth > 0 ==>
        && Ok({}) && Items() == old(Items())
        && mc'.init && mc'.del == mc.del && mc'.eof == mc.eof
        && StandsSame(old(pages), mc, ix, mc.pg[|mc.pg| - 1], pages, lv, mc'.pg[depth - 1], mc')
        && forall i :: 0 <= i < |cursors| && i != me ==>
             Kept(old(pages), old(lv), mc.pg[|mc.pg| - 1], old(cursors)[i], pages, lv, mc'.pg[depth - 1], cursors[i])
    {
      hide Joined, Nodes, Distinct, Rows, Traces, Kept, MinKeys, Stands, RightKeys, Unused, StandsSame;
      ghost var page := mc.pg[depth - 1];
      StandsTraces(pages, lv, page, mc, ix);
      RootOf(pages, root, lv, mc, ix);
      var nodes := Nodes(pages, mc.pg[0]);
      if |nodes| == 0 {
        AllThroughRoot(me, page);
        mc' := RootEmpty(me, mc);
      } else if depth > 1 && |nodes| == 1 {
        mc' := RootLess(me, mc, ix);
      } else {
        MinRoot(pages, root, lv, {root});
        mc' := mc;
        forall k | 0 <= k < |cursors| ensures Kept(pages, lv, page, cursors[k], pages, lv, page, cursors[k]) {
          KeptStill(pages, lv, page, cursors[k]);
        }
        StandsStill(pages, lv, page, mc, ix);
      }
    }

    lemma AllThroughRoot(me: nat, page: Id)
      requires |lv| >= 2 && lv[0] == [root] && AllStand(me, page)
      ensures forall i :: 0 <= i < |cursors| && i != me && cursors[i].init ==>
                |cursors[i].pg| > 0 && cursors[i].pg[0] == root
    {
      hide Joined, Nodes, Distinct, Rows, Traces;
      forall i | 0 <= i < |cursors| && i != me && cursors[i].init
        ensures |cursors[i].pg| > 0 && cursors[i].pg[0] == root
      {
        assert SomeStand(pages, lv, page, cursors[i]);
        var ix :| Stands(pages, lv, page, cursors[i], ix);
        TraceLink(pages, lv, cursors[i], ix, 0);
      }
    }

    /** The copy of the cursor that mdb_rebalance puts on a neighbour: the left
        one, or for the first child of its parent the right one. */
    method Neighbour(mc: Stack, top: nat, ghost ix: seq<nat>) returns (mn: Stack, fromleft: bool)
      requires depth == |mc.pg| == |mc.ki| > top > 0
      requires Ok({mc.pg[top]}) && Traces(pages, lv, mc, ix)
      ensures |mn.pg| == |mn.ki| == depth && mn.pg[..top] == mc.pg[..top] && mn.ki[..top - 1] == mc.ki[..top - 1]
      ensures var P, k := Nodes(pages, mc.pg[top - 1]), mc.ki[top - 1];
        if fromleft then
          0 < k < |P| && mn.pg[top] == P[k - 1] && mn.ki[top - 1] == k - 1
          && mn.ki[top] + 1 == |Nodes(pages, mn.pg[top])|
        else k == 0 && 1 < |P| && mn.pg[top] == P[1] && mn.ki[top - 1] == 1 && mn.ki[top] == 0
    {
      hide Joined, Nodes, Distinct, Rows, Traces, MinKeys;
      var ptop := top - 1;
      KeysOfPage(pages, lv, {mc.pg[top]}, mc, ix, ptop);
      ParentPage(pages, root, lv, mc, ix, top);
      var siblings := Nodes(pages, mc.pg[ptop]);
      fromleft := mc.ki[ptop] != 0;
      mn := mc;
      if !fromleft {
        mn := mn.(ki := mn.ki[ptop := mn.ki[ptop] + 1]);
        mn := mn.(pg := mn.pg[top := siblings[mn.ki[ptop]]]);
        mn := mn.(ki := mn.ki[top := 0]);
      } else {
        mn := mn.(ki := mn.ki[ptop := mn.ki[ptop] - 1]);
        mn := mn.(pg := mn.pg[top := siblings[mn.ki[ptop]]]);
        LeftKeys(pages, root, lv, mc, ix, top);
        mn := mn.(ki := mn.ki[top := |Nodes(pages, mn.pg[top])| - 1]);
      }
    }

    /** What is kept still has a place. */
    lemma StillStanding(me: nat, p0: Pages, lv0: seq<seq<int>>, page0: Id, cs0: seq<Stack>, page: Id)
      requires |cs0| == |cursors|
      requires forall i :: 0 <= i < |cs0| && i != me && cs0[i].init ==> SomeStand(p0, lv0, page0, cs0[i])
      requires forall i :: 0 <= i < |cs0| && i != me ==> Kept(p0, lv0, page0, cs0[i], pages, lv, page, cursors[i])
      ensures AllStand(me, page)
    {
      hide Traces, Nodes, Inside;
      forall i | 0 <= i < |cursors| && i != me && cursors[i].init ensures SomeStand(pages, lv, page, cursors[i]) {
        assert SomeStand(p0, lv0, page0, cs0[i]);
        var ix :| Stands(p0, lv0, page0, cs0[i], ix);
        assert StandsSame(p0, cs0[i], ix, page0, pages, lv, page, cursors[i]);
      }
    }
  }

  lemma Enough(pages: Pages, lv: seq<seq<int>>, mc: Stack, ix: seq<nat>, top: nat)
    requires Traces(pages, lv, mc, ix) && top < |lv| - 1 && |mc.pg| == |lv| - 1 && MinKeys(pages, lv, {mc.pg[top]})
             && Distinct(lv)
    requires |Nodes(pages, mc.pg[top])| >= if top == |lv| - 2 then 1 else 2
    ensures MinKeys(pages, lv, {})
  {
    hide Nodes, Distinct, Traces;
    TraceLink(pages, lv, mc, ix, top);
    forall l, i | 0 <= l < |lv| - 1 && 0 <= i < |lv[l]|
      ensures |Nodes(pages, lv[l][i])| >= if l == |lv| - 2 then 1 else 2
    {
      Places(lv, l, i, top, ix[top]);
    }
  }

  lemma LeftKeys(pages: Pages, root: Id, lv: seq<seq<int>>, mc: Stack, ix: seq<nat>, top: nat)
    requires Tree(pages, root, lv) && Traces(pages, lv, mc, ix) && 0 < top < |lv| - 1 && |mc.pg| == |mc.ki| == |lv| - 1
    requires MinKeys(pages, lv, {mc.pg[top]}) && 0 < mc.ki[top - 1] < |Nodes(pages, mc.pg[top - 1])|
    ensures Nodes(pages, Nodes(pages, mc.pg[top - 1])[mc.ki[top - 1] - 1]) != []
  {
    hide Nodes, Distinct, Traces, Joined, Rows;
    TraceLink(pages, lv, mc, ix, top);
    Beside(pages, root, lv, top, mc, ix, mc.ki[top - 1] - 1);
    var j := ix[top] - 1;
    assert lv[top][j] in {mc.pg[top]} || |Nodes(pages, lv[top][j])| >= if top == |lv| - 2 then 1 else 2;
  }

  /** The parent is another page, and leads to this one. */
  lemma ParentPage(pages: Pages, root: Id, lv: seq<seq<int>>, mc: Stack, ix: seq<nat>, top: nat)
    requires Tree(pages, root, lv) && Traces(pages, lv, mc, ix) && 0 < top < |lv| - 1 && |mc.pg| == |mc.ki| == |lv| - 1
    ensures mc.pg[top - 1] != mc.pg[top] && mc.ki[top - 1] < |Nodes(pages, mc.pg[top - 1])|
  {
    hide Nodes, Distinct, Traces, Joined;
    TraceLink(pages, lv, mc, ix, top - 1);
    TraceLink(pages, lv, mc, ix, top);
    Places(lv, top, ix[top], top - 1, ix[top - 1]);
  }

  lemma StandsTwice(p0: Pages, c0: Stack, ix0: seq<nat>, p1: Pages, c1: Stack, ix1: seq<nat>, p2: Pages,
                    lv2: seq<seq<int>>, c2: Stack)
    requires |c0.pg| == |c0.ki| > 0 && |ix0| > 0 && |c1.pg| == |c1.ki| > 0 && |ix1| > 0 && |c2.pg| == |c2.ki| > 0
    requires ix1[|ix1| - 1] == ix0[|ix0| - 1] && (Inside(p0, c0) ==> Inside(p1, c1))
    requires StandsSame(p1, c1, ix1, c1.pg[|c1.pg| - 1], p2, lv2, c2.pg[|c2.pg| - 1], c2)
    ensures StandsSame(p0, c0, ix0, c0.pg[|c0.pg| - 1], p2, lv2, c2.pg[|c2.pg| - 1], c2.(eof := false))
  {
    hide Traces, Nodes;
    var page2 := c2.pg[|c2.pg| - 1];
    var ix2 :| Stands(p2, lv2, page2, c2, ix2) && ix2[|lv2| - 1] == ix1[|ix1| - 1]
        && (Inside(p1, c1) ==> Inside(p2, c2));
    FlagsAside(p2, lv2, c2, c2.(eof := false), ix2);
    assert Stands(p2, lv2, page2, c2.(eof := false), ix2);
  }

  ghost predicate SomeStand(pages: Pages, lv: seq<seq<int>>, page: Id, c: Stack) {
    exists ix :: Stands(pages, lv, page, c, ix)
  }

  /** One turn of the loop in mdb_rebalance that shifts cursors up. */
  function CollapsedFrom(m3: Stack, mp: Id): Stack
    requires |m3.pg| == |m3.ki|
  {
    if m3.init && |m3.pg| > 0 && m3.pg[0] == mp then Collapsed(m3) else m3
  }

  lemma RootOf(pages: Pages, root: Id, lv: seq<seq<int>>, mc: Stack, ix: seq<nat>)
    requires Rows(pages, root, lv) && Traces(pages, lv, mc, ix)
    ensures |lv| >= 2 && lv[0] == [root] && |mc.pg| == |lv| - 1 && mc.pg[0] == root && lv[1] == Nodes(pages, root)
  {
    TraceLink(pages, lv, mc, ix, 0);
    JoinedAt(pages, [root], 0);
    assert [root][..0] == [] && [root][1..] == [];
  }

  lemma MinRoot(pages: Pages, root: Id, lv: seq<seq<int>>, except: set<Id>)
    requires MinKeys(pages, lv, except) && except == {root} && |lv| >= 2
    requires |Nodes(pages, root)| >= if |lv| > 2 then 2 else 1
    requires Rows(pages, root, lv) && Distinct(lv)
    ensures MinKeys(pages, lv, {})
  {
    forall l, i | 0 <= l < |lv| - 1 && 0 <= i < |lv[l]| && lv[l][i] == root ensures l == 0 {
      Places(lv, l, i, 0, 0);
    }
  }

  lemma MinAfterCollapse(pages: Pages, root: Id, lv: seq<seq<int>>, child: Id)
    requires MinKeys(pages, lv, {root}) && Rows(pages, root, lv) && Distinct(lv) && |lv| > 2
    ensures MinKeys(pages, lv[1..], {})
  {
    var lv' := lv[1..];
    forall l, i | 0 <= l < |lv'| - 1 && 0 <= i < |lv'[l]|
      ensures |Nodes(pages, lv'[l][i])| >= if l == |lv'| - 2 then 1 else 2
    {
      assert lv'[l] == lv[l + 1];
      Places(lv, l + 1, i, 0, 0);
    }
  }

  lemma StandsStill(pages: Pages, lv: seq<seq<int>>, page: Id, c: Stack, ix: seq<nat>)
    requires Stands(pages, lv, page, c, ix)
    ensures StandsSame(pages, c, ix, page, pages, lv, page, c)
  {
  }

  lemma CollapsedAll(pages: Pages, root: Id, child: Id, lv: seq<seq<int>>, page: Id, mc: Stack, ix: seq<nat>)
    requires Tree(pages, root, lv) && |lv| > 2 && Nodes(pages, root) == [child]
    requires mc.init && Stands(pages, lv, page, mc, ix) && page == mc.pg[|mc.pg| - 1]
    ensures Tree(pages, child, lv[1..]) && mc.pg[0] == root
    ensures StandsSame(pages, mc, ix, page, pages, lv[1..], page, Collapsed(mc))
            && Collapsed(mc).pg[|mc.pg| - 2] == page
    ensures forall c: Stack | |c.pg| == |c.ki| :: Kept(pages, lv, page, c, pages, lv[1..], page, CollapsedFrom(c, root))
  {
    hide Joined, Nodes, Distinct, Traces;
    CollapseKeeps(pages, root, child, lv);
    forall c: Stack | |c.pg| == |c.ki| ensures Kept(pages, lv, page, c, pages, lv[1..], page, CollapsedFrom(c, root)) {
      CollapsedKept(pages, root, child, lv, page, c);
    }
    assert Kept(pages, lv, page, mc, pages, lv[1..], page, CollapsedFrom(mc, root));
    assert StandsSame(pages, mc, ix, page, pages, lv[1..], page, CollapsedFrom(mc, root));
  }

  /** The stack after its page, or the one to the right of it, has gone. */
  function OnMerged(mc: Stack, top: nat, a: Id, n: nat, kp: nat, right: bool): (r: Stack)
    requires |mc.pg| == |mc.ki| > top > 0
    ensures |r.pg| == |r.ki| == |mc.pg| && r.pg[top - 1] == mc.pg[top - 1] && r.init == mc.init && r.eof == mc.eof
            && r.del == mc.del
  {
    if right then mc.(pg := mc.pg[top := a], ki := mc.ki[top - 1 := kp][top := mc.ki[top] + n]) else mc
  }

  /** The acting cursor after its page has been merged with a neighbour. */
  lemma MergedMine(pages: Pages, root: Id, lv: seq<seq<int>>, top: nat, t: nat, kp: nat, j: nat, page: Id, page': Id,
                   mc: Stack, ix: seq<nat>) returns (ix': seq<nat>)
    requires Tree(pages, root, lv) && Siblings(pages, lv, top, t, kp, j) && |mc.pg| == |mc.ki| > top > 0 && mc.init
    requires Stands(pages, lv, page, mc, ix) && page == mc.pg[|mc.pg| - 1] && lv[top - 1][t] == mc.pg[top - 1]
    requires page' == (if top == |lv| - 2 then lv[top][j] else page) && lv[top][j] != lv[top][j + 1]
    requires mc.ki[top - 1] == kp || mc.ki[top - 1] == kp + 1
    requires mc.pg[top] == if mc.ki[top - 1] == kp then lv[top][j] else lv[top][j + 1]
    ensures var a, b, P := lv[top][j], lv[top][j + 1], lv[top - 1][t];
            var pages', lv' := MergePages(pages, a, b, P, kp + 1), lv[top := Without(lv[top], j + 1)];
            var mc' := OnMerged(mc, top, a, |Nodes(pages, a)|, kp, mc.pg[top] == b);
            && Stands(pages', lv', page', mc', ix') && |ix'| == |ix| > 0 && ix'[|ix'| - 1] == ix[|ix| - 1]
            && (Inside(pages, mc) ==> Inside(pages', mc')) && page' == mc'.pg[|mc'.pg| - 1]
  {
    hide Joined, Nodes, Distinct, Rows, Traces, Merged, MergePages, MinKeys, Inside;
    LastTop(pages, lv, page, mc, ix);
    var a, b, P := lv[top][j], lv[top][j + 1], lv[top - 1][t];
    MergedStands(pages, root, lv, top, t, kp, j, page, page', mc, ix);
    MergedMe(mc, top, a, b, |Nodes(pages, a)|, P, kp);
    var pages', lv' := MergePages(pages, a, b, P, kp + 1), lv[top := Without(lv[top], j + 1)];
    var mc' := Merged(mc, top, b, a, |Nodes(pages, a)|, P, kp, kp + 1);
    ix' :| Stands(pages', lv', page', mc', ix') && ix'[|lv'| - 1] == ix[|ix| - 1]
      && (Inside(pages, mc) ==> Inside(pages', mc'))
      && (mc.pg[|mc.pg| - 1] == page ==> mc'.pg[|mc'.pg| - 1] == page');
  }

  /** The other ones. */
  lemma MergedOthers(pages: Pages, root: Id, lv: seq<seq<int>>, top: nat, t: nat, kp: nat, j: nat, page: Id, page': Id)
    requires Tree(pages, root, lv) && Siblings(pages, lv, top, t, kp, j)
    requires if top == |lv| - 2 then (page == lv[top][j] || page == lv[top][j + 1]) && page' == lv[top][j]
             else page' == page
    ensures var a, b, P := lv[top][j], lv[top][j + 1], lv[top - 1][t];
            forall c: Stack | |c.pg| == |c.ki| ::
              Kept(pages, lv, page, c, MergePages(pages, a, b, P, kp + 1), lv[top := Without(lv[top], j + 1)], page',
                   Merged(c, top, b, a, |Nodes(pages, a)|, P, kp, kp + 1))
  {
    hide Joined, Nodes, Distinct, Rows, Traces, Kept, Merged, MergePages;
    var a, b, P := lv[top][j], lv[top][j + 1], lv[top - 1][t];
    forall c: Stack | |c.pg| == |c.ki|
      ensures Kept(pages, lv, page, c, MergePages(pages, a, b, P, kp + 1), lv[top := Without(lv[top], j + 1)], page',
                   Merged(c, top, b, a, |Nodes(pages, a)|, P, kp, kp + 1))
    {
      MergedKept(pages, root, lv, top, t, kp, j, page, page', c);
    }
  }

  /** Everything about merging the cursor's page with a neighbour. */
  lemma MergeAll(pages: Pages, root: Id, lv: seq<seq<int>>, top: nat, mc: Stack, ix: seq<nat>, kp: nat)
    returns (j: nat, page': Id, ix': seq<nat>)
    requires |mc.pg| == |mc.ki| == |lv| - 1 > top > 0 && mc.init && Tree(pages, root, lv)
             && MinKeys(pages, lv, {mc.pg[top]})
    requires Stands(pages, lv, mc.pg[|mc.pg| - 1], mc, ix)
    requires kp + 1 < |Nodes(pages, mc.pg[top - 1])| && (mc.ki[top - 1] == kp || mc.ki[top - 1] == kp + 1)
    ensures |ix| == |lv| && ix[top - 1] < |lv[top - 1]|
    ensures var P := mc.pg[top - 1];
            var a, b := Nodes(pages, P)[kp], Nodes(pages, P)[kp + 1];
            && a != b && a != P && mc.pg[top] == (if mc.ki[top - 1] == kp then a else b)
            && j + 1 < |lv[top]| && lv[top][j + 1] == b && lv[top][j] == a
            && Siblings(pages, lv, top, ix[top - 1], kp, j) && lv[top - 1][ix[top - 1]] == P
            && var pages', lv' := MergePages(pages, a, b, P, kp + 1), lv[top := Without(lv[top], j + 1)];
            && Tree(pages', root, lv') && MinKeys(pages', lv', {P}) && Nodes(pages', P) != []
            && var mc' := OnMerged(mc, top, a, |Nodes(pages, a)|, kp, mc.pg[top] == b);
            && Stands(pages', lv', page', mc', ix') && |ix'| == |ix| && ix'[|ix'| - 1] == ix[|ix| - 1]
            && (Inside(pages, mc) ==> Inside(pages', mc')) && page' == mc'.pg[|mc'.pg| - 1]
            && forall c: Stack | |c.pg| == |c.ki| ::
                 Kept(pages, lv, mc.pg[|mc.pg| - 1], c, pages', lv', page',
                      Merged(c, top, b, a, |Nodes(pages, a)|, P, kp, kp + 1))
  {
    hide Joined, Nodes, Distinct, Rows, Traces, Kept, Merged, MergePages, MinKeys, Stands, Inside, OnMerged;
    StandsTraces(pages, lv, mc.pg[|mc.pg| - 1], mc, ix);
    Beside(pages, root, lv, top, mc, ix, kp);
    var t, page, P := ix[top - 1], mc.pg[|mc.pg| - 1], mc.pg[top - 1];
    j := ix[top] - (mc.ki[top - 1] - kp);
    var a, b := lv[top][j], lv[top][j + 1];
    Places(lv, top, j, top - 1, t);
    MergeNodes(pages, a, b, P, kp + 1);
    MergedTree(pages, root, lv, top, t, kp, j);
    MinAfterMerge(pages, root, lv, top, t, kp, j, {mc.pg[top]});
    page' := if top == |lv| - 2 then a else page;
    ix' := MergedMine(pages, root, lv, top, t, kp, j, page, page', mc, ix);
    MergedOthers(pages, root, lv, top, t, kp, j, page, page');
  }

  lemma MergedMe(mc: Stack, top: nat, a: Id, b: Id, n: nat, P: Id, kp: nat)
    requires |mc.pg| == |mc.ki| > top > 0 && mc.pg[top - 1] == P && a != b
    ensures mc.pg[top] == b || (mc.pg[top] == a && mc.ki[top - 1] == kp) ==>
              Merged(mc, top, b, a, n, P, kp, kp + 1) == OnMerged(mc, top, a, n, kp, mc.pg[top] == b)
  {
    if mc.pg[top] == b {
      assert mc.ki[top := mc.ki[top] + n][top - 1 := kp] == mc.ki[top - 1 := kp][top := mc.ki[top] + n];
    }
  }

  /** The acting cursor is fixed up by hand, to the same effect. */
  lemma MovedSelf(mc: Stack, top: nat, a: Id, b: Id, n: nat)
    requires |mc.pg| == |mc.ki| > top > 0 && mc.init && a != b
    ensures mc.pg[top] == b ==> FromLeft(mc, top, a, b, n, 0) == mc.(ki := mc.ki[top := mc.ki[top] + 1])
    ensures mc.pg[top] == a ==> FromRight(mc, top, b, a, n) == mc.(ki := mc.ki[top := mc.ki[top]])
  {
  }

  lemma KeptShape(pages: Pages, lv: seq<seq<int>>, page: Id, c: Stack, pages': Pages, lv': seq<seq<int>>, page': Id,
                  c': Stack)
    requires Kept(pages, lv, page, c, pages', lv', page', c') && |c.pg| == |c.ki|
    ensures |c'.pg| == |c'.ki| && c'.init == c.init && c'.eof == c.eof && c'.del == c.del
  {
  }

  lemma StandsTraces(pages: Pages, lv: seq<seq<int>>, page: Id, c: Stack, ix: seq<nat>)
    requires Stands(pages, lv, page, c, ix)
    ensures Traces(pages, lv, c, ix) && |c.pg| == |c.ki| == |lv| - 1 >= 1 && |ix| == |lv|
  {
  }
}
