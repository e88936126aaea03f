/**
 mdb_page_split of one page, in two cases where no other page is split: its
 parent has room for the new page, and the page is the root.

 All of it is about the last two rows of pages of a tree and its items.  A
 split further up is seen in the same way: the tree is cut off below the row
 of the split page, whose nodes are then what the items are here.

 `TearPage` is the split with the new node in place already, as Levels has it.
 The source makes both changes in one go; `SplitWhole` and `RootSplitWhole`
 show that this comes to the same, for the pages and for every cursor that
 `SplitFix` or `RootSplitFix` has adjusted.
 */
module PageSplit {
  import opened Sequences
  import opened Levels
  import opened Separators
  import opened Tracking
  import opened Positions
  import opened Touching
  import opened Insertion

  /** The loop of mdb_page_split that deals the nodes out, with the new node x
      at newindx: from split on to the right page, and then the rest to a copy
      of the left one. */
  method DealNodes(nodes: seq<int>, newindx: nat, x: int, split: nat) returns (left: seq<int>, right: seq<int>, ki: nat)
    requires newindx <= |nodes| && 1 <= split <= |nodes|
    ensures var all := Inserted(nodes, newindx, x); left == all[..split] && right == all[split..]
    ensures ki == if newindx < split then newindx else newindx - split
  {
    ghost var all := Inserted(nodes, newindx, x);
    var nkeys := |nodes|;
    left, right, ki := [], [], 0;
    var i, j, onRight, more := split, 0, true, true;
    while more
      invariant more ==> if onRight then split <= i <= nkeys && j == i - split && left == []
                         else 0 <= i < split && j == i
      invariant onRight ==> more && right == all[split..i]
      invariant !onRight ==> right == all[split..] && left == all[..if more then i else split]
      invariant (if onRight then split <= newindx < i else newindx >= split || (if more then newindx < i else true)) ==>
                ki == if newindx < split then newindx else newindx - split
      decreases if !more then 0 else if onRight then nkeys + 1 - i + split + 1 else split + 1 - i
    {
      var node := x;
      if i == newindx {
        ki := j;
      } else {
        node := nodes[if i < newindx then i else i - 1];
      }
      assert node == all[i];
      if onRight {
        right := Inserted(right, j, node);
      } else {
        left := Inserted(left, j, node);
      }
      if i == nkeys {
        i, j, onRight := 0, 0, false;
      } else {
        i, j := i + 1, j + 1;
      }
      more := i != split;
    }
  }

  /** The same from the page as it was before the put. */
  method Deal(nodes: seq<int>, newindx: nat, x: int, replace: bool, split: nat)
    returns (left: seq<int>, right: seq<int>, ki: nat)
    requires if replace then newindx < |nodes| else newindx <= |nodes|
    requires 1 <= split <= |nodes| - if replace then 1 else 0
    ensures var all := PutInto(nodes, newindx, x, replace);
            split < |all| && left == all[..split] && right == all[split..]
    ensures ki == if newindx < split then newindx else newindx - split
  {
    var rest := nodes;
    if replace {
      rest := Without(rest, newindx);
    }
    assert PutInto(nodes, newindx, x, replace) == Inserted(rest, newindx, x);
    left, right, ki := DealNodes(rest, newindx, x, split);
  }

  /** One turn of the loop of mdb_page_split over the other cursors, for a
      split that pushed no new root; did says that the parent was split, too. */
  function SplitFix(m3: Stack, top: nat, mp: Id, rp: Id, newindx: nat, replace: bool, nkeys: nat, mn: Stack, did: bool,
                    parent: Id, mcki: nat): Stack
    requires |m3.pg| == |m3.ki| && |mn.pg| == |mn.ki| >= top > 0
  {
    if !m3.init then m3
    else if |m3.pg| > top && m3.pg[top] == mp then
      var m := if m3.ki[top] >= newindx && !replace then m3.(ki := m3.ki[top := m3.ki[top] + 1]) else m3;
      if m.ki[top] >= nkeys then
        m.(pg := mn.pg[..top] + [rp] + m.pg[top + 1..], ki := mn.ki[..top] + [m.ki[top] - nkeys] + m.ki[top + 1..])
      else m
    else if !did && |m3.pg| >= top && m3.pg[top - 1] == parent && m3.ki[top - 1] >= mcki then
      m3.(ki := m3.ki[top - 1 := m3.ki[top - 1] + 1])
    else m3
  }

  /** The same when the root was split: first the new root is pushed. */
  function RootSplitFix(m3: Stack, mp: Id, rp: Id, pp: Id, newindx: nat, replace: bool, nkeys: nat, mn: Stack,
                        mcki: nat): Stack
    requires |m3.pg| == |m3.ki| && |mn.pg| == |mn.ki| >= 1
  {
    if !m3.init || |m3.pg| == 0 || m3.pg[0] != mp then m3
    else SplitFix(Raised(m3, pp, if m3.ki[0] >= nkeys then 1 else 0), 1, mp, rp, newindx, replace, nkeys, mn, false, pp,
                  mcki)
  }

  /** The fix-up is that of the insertion followed by that of the tearing. */
  lemma SplitFixIs(m3: Stack, top: nat, mp: Id, rp: Id, newindx: nat, replace: bool, nkeys: nat, mn: Stack, parent: Id,
                   mcki: nat)
    requires |m3.pg| == |m3.ki| > top > 0 && |mn.pg| == |mn.ki| >= top && m3.init
    ensures var g := if replace then m3 else Grown(m3, top, mp, newindx);
            SplitFix(m3, top, mp, rp, newindx, replace, nkeys, mn, false, parent, mcki) ==
                Torn(g, top, mp, rp, nkeys, mn, parent, mcki)
  {
  }

  lemma RootSplitFixIs(m3: Stack, mp: Id, rp: Id, pp: Id, newindx: nat, replace: bool, nkeys: nat, mn: Stack, mcki: nat)
    requires |m3.pg| == |m3.ki| == 1 && |mn.pg| == |mn.ki| >= 1 && mn.pg[0] == pp && mn.ki[0] == 1
    requires m3.init && m3.pg[0] == mp
    ensures var r := Raised(m3, pp, 0);
            RootSplitFix(m3, mp, rp, pp, newindx, replace, nkeys, mn, mcki)
            == Torn(if replace then r else Grown(r, 1, mp, newindx), 1, mp, rp, nkeys, mn, pp, mcki)
  {
    var k := if m3.ki[0] >= nkeys then 1 else 0;
    SplitFixIs(Raised(m3, pp, k), 1, mp, rp, newindx, replace, nkeys, mn, pp, mcki);
    assert mn.pg[..1] == [pp] && mn.ki[..1] == [1];
  }

  /** The acting cursor as mdb_page_split leaves it. */
  function Landed(mc: Stack, rp: Id, s: nat): Stack
    requires |mc.pg| == |mc.ki| >= 2
  {
    var top := |mc.pg| - 1;
    if mc.ki[top] < s then mc
    else mc.(pg := mc.pg[top := rp], ki := mc.ki[top - 1 := mc.ki[top - 1] + 1][top := mc.ki[top] - s])
  }

  /** The cursor copy mn of mdb_page_split. */
  function OnRight(mc: Stack, rp: Id): Stack
    requires |mc.pg| == |mc.ki| >= 2
  {
    var top := |mc.pg| - 1;
    mc.(pg := mc.pg[top := rp], ki := mc.ki[top - 1 := mc.ki[top - 1] + 1])
  }

  lemma OnRightLed(mc: Stack, rp: Id)
    requires |mc.pg| == |mc.ki| >= 2
    ensures LedRight(OnRight(mc, rp), mc, |mc.pg| - 1, mc.ki[|mc.pg| - 2])
  {
  }

  /** The parent of the acting cursor's leaf. */
  lemma ChildOf(pages: Pages, root: Id, lv: seq<seq<int>>, mc: Stack, p: nat, mix: seq<nat>)
    requires Tree(pages, root, lv) && |lv| >= 3 && Slot(pages, lv, mc, p, mix)
    ensures var L := |lv| - 2;
            && Child(pages, lv, L, mix[L - 1], mc.ki[L - 1], mix[L])
            && lv[L][mix[L]] == mc.pg[L] && lv[L - 1][mix[L - 1]] == mc.pg[L - 1] && mc.pg[L - 1] != mc.pg[L]
  {
    hide Joined, Nodes, Distinct, Traces;
    TraceLink(pages, lv, mc, mix, |lv| - 2);
    TraceLink(pages, lv, mc, mix, |lv| - 3);
    ParentPage(pages, root, lv, mc, mix, |lv| - 2);
  }

  lemma SplitMe(pages: Pages, root: Id, lv: seq<seq<int>>, mc: Stack, p: nat, mix: seq<nat>, rp: Id, s: nat, mcki: nat)
    requires Tree(pages, root, lv) && |lv| >= 3 && Slot(pages, lv, mc, p, mix) && Inside(pages, mc) && Fresh(lv, rp)
    requires s <= |Nodes(pages, mc.pg[|lv| - 2])| && mc.ki[|lv| - 3] <= mcki <= mc.ki[|lv| - 3] + 1
    ensures var L := |lv| - 2;
            && mc.ki[L - 1] < |Nodes(pages, mc.pg[L - 1])| && mix[L] < |lv[L]|
            && At(TearPage(pages, mc.pg[L], rp, s, mc.pg[L - 1], mc.ki[L - 1]),
                  lv[L := Inserted(lv[L], mix[L] + 1, rp)], Landed(mc, rp, s), p)
  {
    hide Joined, Nodes, Distinct, Rows, Traces, TearPage, At;
    var L := |lv| - 2;
    ChildOf(pages, root, lv, mc, p, mix);
    OnRightLed(mc, rp);
    SlotAt(pages, lv, mc, p, mix);
    var mn := OnRight(mc, rp);
    TornAt(pages, root, lv, mix[L - 1], mc.ki[L - 1], mix[L], rp, s, mn, mc, mix, mcki, mc, p);
    TornMe(mc, rp, s, mcki);
  }

  lemma SlotAt(pages: Pages, lv: seq<seq<int>>, mc: Stack, p: nat, mix: seq<nat>)
    requires Slot(pages, lv, mc, p, mix) && Inside(pages, mc)
    ensures At(pages, lv, mc, p)
  {
    hide Traces, Nodes;
    assert AtIx(pages, lv, mc, p, mix);
  }

  lemma TornMe(mc: Stack, rp: Id, s: nat, mcki: nat)
    requires |mc.pg| == |mc.ki| >= 2
    ensures var top := |mc.pg| - 1;
            Torn(mc, top, mc.pg[top], rp, s, OnRight(mc, rp), mc.pg[top - 1], mcki) == Landed(mc, rp, s)
  {
    var top := |mc.pg| - 1;
    var mn := OnRight(mc, rp);
    assert mc.ki[top - 1 := mc.ki[top - 1] + 1][top := if mc.ki[top] >= s then mc.ki[top] - s else 0]
        == mn.ki[..top] + [if mc.ki[top] >= s then mc.ki[top] - s else 0] + mc.ki[top + 1..];
    assert mc.pg[top := rp] == mn.pg[..top] + [rp] + mc.pg[top + 1..];
  }

  lemma MinAfterTear(pages: Pages, lv: seq<seq<int>>, t: nat, kp: nat, j: nat, rp: Id, s: nat, least: nat)
    requires |lv| >= 3 && Child(pages, lv, |lv| - 2, t, kp, j) && MinTo(pages, lv, least, {lv[|lv| - 3][t]})
             && Distinct(lv) && Fresh(lv, rp)
    requires 1 <= least <= s && s + least <= |Nodes(pages, lv[|lv| - 2][j])|
    ensures var L := |lv| - 2;
            MinTo(TearPage(pages, lv[L][j], rp, s, lv[L - 1][t], kp), lv[L := Inserted(lv[L], j + 1, rp)], least, {})
  {
    hide Nodes, Distinct, TearPage;
    var L := |lv| - 2;
    var mp, P := lv[L][j], lv[L - 1][t];
    var pages' := TearPage(pages, mp, rp, s, P, kp);
    var lv' := lv[L := Inserted(lv[L], j + 1, rp)];
    Places(lv, L, j, L - 1, t);
    TornNodes(pages, mp, rp, s, P, kp);
    NewNodes(pages, rp, Nodes(pages', rp));
    forall l, i | 0 <= l < |lv'| - 1 && 0 <= i < |lv'[l]|
      ensures |Nodes(pages', lv'[l][i])| >= if l == |lv'| - 2 then least else 2
    {
      if l == L && i == j + 1 {
        assert lv'[l][i] == rp;
      } else {
        var i0 := if l == L && i > j then i - 1 else i;
        assert lv'[l][i] == lv[l][i0];
        Places(lv, l, i0, L, j);
        Places(lv, l, i0, L - 1, t);
        assert lv[l][i0] in {P} || |Nodes(pages, lv[l][i0])| >= if l == |lv| - 2 then least else 2;
      }
    }
  }

  /** A leaf that already holds the new item, split in two. */
  lemma TearAll(pages: Pages, root: Id, lv: seq<seq<int>>, mc: Stack, p: nat, mix: seq<nat>, rp: Id, s: nat, mcki: nat,
                least: nat)
    requires Tree(pages, root, lv) && |lv| >= 3 && Slot(pages, lv, mc, p, mix) && Inside(pages, mc) && Fresh(lv, rp)
    requires MinTo(pages, lv, least, {mc.pg[|lv| - 3]})
    requires 1 <= least <= s && s + least <= |Nodes(pages, mc.pg[|lv| - 2])|
             && mc.ki[|lv| - 3] <= mcki <= mc.ki[|lv| - 3] + 1
    ensures var L := |lv| - 2;
            var P, kp := mc.pg[L - 1], mc.ki[L - 1];
            && kp < |Nodes(pages, P)| && mix[L] < |lv[L]|
            && var pages', lv' := TearPage(pages, mc.pg[L], rp, s, P, kp), lv[L := Inserted(lv[L], mix[L] + 1, rp)];
            && Tree(pages', root, lv') && MinTo(pages', lv', least, {}) && At(pages', lv', Landed(mc, rp, s), p)
            && forall c, q :: At(pages, lv, c, q) ==>
                 && |c.pg| == |c.ki| == L + 1
                 && At(pages', lv', Torn(c, L, mc.pg[L], rp, s, OnRight(mc, rp), P, mcki), q)
  {
    hide Joined, Nodes, Distinct, Rows, Traces, TearPage, At, Torn;
    var L := |lv| - 2;
    ChildOf(pages, root, lv, mc, p, mix);
    OnRightLed(mc, rp);
    SplitMe(pages, root, lv, mc, p, mix, rp, s, mcki);
    TornTree(pages, root, lv, L, mix[L - 1], mc.ki[L - 1], mix[L], rp, s);
    MinAfterTear(pages, lv, mix[L - 1], mc.ki[L - 1], mix[L], rp, s, least);
    forall c, q | At(pages, lv, c, q)
      ensures |c.pg| == |c.ki| == L + 1
      ensures At(TearPage(pages, mc.pg[L], rp, s, mc.pg[L - 1], mc.ki[L - 1]), lv[L := Inserted(lv[L], mix[L] + 1, rp)],
                 Torn(c, L, mc.pg[L], rp, s, OnRight(mc, rp), mc.pg[L - 1], mcki), q)
    {
      AtItem(pages, root, lv, c, q);
      TornAt(pages, root, lv, mix[L - 1], mc.ki[L - 1], mix[L], rp, s, OnRight(mc, rp), mc, mix, mcki, c, q);
    }
  }

  lemma SplitFixShape(c: Stack, top: nat, mp: Id, rp: Id, newindx: nat, replace: bool, nkeys: nat, mn: Stack, did: bool,
                      parent: Id, mcki: nat)
    requires |c.pg| == |c.ki| && |mn.pg| == |mn.ki| >= top > 0
    ensures var c' := SplitFix(c, top, mp, rp, newindx, replace, nkeys, mn, did, parent, mcki);
            |c'.pg| == |c'.ki| && c'.init == c.init && c'.eof == c.eof && c'.del == c.del
  {
  }

  /** The pages after a split, in terms of the page that held all nodes. */
  lemma SplitPages(pages: Pages, mp: Id, rp: Id, parent: Id, kp: nat, all: seq<int>, s: nat)
    requires mp != parent && rp != mp && rp != parent && s <= |all| && kp < |Nodes(pages, parent)|
    ensures var filled := pages[mp := all];
            kp < |Nodes(filled, parent)| &&
            pages[parent := Inserted(Nodes(pages, parent), kp + 1, rp)][rp := all[s..]][mp := all[..s]] ==
                TearPage(filled, mp, rp, s, parent, kp)
  {
  }

  /** The two pages, and the parent that leads to both. */
  function SplitPair(pages: Pages, P: Id, kp: nat, rp: Id, mp: Id, all: seq<int>, s: nat): Pages
    requires kp < |Nodes(pages, P)| && s <= |all|
  {
    pages[P := Inserted(Nodes(pages, P), kp + 1, rp)][rp := all[s..]][mp := all[..s]]
  }

  ghost function SplitRows(rows: seq<seq<int>>, L: nat, j: nat, rp: Id, p: nat, x: int, replace: bool): seq<seq<int>>
    requires |rows| == L + 2 && j < |rows[L]| && if replace then p < |rows[L + 1]| else p <= |rows[L + 1]|
  {
    rows[L := Inserted(rows[L], j + 1, rp)][L + 1 := PutInto(rows[L + 1], p, x, replace)]
  }

  /** The new node put into its leaf and the leaf split, in one step. */
  lemma SplitWhole(pages: Pages, root: Id, lv: seq<seq<int>>, mc: Stack, p: nat, mix: seq<nat>, x: int, replace: bool,
                   rp: Id, s: nat, least: nat, mp: Id, k: nat, P: Id, kp: nat, all: seq<int>, pages': Pages,
                   lv': seq<seq<int>>)
    requires Tree(pages, root, lv) && |lv| >= 3 && Slot(pages, lv, mc, p, mix) && Fresh(lv, rp)
             && MinTo(pages, lv, least, {})
    requires mix[|lv| - 2] < |lv[|lv| - 2]| && (if replace then p < |lv[|lv| - 1]| else p <= |lv[|lv| - 1]|)
    requires mp == mc.pg[|lv| - 2] && k == mc.ki[|lv| - 2] && P == mc.pg[|lv| - 3]
             && kp == mc.ki[|lv| - 3] < |Nodes(pages, P)|
    requires (if replace then k < |Nodes(pages, mp)| else k <= |Nodes(pages, mp)|)
             && all == PutInto(Nodes(pages, mp), k, x, replace)
    requires 1 <= least <= s && s + least <= |all|
    requires pages' == SplitPair(pages, P, kp, rp, mp, all, s)
             && lv' == SplitRows(lv, |lv| - 2, mix[|lv| - 2], rp, p, x, replace)
    ensures P != mp && rp != mp && rp != P
    ensures Tree(pages', root, lv') && MinTo(pages', lv', least, {}) && At(pages', lv', Landed(mc, rp, s), p)
    ensures forall c, q :: At(pages, lv, c, q) && c.init ==>
              && |c.pg| == |c.ki| == |lv| - 1
              && At(pages', lv', SplitFix(c, |lv| - 2, mp, rp, k, replace, s, OnRight(mc, rp), false, P,
                                          if k < s then kp else kp + 1), After(q, p, replace))
  {
    hide Joined, Nodes, Distinct, Rows, Traces, MinTo, Grown, Torn, SplitFix, TearPage, At;
    var L := |lv| - 2;
    var mcki := if k < s then kp else kp + 1;
    ChildOf(pages, root, lv, mc, p, mix);
    FreshPages(lv, rp, L, mix[L], mix[L - 1]);
    Filled(pages, root, lv, mc, p, mix, x, replace, least, {});
    NewNodes(pages, mp, all);
    var pages1, lv1 := pages[mp := all], lv[L + 1 := PutInto(lv[L + 1], p, x, replace)];
    FreshBelow(lv, lv1, rp);
    MinAnyway(pages1, lv1, {P}, least);
    TearAll(pages1, root, lv1, mc, p, mix, rp, s, mcki, least);
    SplitPages(pages, mp, rp, P, kp, all, s);
    assert lv' == lv1[L := Inserted(lv[L], mix[L] + 1, rp)];
    assert pages' == TearPage(pages1, mp, rp, s, P, kp);
    forall c, q | At(pages, lv, c, q) && c.init
      ensures |c.pg| == |c.ki| == L + 1
      ensures At(pages', lv', SplitFix(c, L, mp, rp, k, replace, s, OnRight(mc, rp), false, P, mcki),
                 After(q, p, replace))
    {
      AtItem(pages, root, lv, c, q);
      SplitFixIs(c, L, mp, rp, k, replace, s, OnRight(mc, rp), P, mcki);
    }
  }

  lemma FreshPages(lv: seq<seq<int>>, rp: Id, L: nat, j: nat, t: nat)
    requires Fresh(lv, rp) && 0 < L < |lv| - 1 && j < |lv[L]| && t < |lv[L - 1]|
    ensures lv[L][j] != rp && lv[L - 1][t] != rp
  {
  }

  lemma FreshBelow(lv: seq<seq<int>>, lv': seq<seq<int>>, id: Id)
    requires Fresh(lv, id) && |lv'| == |lv| && forall l :: 0 <= l < |lv| - 1 ==> lv'[l] == lv[l]
    ensures Fresh(lv', id)
  {
  }

  lemma MinAnyway(pages: Pages, lv: seq<seq<int>>, except: set<Id>, least: nat)
    requires MinTo(pages, lv, least, {})
    ensures MinTo(pages, lv, least, except)
  {
  }

  // -------------------------------------------------------------- root split

  lemma RaisedAll(pages: Pages, root: Id, lv: seq<seq<int>>, top: Id, mc: Stack, p: nat, mix: seq<nat>)
    requires Tree(pages, root, lv) && Fresh(lv, top) && Slot(pages, lv, mc, p, mix) && Inside(pages, mc)
    ensures var pages', lv' := pages[top := [root]], [[top]] + lv;
            && Tree(pages', top, lv') && Slot(pages', lv', Raised(mc, top, 0), p, [0] + mix)
            && Inside(pages', Raised(mc, top, 0))
            && Nodes(pages', mc.pg[|mc.pg| - 1]) == Nodes(pages, mc.pg[|mc.pg| - 1])
            && forall c, q :: At(pages, lv, c, q) ==> At(pages', lv', Raised(c, top, 0), q)
  {
    hide Joined, Nodes, Distinct, Traces;
    RaiseKeeps(pages, root, top, lv);
    var pages', lv' := pages[top := [root]], [[top]] + lv;
    RaisedNodes(pages, lv, top, root, mc, mix);
    forall c, q | At(pages, lv, c, q) ensures At(pages', lv', Raised(c, top, 0), q) {
      var ix :| AtIx(pages, lv, c, q, ix);
      RaisedNodes(pages, lv, top, root, c, ix);
      assert AtIx(pages', lv', Raised(c, top, 0), q, [0] + ix);
    }
  }

  lemma RaisedNodes(pages: Pages, lv: seq<seq<int>>, top: Id, root: Id, c: Stack, ix: seq<nat>)
    requires |lv| >= 2 && Fresh(lv, top) && Traces(pages, lv, c, ix)
    ensures |c.pg| == |lv| - 1 && Nodes(pages[top := [root]], c.pg[|c.pg| - 1]) == Nodes(pages, c.pg[|c.pg| - 1])
  {
    hide Joined, Traces;
    TraceLink(pages, lv, c, ix, |lv| - 2);
  }

  lemma GrownRaised(c: Stack, top: Id, mp: Id, k: nat)
    requires |c.pg| == |c.ki| == 1
    ensures Grown(Raised(c, top, 0), 1, mp, k) == Raised(Grown(c, 0, mp, k), top, 0)
  {
  }

  lemma MinRaised(pages: Pages, lv: seq<seq<int>>, top: Id, root: Id, least: nat)
    requires MinTo(pages, lv, least, {}) && Fresh(lv, top) && |lv| >= 2
    ensures MinTo(pages[top := [root]], [[top]] + lv, least, {top})
  {
    var lv' := [[top]] + lv;
    forall l, i | 0 <= l < |lv'| - 1 && 0 <= i < |lv'[l]|
      ensures lv'[l][i] in {top} || |Nodes(pages[top := [root]], lv'[l][i])| >= if l == |lv'| - 2 then least else 2
    {
      if l > 0 {
        assert lv'[l] == lv[l - 1];
      }
    }
  }

  /** The new node put into the root leaf, and the root split. */
  lemma RootSplitWhole(pages: Pages, root: Id, lv: seq<seq<int>>, mc: Stack, p: nat, mix: seq<nat>, x: int,
                       replace: bool, rp: Id, pp: Id, s: nat, least: nat)
    requires Tree(pages, root, lv) && |lv| == 2 && Slot(pages, lv, mc, p, mix) && MinTo(pages, lv, least, {})
    requires Fresh(lv, rp) && Fresh(lv, pp) && rp != pp && (replace ==> Inside(pages, mc))
    requires 1 <= least <= s && s + least <= |Nodes(pages, mc.pg[0])| + if replace then 0 else 1
    ensures mc.pg[0] == root && root != rp && root != pp && (if replace then p < |lv[1]| else p <= |lv[1]|)
    ensures var k := mc.ki[0];
            var all := PutInto(Nodes(pages, root), k, x, replace);
            && s < |all|
            && var pages' := pages[pp := [root, rp]][rp := all[s..]][root := all[..s]];
            && var lv' := [[pp], [root, rp], PutInto(lv[1], p, x, replace)];
            && Tree(pages', pp, lv') && MinTo(pages', lv', least, {})
            && At(pages', lv', Landed(Raised(mc, pp, 0), rp, s), p)
            && forall c, q :: At(pages, lv, c, q) && c.init ==>
                 && |c.pg| == |c.ki| == 1
                 && At(pages', lv', RootSplitFix(c, root, rp, pp, k, replace, s, OnRight(Raised(mc, pp, 0), rp),
                                                 if k < s then 0 else 1), After(q, p, replace))
  {
    hide Joined, Nodes, Distinct, Rows, Traces, MinTo, Torn, SplitFix, RootSplitFix, TearPage, At, Grown;
    RootPage(pages, root, lv, mc, mix);
    assert lv[0][0] == root;
    var k := mc.ki[0];
    var mcki := if k < s then 0 else 1;
    Filled(pages, root, lv, mc, p, mix, x, replace, least, {});
    var all := PutInto(Nodes(pages, root), k, x, replace);
    NewNodes(pages, root, all);
    var pages1, lv1 := pages[root := all], lv[1 := PutInto(lv[1], p, x, replace)];
    FreshBelow(lv, lv1, rp);
    FreshBelow(lv, lv1, pp);
    RaisedAll(pages1, root, lv1, pp, mc, p, mix);
    MinRaised(pages1, lv1, pp, root, least);
    var pages2, lv2, mc2 := pages1[pp := [root]], [[pp]] + lv1, Raised(mc, pp, 0);
    NewNodes(pages1, pp, [root]);
    FreshRaised(lv1, pp, rp);
    TearAll(pages2, pp, lv2, mc2, p, [0] + mix, rp, s, mcki, least);
    var pages', lv' := TearPage(pages2, root, rp, s, pp, 0), lv2[1 := Inserted(lv2[1], mix[0] + 1, rp)];
    RootPages(pages, root, rp, pp, all, s);
    assert lv2[0] == [pp] && lv2[1] == [root] && lv2[2] == PutInto(lv[1], p, x, replace);
    assert Inserted([root], 1, rp) == [root, rp];
    assert lv' == [[pp], [root, rp], PutInto(lv[1], p, x, replace)];
    var mn := OnRight(mc2, rp);
    forall c, q | At(pages, lv, c, q) && c.init
      ensures |c.pg| == |c.ki| == 1
      ensures At(pages', lv', RootSplitFix(c, root, rp, pp, k, replace, s, mn, mcki), After(q, p, replace))
    {
      AtItem(pages, root, lv, c, q);
      RootPageOf(pages, root, lv, c, q);
      GrownRaised(c, pp, root, k);
      RootSplitFixIs(c, root, rp, pp, k, replace, s, mn, mcki);
    }
  }

  lemma RootPage(pages: Pages, root: Id, lv: seq<seq<int>>, mc: Stack, mix: seq<nat>)
    requires Rows(pages, root, lv) && |lv| == 2 && Traces(pages, lv, mc, mix) && |mc.pg| == |mc.ki| == 1 && |mix| == 2
    ensures mc.pg[0] == root && mix[0] == 0 && lv[0] == [root]
  {
    TraceLink(pages, lv, mc, mix, 0);
  }

  lemma RootPageOf(pages: Pages, root: Id, lv: seq<seq<int>>, c: Stack, q: nat)
    requires Rows(pages, root, lv) && |lv| == 2 && At(pages, lv, c, q)
    ensures |c.pg| == 1 && c.pg[0] == root
  {
    var ix :| AtIx(pages, lv, c, q, ix);
    RootPage(pages, root, lv, c, ix);
  }

  lemma FreshRaised(lv: seq<seq<int>>, top: Id, id: Id)
    requires Fresh(lv, id) && id != top && |lv| >= 1
    ensures Fresh([[top]] + lv, id)
  {
    var lv' := [[top]] + lv;
    forall l, i | 0 <= l < |lv'| - 1 && 0 <= i < |lv'[l]| ensures lv'[l][i] != id {
      if l > 0 {
        assert lv'[l] == lv[l - 1];
      }
    }
  }

  lemma RootPages(pages: Pages, mp: Id, rp: Id, pp: Id, all: seq<int>, s: nat)
    requires mp != rp && mp != pp && rp != pp && s <= |all|
    ensures var raised := pages[mp := all][pp := [mp]];
            Nodes(raised, mp) == all && Nodes(raised, pp) == [mp] &&
            pages[pp := [mp, rp]][rp := all[s..]][mp := all[..s]] == TearPage(raised, mp, rp, s, pp, 0)
  {
    assert Inserted([mp], 1, rp) == [mp, rp];
  }

  lemma RootSplitFixShape(c: Stack, mp: Id, rp: Id, pp: Id, newindx: nat, replace: bool, nkeys: nat, mn: Stack,
                          mcki: nat)
    requires |c.pg| == |c.ki| && |mn.pg| == |mn.ki| >= 1
    ensures var c' := RootSplitFix(c, mp, rp, pp, newindx, replace, nkeys, mn, mcki);
            |c'.pg| == |c'.ki| && c'.init == c.init && c'.eof == c.eof && c'.del == c.del
  {
  }
}
