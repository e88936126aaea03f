/**
 The end of mdb_page_split when the parent was split before.

 By then the new page hangs in the tree, with no nodes in it, at the place to
 the right of the page that is split.  Its parent may be another page than that
 of its left neighbour.  What is left to do is to put the new node in and to
 deal the nodes out to the two pages.

 `Leads` says that the cursor mn of the source leads to the new page, and
 `Poured` is what the loop over the other cursors does to one of them: a cursor
 whose node went over gets the path of mn.  `DealtTree` and `DealtAt` have the
 outcome for the pages and for the cursors.
 */
module DealingOut {
  import opened Sequences
  import opened Levels
  import opened Separators
  import opened Tracking
  import opened Positions
  import opened Touching
  import opened Insertion
  import opened PageSplit

  /** Two stacks through the same place of a row agree above it. */
  lemma {:induction false} SamePath(pages: Pages, lv: seq<seq<int>>, c: Stack, ix: seq<nat>, c2: Stack, ix2: seq<nat>,
                                    l: nat)
    requires Traces(pages, lv, c, ix) && Traces(pages, lv, c2, ix2) && l < |lv| - 1 && ix[l] == ix2[l]
    ensures c.pg[..l + 1] == c2.pg[..l + 1] && c.ki[..l] == c2.ki[..l] && ix[..l + 1] == ix2[..l + 1]
  {
    hide Joined, Nodes;
    TraceLink(pages, lv, c, ix, l);
    TraceLink(pages, lv, c2, ix2, l);
    if l > 0 {
      TraceLink(pages, lv, c, ix, l - 1);
      TraceLink(pages, lv, c2, ix2, l - 1);
      OneParent(pages, lv[l - 1], ix[l - 1], c.ki[l - 1], ix2[l - 1], c2.ki[l - 1]);
      SamePath(pages, lv, c, ix, c2, ix2, l - 1);
      assert c.pg[..l + 1] == c.pg[..l] + [c.pg[l]] && c2.pg[..l + 1] == c2.pg[..l] + [c2.pg[l]];
      assert c.ki[..l] == c.ki[..l - 1] + [c.ki[l - 1]] && c2.ki[..l] == c2.ki[..l - 1] + [c2.ki[l - 1]];
      assert ix[..l + 1] == ix[..l] + [ix[l]] && ix2[..l + 1] == ix2[..l] + [ix2[l]];
    } else {
      assert c.pg[..1] == [c.pg[0]] && c2.pg[..1] == [c2.pg[0]];
    }
  }

  /** A path to a place of row L, as the first L entries of a stack. */
  ghost predicate Leads(pages: Pages, lv: seq<seq<int>>, mn: Stack, nix: seq<nat>, L: nat, j: nat) {
    && 0 < L < |lv| - 1 && |mn.pg| == |mn.ki| >= L && |nix| == L + 1 && nix[0] == 0 && nix[L] == j
    && forall l :: 0 <= l < L ==>
         Link(pages, lv[l], nix[l], mn.pg[l], mn.ki[l], nix[l + 1]) && mn.ki[l] < |Nodes(pages, mn.pg[l])|
  }

  /** A stack that takes the path and then goes on at page id of row L. */
  lemma Rerouted(pages: Pages, lv: seq<seq<int>>, mn: Stack, nix: seq<nat>, j: nat, k: nat, c: Stack, q: nat)
    requires |lv| >= 3 && Leads(pages, lv, mn, nix, |lv| - 2, j) && j < |lv[|lv| - 2]|
             && q == Start(pages, lv[|lv| - 2], j) + k
    requires c.pg == mn.pg[..|lv| - 2] + [lv[|lv| - 2][j]] && c.ki == mn.ki[..|lv| - 2] + [k]
    ensures Traces(pages, lv, c, nix + [q])
  {
    hide Joined, Nodes;
    var L, ix := |lv| - 2, nix + [q];
    forall l | 0 <= l < |lv| - 1
      ensures Link(pages, lv[l], ix[l], c.pg[l], c.ki[l], ix[l + 1])
              && (l + 2 < |lv| ==> c.ki[l] < |Nodes(pages, c.pg[l])|)
    {
      if l < L {
        assert c.pg[l] == mn.pg[l] && c.ki[l] == mn.ki[l];
      }
    }
  }

  lemma LeadsSame(pages: Pages, pages': Pages, lv: seq<seq<int>>, lv': seq<seq<int>>, mn: Stack, nix: seq<nat>, L: nat,
                  j: nat)
    requires Leads(pages, lv, mn, nix, L, j) && |lv'| == |lv|
             && forall l :: 0 <= l < L ==> lv'[l] == lv[l] && SameOn(pages, pages', lv[l])
    ensures Leads(pages', lv', mn, nix, L, j)
  {
    hide Joined, Nodes, SameOn;
    forall l | 0 <= l < L
      ensures Link(pages', lv'[l], nix[l], mn.pg[l], mn.ki[l], nix[l + 1]) && mn.ki[l] < |Nodes(pages', mn.pg[l])|
    {
      assert Link(pages, lv[l], nix[l], mn.pg[l], mn.ki[l], nix[l + 1]);
      LinkSame(pages, pages', lv[l], nix[l], mn.pg[l]);
    }
  }

  /** The nodes of page j from s on are poured into its empty right neighbour. */
  function Pour(pages: Pages, mp: Id, rp: Id, s: nat): Pages
    requires s <= |Nodes(pages, mp)|
  {
    pages[rp := Nodes(pages, mp)[s..]][mp := Nodes(pages, mp)[..s]]
  }

  lemma PouredTree(pages: Pages, root: Id, lv: seq<seq<int>>, j: nat, s: nat)
    requires |lv| >= 3 && Tree(pages, root, lv) && j + 1 < |lv[|lv| - 2]|
    requires s <= |Nodes(pages, lv[|lv| - 2][j])| && Nodes(pages, lv[|lv| - 2][j + 1]) == []
    ensures var L := |lv| - 2;
            var mp, rp := lv[L][j], lv[L][j + 1];
            var pages' := Pour(pages, mp, rp, s);
            && mp != rp && Tree(pages', root, lv) && Shifted(pages, pages', lv[L], j)
            && Nodes(pages', mp) == Nodes(pages, mp)[..s] && Nodes(pages', rp) == Nodes(pages, mp)[s..]
            && Only(pages, pages', {mp, rp})
            && forall l :: 0 <= l < |lv| - 1 && l != L ==> SameOn(pages, pages', lv[l])
  {
    hide Joined, Distinct;
    var L := |lv| - 2;
    Places(lv, L, j, L, j + 1);
    RowsShift(pages, Pour(pages, lv[L][j], lv[L][j + 1], s), root, lv, L, j);
  }

  /** Where the pouring takes a stack. */
  function Poured(g: Stack, top: nat, mp: Id, rp: Id, s: nat, mn: Stack): Stack
    requires |g.pg| == |g.ki| > top && |mn.pg| == |mn.ki| >= top
  {
    if g.pg[top] == mp && g.ki[top] >= s then
      g.(pg := mn.pg[..top] + [rp] + g.pg[top + 1..], ki := mn.ki[..top] + [g.ki[top] - s] + g.ki[top + 1..])
    else g
  }

  lemma PouredTrace(pages: Pages, root: Id, lv: seq<seq<int>>, j: nat, s: nat, mn: Stack, nix: seq<nat>, g: Stack,
                    ix: seq<nat>)
    requires |lv| >= 3 && Tree(pages, root, lv) && j + 1 < |lv[|lv| - 2]|
    requires s <= |Nodes(pages, lv[|lv| - 2][j])| && Nodes(pages, lv[|lv| - 2][j + 1]) == []
    requires Leads(pages, lv, mn, nix, |lv| - 2, j + 1)
    requires Traces(pages, lv, g, ix) && |g.pg| == |g.ki| == |lv| - 1 && |ix| == |lv|
             && g.pg[|lv| - 2] != lv[|lv| - 2][j + 1]
    ensures var L := |lv| - 2;
            var mp, rp := lv[L][j], lv[L][j + 1];
            var pages', g' := Pour(pages, mp, rp, s), Poured(g, L, mp, rp, s, mn);
            && Traces(pages', lv, g', if g.pg[L] == mp && g.ki[L] >= s then nix + [ix[L + 1]] else ix)
            && (g.ki[L] < |Nodes(pages, g.pg[L])| ==> g'.ki[L] < |Nodes(pages', g'.pg[L])|)
            && (g.ki[L] <= |Nodes(pages, g.pg[L])| ==> g'.ki[L] <= |Nodes(pages', g'.pg[L])|)
  {
    hide Joined, Nodes, Distinct, Traces, Shifted, SameOn, Leads, Rows;
    var L := |lv| - 2;
    var mp, rp := lv[L][j], lv[L][j + 1];
    var pages' := Pour(pages, mp, rp, s);
    PouredTree(pages, root, lv, j, s);
    TraceLink(pages, lv, g, ix, L);
    Places(lv, L, ix[L], L, j);
    StartShift(pages, pages', lv[L], j, ix[L]);
    StartShift(pages, pages', lv[L], j, j + 1);
    if g.pg[L] == mp && g.ki[L] >= s {
      LeadsSame(pages, pages', lv, lv, mn, nix, L, j + 1);
      LeadsShort(pages, lv, mn, nix, L, j + 1);
      var g' := Poured(g, L, mp, rp, s, mn);
      assert g.pg[L + 1..] == [] && g.ki[L + 1..] == [];
      Rerouted(pages', lv, mn, nix, j + 1, g.ki[L] - s, g', ix[L + 1]);
    } else {
      TraceLeaf(pages, pages', lv, lv, g, ix, g.ki[L], ix[L + 1]);
      assert g.ki[L := g.ki[L]] == g.ki && ix[L + 1 := ix[L + 1]] == ix;
      OnlyAt(pages, pages', mp, rp, g.pg[L]);
    }
  }

  lemma LeadsShort(pages: Pages, lv: seq<seq<int>>, mn: Stack, nix: seq<nat>, L: nat, j: nat)
    requires Leads(pages, lv, mn, nix, L, j)
    ensures |mn.pg| == |mn.ki| >= L && |nix| == L + 1
  {
  }

  lemma LeadsEnd(pages: Pages, lv: seq<seq<int>>, mn: Stack, nix: seq<nat>, L: nat, j: nat)
    requires Leads(pages, lv, mn, nix, L, j)
    ensures |nix| == L + 1 && nix[L] == j
  {
  }

  lemma OnlyAt(pages: Pages, pages': Pages, a: Id, b: Id, id: Id)
    requires Only(pages, pages', {a, b})
    ensures id != a && id != b ==> Nodes(pages', id) == Nodes(pages, id)
  {
  }

  /** A stack once the new node is in the page of the acting cursor. */
  lemma FilledTrace(pages: Pages, root: Id, lv: seq<seq<int>>, mc: Stack, p: nat, mix: seq<nat>, x: int, replace: bool,
                    c: Stack, ix: seq<nat>)
    requires Tree(pages, root, lv) && Slot(pages, lv, mc, p, mix) && (replace ==> Inside(pages, mc))
    requires Traces(pages, lv, c, ix) && |c.pg| == |c.ki| == |lv| - 1 && |ix| == |lv|
    requires ix[|lv| - 2] >= mix[|lv| - 2] || c.ki[|lv| - 2] < |Nodes(pages, c.pg[|lv| - 2])|
    ensures var L := |lv| - 2;
            var mp, k := mc.pg[L], mc.ki[L];
            && (if replace then p < |lv[L + 1]| else p <= |lv[L + 1]|)
            && var pages', lv' := pages[mp := PutInto(Nodes(pages, mp), k, x, replace)],
               lv[L + 1 := PutInto(lv[L + 1], p, x, replace)];
            && var g := if replace then c else Grown(c, L, mp, k);
            && Traces(pages', lv', g, ix[L + 1 := After(ix[L + 1], p, replace)])
            && (c.ki[L] < |Nodes(pages, c.pg[L])| ==> g.ki[L] < |Nodes(pages', g.pg[L])|)
            && (c.ki[L] <= |Nodes(pages, c.pg[L])| ==> g.ki[L] <= |Nodes(pages', g.pg[L])|)
  {
    hide Joined, Nodes, Distinct, Rows, Traces;
    var L := |lv| - 2;
    var mp, k := mc.pg[L], mc.ki[L];
    TraceLink(pages, lv, mc, mix, L);
    if replace {
      var N, j := Nodes(pages, mp), mix[L];
      ReplacedSlot(pages, root, lv, mc, p, mix, x);
      LeafEdit(pages, root, lv, j, N[k := x]);
      var pages', lv' := pages[mp := N[k := x]], lv[L + 1 := lv[L + 1][p := x]];
      NewNodes(pages, mp, N[k := x]);
      JoinedEdit(pages, pages', lv[L], j);
      TraceLink(pages, lv, c, ix, L);
      TraceLeaf(pages, pages', lv, lv', c, ix, c.ki[L], ix[L + 1]);
      assert c.ki[L := c.ki[L]] == c.ki;
    } else {
      GrownKeeps(pages, root, lv, mix[L], k, x, c, ix);
    }
  }

  lemma SplitFixPoured(m3: Stack, top: nat, mp: Id, rp: Id, newindx: nat, replace: bool, nkeys: nat, mn: Stack,
                       parent: Id, mcki: nat)
    requires |m3.pg| == |m3.ki| > top > 0 && |mn.pg| == |mn.ki| >= top && m3.init
    ensures var g := if replace then m3 else Grown(m3, top, mp, newindx);
            SplitFix(m3, top, mp, rp, newindx, replace, nkeys, mn, true, parent, mcki) ==
                Poured(g, top, mp, rp, nkeys, mn)
  {
  }

  /** What a split finds when the parent was split first: the new page is in
      its place, and empty. */
  ghost predicate Linked(pages: Pages, root: Id, lv: seq<seq<int>>, mc: Stack, p: nat, mix: seq<nat>, replace: bool,
                         mn: Stack, nix: seq<nat>) {
    && |lv| >= 3 && Tree(pages, root, lv) && Slot(pages, lv, mc, p, mix) && (replace ==> Inside(pages, mc))
    && mix[|lv| - 2] + 1 < |lv[|lv| - 2]| && Nodes(pages, lv[|lv| - 2][mix[|lv| - 2] + 1]) == []
    && Leads(pages, lv, mn, nix, |lv| - 2, mix[|lv| - 2] + 1)
  }

  lemma LinkedPage(pages: Pages, root: Id, lv: seq<seq<int>>, mc: Stack, p: nat, mix: seq<nat>, replace: bool,
                   mn: Stack, nix: seq<nat>)
    requires Linked(pages, root, lv, mc, p, mix, replace, mn, nix)
    ensures |mn.pg| == |mn.ki| >= |lv| - 2 > 0 && |nix| == |lv| - 1
    ensures mix[|lv| - 2] + 1 < |lv[|lv| - 2]| && mc.pg[|lv| - 2] ==
            lv[|lv| - 2][mix[|lv| - 2]] != lv[|lv| - 2][mix[|lv| - 2] + 1]
    ensures if replace then p < |lv[|lv| - 1]| else p <= |lv[|lv| - 1]|
    ensures replace ==> mc.ki[|lv| - 2] < |Nodes(pages, mc.pg[|lv| - 2])|
  {
    hide Joined, Nodes, Distinct, Traces;
    var L := |lv| - 2;
    TraceLink(pages, lv, mc, mix, L);
    Places(lv, L, mix[L], L, mix[L] + 1);
    JoinedAt(pages, lv[L], mix[L]);
  }

  /** The pages and rows after the nodes were dealt out. */
  ghost function DealtPages(pages: Pages, mp: Id, rp: Id, all: seq<int>, s: nat): Pages
    requires s <= |all|
  {
    pages[rp := all[s..]][mp := all[..s]]
  }

  lemma PourIs(pages: Pages, mp: Id, rp: Id, all: seq<int>, s: nat)
    requires s <= |all| && mp != rp
    ensures Nodes(pages[mp := all], mp) == all && Pour(pages[mp := all], mp, rp, s) == DealtPages(pages, mp, rp, all, s)
  {
  }

  /** The cursors that are not the acting one. */
  lemma DealtAt(pages: Pages, root: Id, lv: seq<seq<int>>, mc: Stack, p: nat, mix: seq<nat>, x: int, replace: bool,
                mn: Stack, nix: seq<nat>, s: nat, c: Stack, ix: seq<nat>, P: Id, mcki: nat)
    requires Linked(pages, root, lv, mc, p, mix, replace, mn, nix)
    requires s <= |Nodes(pages, mc.pg[|lv| - 2])| + if replace then 0 else 1
    requires Traces(pages, lv, c, ix) && |c.pg| == |c.ki| == |lv| - 1 && |ix| == |lv| && c.init
    requires c.ki[|lv| - 2] <= |Nodes(pages, c.pg[|lv| - 2])| && c.pg[|lv| - 2] != lv[|lv| - 2][mix[|lv| - 2] + 1]
    requires Inside(pages, c) || ix[|lv| - 2] + 1 == |lv[|lv| - 2]|
             || (ix[|lv| - 2] == mix[|lv| - 2] && mix[|lv| - 2] + 2 == |lv[|lv| - 2]|)
    ensures |mn.pg| == |mn.ki| >= |lv| - 2 > 0
            && (if replace then p < |lv[|lv| - 1]| && mc.ki[|lv| - 2] < |Nodes(pages, mc.pg[|lv| - 2])|
                else p <= |lv[|lv| - 1]|)
    ensures var L := |lv| - 2;
            var mp, rp, k := mc.pg[L], lv[L][mix[L] + 1], mc.ki[L];
            At(DealtPages(pages, mp, rp, PutInto(Nodes(pages, mp), k, x, replace), s),
               lv[L + 1 := PutInto(lv[L + 1], p, x, replace)],
               SplitFix(c, L, mp, rp, k, replace, s, mn, true, P, mcki), After(ix[L + 1], p, replace))
  {
    hide Joined, Nodes, Distinct, Rows, Traces, Leads, Grown, Poured, SplitFix;
    LinkedPage(pages, root, lv, mc, p, mix, replace, mn, nix);
    var L := |lv| - 2;
    var mp, rp, k, j := mc.pg[L], lv[L][mix[L] + 1], mc.ki[L], mix[L];
    var all := PutInto(Nodes(pages, mp), k, x, replace);
    var pages2, lv2 := pages[mp := all], lv[L + 1 := PutInto(lv[L + 1], p, x, replace)];
    TraceLink(pages, lv, c, ix, L);
    FilledTrace(pages, root, lv, mc, p, mix, x, replace, c, ix);
    FilledTree(pages, root, lv, mc, p, mix, x, replace);
    FilledLeads(pages, root, lv, mc, p, mix, x, replace, mn, nix);
    NewNodes(pages, mp, all);
    var g := if replace then c else Grown(c, L, mp, k);
    GrownPage(c, L, mp, k);
    PouredTrace(pages2, root, lv2, j, s, mn, nix, g, ix[L + 1 := After(ix[L + 1], p, replace)]);
    PourIs(pages, mp, rp, all, s);
    SplitFixPoured(c, L, mp, rp, k, replace, s, mn, P, mcki);
    PouredShape(g, L, mp, rp, s, mn);
    var c' := SplitFix(c, L, mp, rp, k, replace, s, mn, true, P, mcki);
    var ix' := if g.pg[L] == mp && g.ki[L] >= s then nix + [After(ix[L + 1], p, replace)]
               else ix[L + 1 := After(ix[L + 1], p, replace)];
    LeadsShort(pages, lv, mn, nix, L, j + 1);
    LeadsEnd(pages, lv, mn, nix, L, j + 1);
    Places(lv, L, ix[L], L, j);
    assert !Inside(pages, c) ==> c.ki[L] == |Nodes(pages, c.pg[L])|;
    assert !Inside(pages, c) && c.pg[L] == mp ==> g.ki[L] >= s;
    assert AtIx(DealtPages(pages, mp, rp, all, s), lv2, c', After(ix[L + 1], p, replace), ix');
  }

  lemma PouredShape(g: Stack, top: nat, mp: Id, rp: Id, s: nat, mn: Stack)
    requires |g.pg| == |g.ki| > top && |mn.pg| == |mn.ki| >= top
    ensures var g' := Poured(g, top, mp, rp, s, mn);
            |g'.pg| == |g'.ki| == |g.pg| && g'.init == g.init && g'.eof == g.eof && g'.del == g.del
            && g'.pg[top] == if g.pg[top] == mp && g.ki[top] >= s then rp else g.pg[top]
  {
  }

  lemma GrownPage(c: Stack, top: nat, mp: Id, k: nat)
    requires |c.pg| == |c.ki| > top
    ensures var g := Grown(c, top, mp, k);
            g.pg == c.pg && |g.ki| == |c.ki| && g.init == c.init
                && (c.pg[top] == mp && c.ki[top] >= k ==> g.ki[top] == c.ki[top] + 1)
            && (c.pg[top] != mp ==> g == c)
  {
  }

  lemma FilledTree(pages: Pages, root: Id, lv: seq<seq<int>>, mc: Stack, p: nat, mix: seq<nat>, x: int, replace: bool)
    requires Tree(pages, root, lv) && Slot(pages, lv, mc, p, mix) && (replace ==> Inside(pages, mc))
    ensures var L := |lv| - 2;
            && (if replace then p < |lv[L + 1]| && mc.ki[L] < |Nodes(pages, mc.pg[L])| else p <= |lv[L + 1]|)
            && var pages', lv' := pages[mc.pg[L] := PutInto(Nodes(pages, mc.pg[L]), mc.ki[L], x, replace)],
               lv[L + 1 := PutInto(lv[L + 1], p, x, replace)];
            && Tree(pages', root, lv') && Slot(pages', lv', mc, p, mix) && Inside(pages', mc)
  {
    hide Joined, Nodes, Distinct, Rows, Traces;
    var L := |lv| - 2;
    if replace {
      ReplacedSlot(pages, root, lv, mc, p, mix, x);
      NewNodes(pages, mc.pg[L], Nodes(pages, mc.pg[L])[mc.ki[L] := x]);
    } else {
      GrownSlot(pages, root, lv, mc, p, mix, x);
    }
  }

  lemma FilledLeads(pages: Pages, root: Id, lv: seq<seq<int>>, mc: Stack, p: nat, mix: seq<nat>, x: int, replace: bool,
                    mn: Stack, nix: seq<nat>)
    requires Linked(pages, root, lv, mc, p, mix, replace, mn, nix)
    ensures var L := |lv| - 2;
            && (if replace then p < |lv[L + 1]| && mc.ki[L] < |Nodes(pages, mc.pg[L])| else p <= |lv[L + 1]|)
            && Leads(pages[mc.pg[L] := PutInto(Nodes(pages, mc.pg[L]), mc.ki[L], x, replace)],
                     lv[L + 1 := PutInto(lv[L + 1], p, x, replace)],
                     mn, nix, L, mix[L] + 1)
  {
    hide Joined, Nodes, Distinct, Rows, Traces, Leads;
    LinkedPage(pages, root, lv, mc, p, mix, replace, mn, nix);
    var L := |lv| - 2;
    var all := PutInto(Nodes(pages, mc.pg[L]), mc.ki[L], x, replace);
    TraceLink(pages, lv, mc, mix, L);
    LeafEdit(pages, root, lv, mix[L], all);
    LeadsSame(pages, pages[mc.pg[L] := all], lv, lv[L + 1 := PutInto(lv[L + 1], p, x, replace)], mn, nix, L,
              mix[L] + 1);
  }

  /** The tree after the nodes were dealt out, and the acting cursor. */
  lemma DealtTree(pages: Pages, root: Id, lv: seq<seq<int>>, mc: Stack, p: nat, mix: seq<nat>, x: int, replace: bool,
                  mn: Stack, nix: seq<nat>, s: nat, least: nat)
    requires Linked(pages, root, lv, mc, p, mix, replace, mn, nix)
    requires 1 <= least <= s && s + least <= |Nodes(pages, mc.pg[|lv| - 2])| + if replace then 0 else 1
    requires MinTo(pages, lv, least, {lv[|lv| - 2][mix[|lv| - 2] + 1]})
    ensures |mn.pg| == |mn.ki| >= |lv| - 2 > 0
            && (if replace then p < |lv[|lv| - 1]| && mc.ki[|lv| - 2] < |Nodes(pages, mc.pg[|lv| - 2])|
                else p <= |lv[|lv| - 1]|)
    ensures var L := |lv| - 2;
            var mp, rp, k := mc.pg[L], lv[L][mix[L] + 1], mc.ki[L];
            var pages' := DealtPages(pages, mp, rp, PutInto(Nodes(pages, mp), k, x, replace), s);
            var lv' := lv[L + 1 := PutInto(lv[L + 1], p, x, replace)];
            && Tree(pages', root, lv') && MinTo(pages', lv', least, {}) && mp != rp && Only(pages, pages', {mp, rp})
            && At(pages', lv', Poured(mc, L, mp, rp, s, mn), p) && Inside(pages', Poured(mc, L, mp, rp, s, mn))
  {
    hide Joined, Nodes, Distinct, Rows, Traces, Leads, Poured, MinTo;
    LinkedPage(pages, root, lv, mc, p, mix, replace, mn, nix);
    var L := |lv| - 2;
    var mp, rp, k, j := mc.pg[L], lv[L][mix[L] + 1], mc.ki[L], mix[L];
    var all := PutInto(Nodes(pages, mp), k, x, replace);
    var pages2, lv2 := pages[mp := all], lv[L + 1 := PutInto(lv[L + 1], p, x, replace)];
    FilledTree(pages, root, lv, mc, p, mix, x, replace);
    FilledLeads(pages, root, lv, mc, p, mix, x, replace, mn, nix);
    NewNodes(pages, mp, all);
    PouredTree(pages2, root, lv2, j, s);
    PourIs(pages, mp, rp, all, s);
    PouredTrace(pages2, root, lv2, j, s, mn, nix, mc, mix);
    PouredShape(mc, L, mp, rp, s, mn);
    LeadsShort(pages, lv, mn, nix, L, j + 1);
    var pages' := DealtPages(pages, mp, rp, all, s);
    assert AtIx(pages', lv2, Poured(mc, L, mp, rp, s, mn), p, if mc.ki[L] >= s then nix + [p] else mix);
    MinAfterDeal(pages, pages', lv, lv2, j, least);
  }

  lemma MinAfterDeal(pages: Pages, pages': Pages, lv: seq<seq<int>>, lv': seq<seq<int>>, j: nat, least: nat)
    requires |lv| >= 3 && Distinct(lv) && j + 1 < |lv[|lv| - 2]| && |lv'| == |lv|
             && lv' == lv[|lv| - 1 := lv'[|lv| - 1]]
    requires MinTo(pages, lv, least, {lv[|lv| - 2][j + 1]})
             && Only(pages, pages', {lv[|lv| - 2][j], lv[|lv| - 2][j + 1]})
    requires |Nodes(pages', lv[|lv| - 2][j])| >= least && |Nodes(pages', lv[|lv| - 2][j + 1])| >= least
    ensures MinTo(pages', lv', least, {})
  {
    hide Nodes, Distinct;
    var L := |lv| - 2;
    forall l, i | 0 <= l < |lv'| - 1 && 0 <= i < |lv'[l]|
      ensures |Nodes(pages', lv'[l][i])| >= if l == |lv'| - 2 then least else 2
    {
      Places(lv, l, i, L, j);
      Places(lv, l, i, L, j + 1);
      assert lv'[l] == lv[l];
    }
  }

  /** The step to the next index of the parent, or the copy of the path, leads
      the acting cursor to the new page. */
  lemma NextChild(pages: Pages, lv: seq<seq<int>>, mc: Stack, mix: seq<nat>, mn: Stack, nix: seq<nat>)
    requires |lv| >= 3 && Distinct(lv) && Traces(pages, lv, mc, mix) && |mc.pg| == |mc.ki| == |lv| - 1 && |mix| == |lv|
    requires Leads(pages, lv, mn, nix, |lv| - 2, mix[|lv| - 2] + 1) && mix[|lv| - 2] + 1 < |lv[|lv| - 2]|
    ensures var L := |lv| - 2;
            mn.pg[L - 1] == mc.pg[L - 1] || mc.ki[L - 1] + 1 < |Nodes(pages, mc.pg[L - 1])| ==>
              mc.pg[..L] == mn.pg[..L] && mc.ki[..L - 1] + [mc.ki[L - 1] + 1] == mn.ki[..L]
  {
    hide Joined, Nodes, Distinct, Traces;
    var L := |lv| - 2;
    var j := mix[L];
    TraceLink(pages, lv, mc, mix, L - 1);
    if mn.pg[L - 1] == mc.pg[L - 1] || mc.ki[L - 1] + 1 < |Nodes(pages, mc.pg[L - 1])| {
      assert Link(pages, lv[L - 1], nix[L - 1], mn.pg[L - 1], mn.ki[L - 1], nix[L]);
      Places(lv, L - 1, mix[L - 1], L - 1, nix[L - 1]);
      if mc.ki[L - 1] + 1 < |Nodes(pages, mc.pg[L - 1])| {
        OneParent(pages, lv[L - 1], mix[L - 1], mc.ki[L - 1] + 1, nix[L - 1], mn.ki[L - 1]);
      }
      var q := Start(pages, lv[L], j + 1);
      var to := mc.(pg := mn.pg[..L] + [lv[L][j + 1]], ki := mn.ki[..L] + [0]);
      Rerouted(pages, lv, mn, nix, j + 1, 0, to, q);
      SamePath(pages, lv, mc, mix, to, nix + [q], L - 1);
      assert mn.pg[..L] == to.pg[..L] && mn.ki[..L] == to.ki[..L - 1] + [mn.ki[L - 1]];
    }
  }
}
