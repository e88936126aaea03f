/**
 What a split in some row leaves of the rows further down, in each of the three
 ways the separator may go up: into a parent with room, into a new root, or
 into a parent that is split first.

 The rows down to the one that grows are a tree of their own, to which PageSplit
 and DealingOut apply.  `Divided` has the outcome for the whole tree: row M has
 the new node in it, the rows below are those of before, and no page is in two
 places.  `Follows` has it for a cursor, whose stack leads to the place it led
 to, or to the one after it, in the row that has grown, and goes on below as it
 did.
 */
module RowSplits {
  import opened Sequences
  import opened Levels
  import opened Separators
  import opened Tracking
  import opened Positions
  import opened Touching
  import opened Insertion
  import opened PageSplit
  import opened DealingOut

  lemma UpperTree(pages: Pages, root: Id, lv: seq<seq<int>>, n: nat)
    requires Tree(pages, root, lv) && 2 <= n <= |lv|
    ensures Tree(pages, root, lv[..n])
  {
    hide Joined;
    forall l | 0 <= l < n - 1 ensures lv[..n][l + 1] == Joined(pages, lv[..n][l]) {
      assert lv[l + 1] == Joined(pages, lv[l]);
    }
    var up := lv[..n];
    forall l, i, m, k | 0 <= l < |up| - 1 && 0 <= i < |up[l]| && 0 <= m < |up| - 1 && 0 <= k < |up[m]|
        && up[l][i] == up[m][k]
      ensures l == m && i == k
    {
      Places(lv, l, i, m, k);
    }
  }

  lemma JoinedEmpty(pages: Pages, row: seq<Id>, p: nat, x: Id)
    requires p <= |row| && Nodes(pages, x) == []
    ensures Joined(pages, Inserted(row, p, x)) == Joined(pages, row)
    ensures forall i :: 0 <= i < |row| ==> Start(pages, Inserted(row, p, x), Bump(i, p)) == Start(pages, row, i)
  {
    hide Joined, Nodes;
    EmptyPart(pages, row, p, x);
    forall i | 0 <= i < |row| ensures Start(pages, Inserted(row, p, x), Bump(i, p)) == Start(pages, row, i) {
      if i >= p {
        EmptyPart(pages, row[..i], p, x);
        assert Inserted(row, p, x)[..i + 1] == Inserted(row[..i], p, x);
      } else {
        assert Inserted(row, p, x)[..i] == row[..i];
      }
    }
  }

  lemma EmptyPart(pages: Pages, row: seq<Id>, p: nat, x: Id)
    requires p <= |row| && Nodes(pages, x) == []
    ensures Joined(pages, Inserted(row, p, x)) == Joined(pages, row)
  {
    hide Joined, Nodes;
    var row' := Inserted(row, p, x);
    JoinedAt(pages, row', p);
    JoinedSplit(pages, row, p);
    assert row'[..p] == row[..p] && row'[p + 1..] == row[p..];
    NothingBetween(Joined(pages, row[..p]), Joined(pages, row[p..]));
  }

  lemma NothingBetween(a: seq<int>, b: seq<int>)
    ensures a + [] + b == a + b
  {
  }

  /** What comes into row M: an item, a page without nodes, or the page that is there anyway. */
  ghost predicate Admissible(pages: Pages, lv: seq<seq<int>>, M: nat, p: nat, x: int, replace: bool) {
    && 1 <= M < |lv| && (if replace then p < |lv[M]| else p <= |lv[M]|)
    && (M < |lv| - 1 ==> if replace then lv[M][p] == x else Fresh(lv, x) && Nodes(pages, x) == [])
  }

  /** The rows from M on stay; the upper ones are new. */
  ghost predicate Lowered(pages: Pages, pages': Pages, lv: seq<seq<int>>, M: nat, p: nat, x: int, replace: bool,
                          rows: seq<seq<int>>) {
    && Admissible(pages, lv, M, p, x, replace) && |rows| >= 2
    && rows[|rows| - 1] == PutInto(lv[M], p, x, replace)
    && (forall l :: M <= l < |lv| - 1 ==> SameOn(pages, pages', lv[l]))
    && (M < |lv| - 1 && !replace ==> Nodes(pages', x) == [])
  }

  lemma RowsUnder(pages: Pages, root: Id, lv: seq<seq<int>>, M: nat, p: nat, x: int, replace: bool, pages': Pages,
                  root': Id, rows: seq<seq<int>>)
    requires Rows(pages, root, lv) && Rows(pages', root', rows) && Lowered(pages, pages', lv, M, p, x, replace, rows)
    ensures Rows(pages', root', rows + lv[M + 1..])
  {
    hide Joined, Nodes, SameOn;
    var lv' := rows + lv[M + 1..];
    var M' := |rows| - 1;
    forall l | 0 <= l < |lv'| - 1 ensures lv'[l + 1] == Joined(pages', lv'[l]) {
      if l < M' {
        assert lv'[l] == rows[l] && lv'[l + 1] == rows[l + 1];
      } else {
        var m := l - M' + M;
        JoinedSame(pages, pages', lv[m]);
        assert lv'[l + 1] == lv[m + 1];
        if m == M {
          if replace {
            assert lv[M][p := x] == lv[M];
          } else {
            JoinedEmpty(pages', lv[M], p, x);
          }
        } else {
          assert lv'[l] == lv[m];
        }
      }
    }
  }

  lemma DistinctPut(lv: seq<seq<int>>, M: nat, p: nat, x: int, replace: bool)
    requires Distinct(lv) && 1 <= M < |lv| && (if replace then p < |lv[M]| else p <= |lv[M]|)
    requires M < |lv| - 1 ==> if replace then lv[M][p] == x else Fresh(lv, x)
    ensures Distinct(lv[M := PutInto(lv[M], p, x, replace)])
  {
    hide Distinct;
    if M == |lv| - 1 {
      LastRowFree(lv, PutInto(lv[M], p, x, replace));
    } else if replace {
      assert lv[M][p := x] == lv[M] && lv[M := lv[M]] == lv;
    } else {
      DistinctWith(lv, M, p, x);
    }
  }

  /** Every page from row M on has its nodes. */
  ghost predicate MinBelow(pages: Pages, lv: seq<seq<int>>, M: nat) {
    forall l, i :: M <= l < |lv| - 1 && 0 <= i < |lv[l]| ==> |Nodes(pages, lv[l][i])| >= if l == |lv| - 2 then 1 else 2
  }

  lemma MinUnder(pages: Pages, lv: seq<seq<int>>, M: nat, p: nat, x: int, replace: bool, pages': Pages,
                 rows: seq<seq<int>>)
    requires Lowered(pages, pages', lv, M, p, x, replace, rows) && MinBelow(pages, lv, M)
    requires MinTo(pages', rows, if M == |lv| - 1 then 1 else 2, {})
    ensures MinKeys(pages', rows + lv[M + 1..], if replace || M == |lv| - 1 then {} else {x})
  {
    hide Nodes;
    var lv', M', except := rows + lv[M + 1..], |rows| - 1, if replace || M == |lv| - 1 then {} else {x};
    forall l, i | 0 <= l < |lv'| - 1 && 0 <= i < |lv'[l]|
      ensures lv'[l][i] in except || |Nodes(pages', lv'[l][i])| >= if l == |lv'| - 2 then 1 else 2
    {
      if l < M' {
        assert lv'[l] == rows[l];
      } else {
        var m := l - M' + M;
        var i0 := if m > M || replace then i else if i > p then i - 1 else i;
        assert m > M ==> lv'[l] == lv[m];
        assert (m == M && !replace && i == p) || lv'[l][i] == lv[m][i0];
      }
    }
  }

  lemma MinSplit(pages: Pages, lv: seq<seq<int>>, M: nat, except: set<Id>)
    requires MinKeys(pages, lv, except) && 1 <= M < |lv|
             && forall l, i :: M <= l < |lv| - 1 && 0 <= i < |lv[l]| ==> lv[l][i] !in except
    ensures MinTo(pages, lv[..M + 1], if M == |lv| - 1 then 1 else 2, except) && MinBelow(pages, lv, M)
  {
    hide Nodes;
    var rows := lv[..M + 1];
    forall l, i | 0 <= l < |rows| - 1 && 0 <= i < |rows[l]|
      ensures rows[l][i] in except || |Nodes(pages, rows[l][i])| >=
              if l == |rows| - 2 then (if M == |lv| - 1 then 1 else 2) else 2
    {
      assert rows[l] == lv[l];
    }
  }

  // ------------------------------------------------ the three ways of a split

  /** What a split does to a cursor that came through place q of the last of the rows. */
  ghost predicate Follows(rows: seq<seq<int>>, c: Stack, q: nat, p: nat, replace: bool, pages': Pages,
                          rows': seq<seq<int>>, c': Stack) {
    && |c'.pg| == |c'.ki| && c'.init == c.init && c'.eof == c.eof && c'.del == c.del
    && (c.init ==>
          && |rows| >= 2 && |rows'| >= 2 && SameBelow(c, |rows| - 1, c', |rows'| - 1)
          && On(pages', rows', c', After(q, p, replace)))
  }

  /** What the split of a page of row M - 1 may rely on. */
  ghost predicate Splittable(pages: Pages, root: Id, lv: seq<seq<int>>, M: nat, mc: Stack, p: nat, mix: seq<nat>,
                             x: int, replace: bool, rp: Id, s: nat) {
    && Tree(pages, root, lv) && Admissible(pages, lv, M, p, x, replace)
    && Slot(pages, lv[..M + 1], mc, p, mix) && (replace ==> Inside(pages, mc))
    && Fresh(lv, rp) && Nodes(pages, rp) == [] && (M < |lv| - 1 ==> x != rp)
    && var least := if M == |lv| - 1 then 1 else 2;
       least <= s && s + least <= |Nodes(pages, mc.pg[M - 1])| + if replace then 0 else 1
  }

  /** Pages and rows after the split. */
  ghost predicate Divided(pages: Pages, lv: seq<seq<int>>, M: nat, p: nat, x: int, replace: bool, pages': Pages,
                          root': Id, rows': seq<seq<int>>)
    requires Admissible(pages, lv, M, p, x, replace)
  {
    && Tree(pages', root', rows' + lv[M + 1..])
    && MinKeys(pages', rows' + lv[M + 1..], if replace || M == |lv| - 1 then {} else {x})
    && |rows'| >= 2 && rows'[|rows'| - 1] == PutInto(lv[M], p, x, replace)
    && (forall l :: M <= l < |lv| - 1 ==> SameOn(pages, pages', lv[l]))
    && (M < |lv| - 1 ==> Nodes(pages', x) == Nodes(pages, x))
  }

  lemma CutJoin<T>(a: seq<T>, b: seq<T>)
    ensures (a + b)[..|a|] == a && (a + b)[|a|..] == b && a + [] == a
  {
  }

  lemma CutSet<T>(s: seq<T>, n: nat, i: nat, v: T)
    requires i < n <= |s|
    ensures s[i := v][..n] == s[..n][i := v] && s[i := v][n..] == s[n..] && s[..n][i] == s[i]
  {
  }

  lemma SplitFixTop(c: Stack, top: nat, mp: Id, rp: Id, newindx: nat, replace: bool, nkeys: nat, mn: Stack, did: bool,
                    parent: Id, mcki: nat)
    requires |c.pg| == |c.ki| > top > 0 && |mn.pg| == |mn.ki| >= top
    ensures var c' := SplitFix(c, top, mp, rp, newindx, replace, nkeys, mn, did, parent, mcki);
            && SameBelow(c, top + 1, c', top + 1)
            && Top(c', top + 1) == SplitFix(Top(c, top + 1), top, mp, rp, newindx, replace, nkeys, mn, did, parent,
                                            mcki)
  {
    var n := top + 1;
    CutSet(c.ki, n, top, c.ki[top] + 1);
    CutSet(c.ki, n, top - 1, c.ki[top - 1] + 1);
    CutSet(c.pg, n, top, rp);
    CutSet(c.pg, n, top - 1, rp);
    if c.pg[top] == mp {
      var m := if c.ki[top] >= newindx && !replace then c.(ki := c.ki[top := c.ki[top] + 1]) else c;
      assert m.ki[n..] == c.ki[n..] && m.ki[top] == Top(m, n).ki[top];
      if m.ki[top] >= nkeys {
        CutJoin(mn.pg[..top] + [rp], c.pg[n..]);
        CutJoin(mn.ki[..top] + [m.ki[top] - nkeys], m.ki[n..]);
        assert |mn.pg[..top] + [rp]| == n == |mn.ki[..top] + [m.ki[top] - nkeys]|;
        assert Top(c, n).pg[n..] == [] && Top(m, n).ki[n..] == [];
      }
    }
  }

  lemma RootSplitFixTop(c: Stack, mp: Id, rp: Id, pp: Id, newindx: nat, replace: bool, nkeys: nat, mn: Stack, mcki: nat)
    requires |c.pg| == |c.ki| >= 1 && |mn.pg| == |mn.ki| >= 1 && c.init && c.pg[0] == mp
    ensures var c' := RootSplitFix(c, mp, rp, pp, newindx, replace, nkeys, mn, mcki);
            && SameBelow(c, 1, c', 2)
            && Top(c', 2) == RootSplitFix(Top(c, 1), mp, rp, pp, newindx, replace, nkeys, mn, mcki)
  {
    hide SplitFix;
    var k := if c.ki[0] >= nkeys then 1 else 0;
    var r := Raised(c, pp, k);
    SplitFixTop(r, 1, mp, rp, newindx, replace, nkeys, mn, false, pp, mcki);
    assert Top(r, 2) == Raised(Top(c, 1), pp, k);
    assert r.pg[2..] == c.pg[1..] && r.ki[2..] == c.ki[1..];
  }

  lemma Untouched(pages: Pages, pages': Pages, lv: seq<seq<int>>, M: nat, ids: set<Id>)
    requires Only(pages, pages', ids) && forall l, i :: M <= l < |lv| - 1 && 0 <= i < |lv[l]| ==> lv[l][i] !in ids
    ensures forall l :: M <= l < |lv| - 1 ==> SameOn(pages, pages', lv[l])
  {
    hide Nodes;
    forall l | M <= l < |lv| - 1 ensures SameOn(pages, pages', lv[l]) {
      Elsewhere(pages, pages', ids, lv[l]);
    }
  }

  /** The pages a split changes are above row M, or new. */
  lemma AboveRow(lv: seq<seq<int>>, M: nat, l: nat, i: nat, id: Id)
    requires Distinct(lv) && l < M && l < |lv| - 1 && i < |lv[l]| && lv[l][i] == id
    ensures forall m, k :: M <= m < |lv| - 1 && 0 <= k < |lv[m]| ==> lv[m][k] != id
  {
    forall m, k | M <= m < |lv| - 1 && 0 <= k < |lv[m]| ensures lv[m][k] != id {
      Places(lv, l, i, m, k);
    }
  }

  lemma AtInside(pages: Pages, root: Id, rows: seq<seq<int>>, c: Stack, q: nat)
    requires Rows(pages, root, rows) && At(pages, rows, c, q) && q < |rows[|rows| - 1]|
    ensures |c.pg| == |c.ki| == |rows| - 1 >= 1 && Inside(pages, c)
  {
    AtItem(pages, root, rows, c, q);
  }

  /** The page of row L and its parent, for a split below the root. */
  lemma WithParent(pages: Pages, root: Id, lv: seq<seq<int>>, M: nat, mc: Stack, p: nat, mix: seq<nat>, x: int,
                   replace: bool, rp: Id, s: nat)
    requires Splittable(pages, root, lv, M, mc, p, mix, x, replace, rp, s) && M >= 2
    ensures |mc.pg| == |mc.ki| == M && |mix| == M + 1 && mc.ki[M - 2] < |Nodes(pages, mc.pg[M - 2])|
            && mix[M - 1] < |lv[M - 1]|
    ensures mc.pg[M - 1] == lv[M - 1][mix[M - 1]] && mix[M - 2] < |lv[M - 2]| && mc.pg[M - 2] == lv[M - 2][mix[M - 2]]
    ensures (if replace then mc.ki[M - 1] < |Nodes(pages, mc.pg[M - 1])|
             else mc.ki[M - 1] <= |Nodes(pages, mc.pg[M - 1])|)
    ensures s < |PutInto(Nodes(pages, mc.pg[M - 1]), mc.ki[M - 1], x, replace)|
  {
    hide Joined, Nodes, Distinct, Rows, Traces;
    TraceLink(pages, lv[..M + 1], mc, mix, M - 1);
    TraceLink(pages, lv[..M + 1], mc, mix, M - 2);
  }

  /** The parent has room for the separator. */
  lemma SimpleSplit(pages: Pages, root: Id, lv: seq<seq<int>>, M: nat, mc: Stack, p: nat, mix: seq<nat>, x: int,
                    replace: bool, rp: Id, s: nat, mp: Id, k: nat, P: Id, kp: nat, all: seq<int>, pages': Pages,
                    rows': seq<seq<int>>)
    requires Splittable(pages, root, lv, M, mc, p, mix, x, replace, rp, s) && M >= 2 && MinKeys(pages, lv, {})
    requires |mc.pg| == |mc.ki| == M && |mix| == M + 1 && mix[M - 1] < |lv[M - 1]|
    requires mp == mc.pg[M - 1] && k == mc.ki[M - 1] && P == mc.pg[M - 2] && kp == mc.ki[M - 2] < |Nodes(pages, P)|
    requires (if replace then k < |Nodes(pages, mp)| else k <= |Nodes(pages, mp)|)
             && all == PutInto(Nodes(pages, mp), k, x, replace) && s < |all|
    requires pages' == SplitPair(pages, P, kp, rp, mp, all, s)
             && rows' == SplitRows(lv[..M + 1], M - 1, mix[M - 1], rp, p, x, replace)
    ensures Divided(pages, lv, M, p, x, replace, pages', root, rows')
    ensures At(pages', rows', Landed(mc, rp, s), p) && Inside(pages', Landed(mc, rp, s))
  {
    hide Joined, Nodes, Distinct, Rows, Traces, MinTo, MinKeys, SplitFix, At, SameOn;
    var L, T := M - 1, lv[..M + 1];
    var least := if M == |lv| - 1 then 1 else 2;
    WithParent(pages, root, lv, M, mc, p, mix, x, replace, rp, s);
    UpperTree(pages, root, lv, M + 1);
    MinSplit(pages, lv, M, {});
    FreshUpper(lv, M + 1, rp);
    SplitWhole(pages, root, T, mc, p, mix, x, replace, rp, s, least, mp, k, P, kp, all, pages', rows');
    ThreePages(pages, mp, rp, P, Inserted(Nodes(pages, P), kp + 1, rp), all[s..], all[..s]);
    SimpleBelow(pages, root, lv, M, mc, p, mix, x, replace, rp, s, mp, P, pages');
    RowsUnder(pages, root, lv, M, p, x, replace, pages', root, rows');
    SimpleDistinct(lv, M, mix[L], rp, p, x, replace, rows');
    MinUnder(pages, lv, M, p, x, replace, pages', rows');
    AtInside(pages', root, rows', Landed(mc, rp, s), p);
  }

  lemma SimpleFollows(pages: Pages, root: Id, lv: seq<seq<int>>, M: nat, mc: Stack, p: nat, mix: seq<nat>, x: int,
                      replace: bool, rp: Id, s: nat, mp: Id, k: nat, P: Id, kp: nat, all: seq<int>, pages': Pages,
                      rows': seq<seq<int>>)
    requires Splittable(pages, root, lv, M, mc, p, mix, x, replace, rp, s) && M >= 2 && MinKeys(pages, lv, {})
    requires |mc.pg| == |mc.ki| == M && |mix| == M + 1 && mix[M - 1] < |lv[M - 1]|
    requires mp == mc.pg[M - 1] && k == mc.ki[M - 1] && P == mc.pg[M - 2] && kp == mc.ki[M - 2] < |Nodes(pages, P)|
    requires (if replace then k < |Nodes(pages, mp)| else k <= |Nodes(pages, mp)|)
             && all == PutInto(Nodes(pages, mp), k, x, replace) && s < |all|
    requires pages' == SplitPair(pages, P, kp, rp, mp, all, s)
             && rows' == SplitRows(lv[..M + 1], M - 1, mix[M - 1], rp, p, x, replace)
    ensures forall c: Stack, q: nat {:trigger On(pages, lv[..M + 1], c, q)} ::
              On(pages, lv[..M + 1], c, q) && c.init ==>
              Follows(lv[..M + 1], c, q, p, replace, pages', rows',
                      SplitFix(c, M - 1, mp, rp, k, replace, s, OnRight(mc, rp), false, P, if k < s then kp
                               else kp + 1))
  {
    hide Joined, Nodes, Distinct, Rows, Traces, MinTo, MinKeys, SplitFix, At, SameOn;
    var L, T := M - 1, lv[..M + 1];
    WithParent(pages, root, lv, M, mc, p, mix, x, replace, rp, s);
    UpperTree(pages, root, lv, M + 1);
    MinSplit(pages, lv, M, {});
    FreshUpper(lv, M + 1, rp);
    SplitWhole(pages, root, T, mc, p, mix, x, replace, rp, s, if M == |lv| - 1 then 1
                                                              else 2, mp, k, P, kp, all, pages', rows');
    var mn := OnRight(mc, rp);
    var mcki := if k < s then kp else kp + 1;
    forall c: Stack, q: nat {:trigger On(pages, T, c, q)} | On(pages, T, c, q) && c.init
      ensures Follows(T, c, q, p, replace, pages', rows', SplitFix(c, L, mp, rp, k, replace, s, mn, false, P, mcki))
    {
      SplitFixTop(c, L, mp, rp, k, replace, s, mn, false, P, mcki);
    }
  }

  lemma SimpleDistinct(lv: seq<seq<int>>, M: nat, j: nat, rp: Id, p: nat, x: int, replace: bool, rows': seq<seq<int>>)
    requires Distinct(lv) && 2 <= M < |lv| && j < |lv[M - 1]| && Fresh(lv, rp) && (M < |lv| - 1 ==> x != rp)
    requires (if replace then p < |lv[M]| else p <= |lv[M]|)
             && (M < |lv| - 1 ==> if replace then lv[M][p] == x else Fresh(lv, x))
    requires rows' == SplitRows(lv[..M + 1], M - 1, j, rp, p, x, replace)
    ensures Distinct(rows' + lv[M + 1..])
  {
    hide Distinct;
    var L := M - 1;
    DistinctWith(lv, L, j + 1, rp);
    var lv1 := lv[L := Inserted(lv[L], j + 1, rp)];
    if M < |lv| - 1 {
      FreshBeside(lv, L, j + 1, rp, x);
    }
    DistinctPut(lv1, M, p, x, replace);
    assert rows' + lv[M + 1..] == lv1[M := PutInto(lv[M], p, x, replace)];
  }

  /** Nothing changes in the rows from M on. */
  lemma SimpleBelow(pages: Pages, root: Id, lv: seq<seq<int>>, M: nat, mc: Stack, p: nat, mix: seq<nat>, x: int,
                    replace: bool, rp: Id, s: nat, mp: Id, P: Id, pages': Pages)
    requires Splittable(pages, root, lv, M, mc, p, mix, x, replace, rp, s) && M >= 2
    requires mp == mc.pg[M - 1] && P == mc.pg[M - 2] && Only(pages, pages', {mp, rp, P})
    ensures forall l :: M <= l < |lv| - 1 ==> SameOn(pages, pages', lv[l])
    ensures M < |lv| - 1 ==> Nodes(pages', x) == Nodes(pages, x)
  {
    hide Joined, Nodes, Distinct, Rows, Traces, SameOn, PutInto, Inserted, Only;
    WithParent(pages, root, lv, M, mc, p, mix, x, replace, rp, s);
    AboveRow(lv, M, M - 1, mix[M - 1], mp);
    AboveRow(lv, M, M - 2, mix[M - 2], P);
    FreshBeyond(lv, M, rp);
    Untouched(pages, pages', lv, M, {mp, rp, P});
    FreshSame(pages, pages', lv, M, x, {mp, rp, P}, M - 1, mix[M - 1], M - 2, mix[M - 2]);
  }

  lemma FreshUpper(lv: seq<seq<int>>, n: nat, id: Id)
    requires Fresh(lv, id) && n <= |lv|
    ensures Fresh(lv[..n], id)
  {
  }

  lemma FreshBeyond(lv: seq<seq<int>>, M: nat, id: Id)
    requires Fresh(lv, id)
    ensures forall m, k :: M <= m < |lv| - 1 && 0 <= k < |lv[m]| ==> lv[m][k] != id
  {
  }

  lemma FreshBeside(lv: seq<seq<int>>, L: nat, i: nat, rp: Id, x: Id)
    requires L < |lv| - 1 && i <= |lv[L]| && x != rp
    ensures Fresh(lv, x) ==> Fresh(lv[L := Inserted(lv[L], i, rp)], x)
  {
  }

  lemma ThreePages(pages: Pages, mp: Id, rp: Id, P: Id, a: seq<int>, b: seq<int>, c: seq<int>)
    ensures Only(pages, pages[P := a][rp := b][mp := c], {mp, rp, P})
  {
  }

  /** A page that comes into row M is none of those a split changes. */
  lemma FreshSame(pages: Pages, pages': Pages, lv: seq<seq<int>>, M: nat, x: Id, ids: set<Id>, l: nat, i: nat, m: nat,
                  k: nat)
    requires l < |lv| - 1 && i < |lv[l]| && m < |lv| - 1 && k < |lv[m]| && l < M && m < M && M < |lv|
    requires Distinct(lv) && Only(pages, pages', ids)
             && forall id :: id in ids ==>
                  id == lv[l][i] || id == lv[m][k] || (Fresh(lv, id) && (M < |lv| - 1 ==> id != x))
    ensures M < |lv| - 1 && (Fresh(lv, x) || exists j :: 0 <= j < |lv[M]| && lv[M][j] == x) ==>
              Nodes(pages', x) == Nodes(pages, x)
  {
    hide Nodes;
    if M < |lv| - 1 && x in ids {
      if j :| 0 <= j < |lv[M]| && lv[M][j] == x {
        Places(lv, M, j, l, i);
        Places(lv, M, j, m, k);
      }
    }
  }

  ghost function RootRows(root: Id, rp: Id, pp: Id, row: seq<int>): seq<seq<int>> { [[pp], [root, rp], row] }

  function RootPair(pages: Pages, root: Id, rp: Id, pp: Id, all: seq<int>, s: nat): Pages
    requires s <= |all|
  {
    pages[pp := [root, rp]][rp := all[s..]][root := all[..s]]
  }

  lemma AtRootPage(pages: Pages, root: Id, lv: seq<seq<int>>, mc: Stack, p: nat, mix: seq<nat>, x: int, replace: bool,
                   rp: Id, s: nat)
    requires Splittable(pages, root, lv, 1, mc, p, mix, x, replace, rp, s)
    ensures |mc.pg| == |mc.ki| == 1 && mc.pg[0] == root && lv[0] == [root]
    ensures (if replace then mc.ki[0] < |Nodes(pages, root)| else mc.ki[0] <= |Nodes(pages, root)|)
    ensures s < |PutInto(Nodes(pages, root), mc.ki[0], x, replace)|
  {
    hide Joined, Nodes, Distinct, Traces;
    TraceLink(pages, lv[..2], mc, mix, 0);
  }

  /** The root is split. */
  lemma RootSplit(pages: Pages, root: Id, lv: seq<seq<int>>, mc: Stack, p: nat, mix: seq<nat>, x: int, replace: bool,
                  rp: Id, pp: Id, s: nat, k: nat, all: seq<int>, pages': Pages, rows': seq<seq<int>>)
    requires Splittable(pages, root, lv, 1, mc, p, mix, x, replace, rp, s) && MinKeys(pages, lv, {}) && Fresh(lv, pp)
             && pp != rp && (1 < |lv| - 1 ==> x != pp)
    requires |mc.pg| == |mc.ki| == 1 && k == mc.ki[0]
    requires (if replace then k < |Nodes(pages, root)| else k <= |Nodes(pages, root)|)
             && all == PutInto(Nodes(pages, root), k, x, replace) && s < |all|
    requires pages' == RootPair(pages, root, rp, pp, all, s)
             && rows' == RootRows(root, rp, pp, PutInto(lv[1], p, x, replace))
    ensures Divided(pages, lv, 1, p, x, replace, pages', pp, rows')
    ensures At(pages', rows', Landed(Raised(mc, pp, 0), rp, s), p) && Inside(pages', Landed(Raised(mc, pp, 0), rp, s))
  {
    hide Joined, Nodes, Distinct, Rows, Traces, MinTo, MinKeys, SplitFix, At, SameOn;
    AtRootPage(pages, root, lv, mc, p, mix, x, replace, rp, s);
    UpperTree(pages, root, lv, 2);
    MinSplit(pages, lv, 1, {});
    FreshUpper(lv, 2, rp);
    FreshUpper(lv, 2, pp);
    RootSplitWhole(pages, root, lv[..2], mc, p, mix, x, replace, rp, pp, s, if 1 == |lv| - 1 then 1 else 2);
    ThreePages(pages, root, rp, pp, [root, rp], all[s..], all[..s]);
    RootBelow(pages, lv, root, rp, pp, p, x, replace, pages');
    RowsUnder(pages, root, lv, 1, p, x, replace, pages', pp, rows');
    RootDistinct(lv, root, rp, pp, p, x, replace);
    MinUnder(pages, lv, 1, p, x, replace, pages', rows');
    AtInside(pages', pp, rows', Landed(Raised(mc, pp, 0), rp, s), p);
  }

  lemma RootBelow(pages: Pages, lv: seq<seq<int>>, root: Id, rp: Id, pp: Id, p: nat, x: int, replace: bool,
                  pages': Pages)
    requires |lv| >= 2 && lv[0] == [root] && Distinct(lv) && Fresh(lv, rp) && Fresh(lv, pp)
             && (1 < |lv| - 1 ==> x != rp && x != pp)
    requires Admissible(pages, lv, 1, p, x, replace) && Only(pages, pages', {root, rp, pp})
    ensures forall l :: 1 <= l < |lv| - 1 ==> SameOn(pages, pages', lv[l])
    ensures 1 < |lv| - 1 ==> Nodes(pages', x) == Nodes(pages, x)
  {
    hide Nodes, Distinct, SameOn;
    AboveRow(lv, 1, 0, 0, root);
    FreshBeyond(lv, 1, rp);
    FreshBeyond(lv, 1, pp);
    Untouched(pages, pages', lv, 1, {root, rp, pp});
    FreshSame(pages, pages', lv, 1, x, {root, rp, pp}, 0, 0, 0, 0);
  }

  lemma RootDistinct(lv: seq<seq<int>>, root: Id, rp: Id, pp: Id, p: nat, x: int, replace: bool)
    requires Distinct(lv) && |lv| >= 2 && lv[0] == [root] && Fresh(lv, rp) && Fresh(lv, pp) && rp != pp
             && (1 < |lv| - 1 ==> x != rp && x != pp)
    requires (if replace then p < |lv[1]| else p <= |lv[1]|)
             && (1 < |lv| - 1 ==> if replace then lv[1][p] == x else Fresh(lv, x))
    ensures Distinct(RootRows(root, rp, pp, PutInto(lv[1], p, x, replace)) + lv[2..])
  {
    hide Distinct;
    DistinctRaised(lv, pp);
    var lv1 := [[pp]] + lv;
    FreshRaised(lv, pp, rp);
    DistinctWith(lv1, 1, 1, rp);
    var lv2 := lv1[1 := Inserted(lv1[1], 1, rp)];
    assert lv1[1] == [root] && Inserted([root], 1, rp) == [root, rp];
    if 1 < |lv| - 1 && !replace {
      FreshRaised(lv, pp, x);
      FreshBeside(lv1, 1, 1, rp, x);
    }
    assert lv2[2] == lv[1] && |lv2| == |lv| + 1;
    DistinctPut(lv2, 2, p, x, replace);
    assert RootRows(root, rp, pp, PutInto(lv[1], p, x, replace)) + lv[2..] == lv2[2 := PutInto(lv2[2], p, x, replace)];
  }

  lemma RootFollows(pages: Pages, root: Id, lv: seq<seq<int>>, mc: Stack, p: nat, mix: seq<nat>, x: int, replace: bool,
                    rp: Id, pp: Id, s: nat, k: nat, all: seq<int>, pages': Pages, rows': seq<seq<int>>)
    requires Splittable(pages, root, lv, 1, mc, p, mix, x, replace, rp, s) && MinKeys(pages, lv, {}) && Fresh(lv, pp)
             && pp != rp && (1 < |lv| - 1 ==> x != pp)
    requires |mc.pg| == |mc.ki| == 1 && k == mc.ki[0]
    requires (if replace then k < |Nodes(pages, root)| else k <= |Nodes(pages, root)|)
             && all == PutInto(Nodes(pages, root), k, x, replace) && s < |all|
    requires pages' == RootPair(pages, root, rp, pp, all, s)
             && rows' == RootRows(root, rp, pp, PutInto(lv[1], p, x, replace))
    ensures forall c: Stack, q: nat {:trigger On(pages, lv[..2], c, q)} :: On(pages, lv[..2], c, q) && c.init ==>
              Follows(lv[..2], c, q, p, replace, pages', rows',
                      RootSplitFix(c, root, rp, pp, k, replace, s, OnRight(Raised(mc, pp, 0), rp), if k < s then 0
                                   else 1))
  {
    hide Joined, Nodes, Distinct, Rows, Traces, MinTo, MinKeys, SplitFix, At, SameOn, RootSplitFix;
    AtRootPage(pages, root, lv, mc, p, mix, x, replace, rp, s);
    UpperTree(pages, root, lv, 2);
    MinSplit(pages, lv, 1, {});
    FreshUpper(lv, 2, rp);
    FreshUpper(lv, 2, pp);
    RootSplitWhole(pages, root, lv[..2], mc, p, mix, x, replace, rp, pp, s, if 1 == |lv| - 1 then 1 else 2);
    var mn := OnRight(Raised(mc, pp, 0), rp);
    var mcki := if k < s then 0 else 1;
    forall c: Stack, q: nat {:trigger On(pages, lv[..2], c, q)} | On(pages, lv[..2], c, q) && c.init
      ensures Follows(lv[..2], c, q, p, replace, pages', rows', RootSplitFix(c, root, rp, pp, k, replace, s, mn, mcki))
    {
      RootPageOf(pages, root, lv[..2], Top(c, 1), q);
      RootSplitFixTop(c, root, rp, pp, k, replace, s, mn, mcki);
    }
  }

  // ----------------------------------------------------- the parent is split, too

  /** A stack through the rows that hold the new page without nodes. */
  ghost predicate Near(pages: Pages, rows: seq<seq<int>>, j: nat, c: Stack, q: nat) {
    exists ix :: NearIx(pages, rows, j, c, q, ix)
  }

  ghost predicate NearIx(pages: Pages, rows: seq<seq<int>>, j: nat, c: Stack, q: nat, ix: seq<nat>) {
    && |rows| >= 3 && |c.pg| == |c.ki| >= |rows| - 1 && |ix| == |rows| && ix[|rows| - 1] == q
    && j + 1 < |rows[|rows| - 2]|
    && var L, c0 := |rows| - 2, Top(c, |rows| - 1);
    && Traces(pages, rows, c0, ix) && c0.ki[L] <= |Nodes(pages, c0.pg[L])| && c0.pg[L] != rows[L][j + 1]
    && (Inside(pages, c0) || ix[L] + 1 == |rows[L]| || (ix[L] == j && j + 2 == |rows[L]|))
  }

  /** How a stack came through the split of the parent. */
  lemma Extended(pages: Pages, root: Id, rows: seq<seq<int>>, c: Stack, ix: seq<nat>, j: nat, rp: Id,
                 pages1: Pages, root1: Id, rows1: seq<seq<int>>, c1: Stack) returns (ix1: seq<nat>)
    requires |rows| >= 3 && |c.pg| == |c.ki| >= |rows| - 1 && |ix| == |rows|
             && Traces(pages, rows, Top(c, |rows| - 1), ix)
    requires |rows1| >= |rows| && Rows(pages1, root1, rows1) && Distinct(rows1)
    requires var L, L1 := |rows| - 2, |rows1| - 2;
             && j < |rows[L]| && rows1[L1] == Inserted(rows[L], j + 1, rp) && Nodes(pages1, rp) == []
             && SameOn(pages, pages1, rows[L])
             && SameBelow(c, L, c1, L1) && On(pages1, rows1[..L1 + 1], c1, Bump(ix[L], j + 1))
    ensures var L, L1 := |rows| - 2, |rows1| - 2;
            && |ix1| == |rows1| && ix1[L1 + 1] == ix[L + 1] && ix1[L1] == Bump(ix[L], j + 1)
            && |c1.pg| == |c1.ki| > L1 && c1.pg[L1] == c.pg[L] && c1.ki[L1] == c.ki[L]
            && Traces(pages1, rows1, Top(c1, L1 + 1), ix1)
            && Nodes(pages1, c.pg[L]) == Nodes(pages, c.pg[L]) && j + 1 < |rows1[L1]| && c.pg[L] != rows1[L1][j + 1]
            && ix[L] < |rows[L]|
  {
    hide Joined, Nodes, Distinct, Traces, SameOn, Rows, Inserted;
    var L, L1 := |rows| - 2, |rows1| - 2;
    var up := rows1[..L1 + 1];
    UpperRows(pages1, root1, rows1, L1 + 1);
    var ux :| AtIx(pages1, up, Top(c1, L1), Bump(ix[L], j + 1), ux);
    TraceLink(pages, rows, Top(c, L + 1), ix, L);
    BumpAt(rows[L], j + 1, rp, ix[L]);
    AtInside(pages1, root1, up, Top(c1, L1), Bump(ix[L], j + 1));
    var q := ix[L + 1];
    ix1 := ux + [q];
    var c2 := Top(c1, L1 + 1);
    assert c1.pg[L1..][0] == c.pg[L..][0] && c1.ki[L1..][0] == c.ki[L..][0];
    JoinedEmpty(pages1, rows[L], j + 1, rp);
    LinkSame(pages, pages1, rows[L], ix[L], c.pg[L]);
    Spliced(pages1, rows1, c2, Top(c1, L1), ux, q);
    Places(rows1, L1, Bump(ix[L], j + 1), L1, j + 1);
  }

  lemma BumpAt<T>(s: seq<T>, i: nat, x: T, k: nat)
    requires i <= |s| && k < |s|
    ensures |Inserted(s, i, x)| == |s| + 1 && Inserted(s, i, x)[i] == x && Inserted(s, i, x)[Bump(k, i)] == s[k]
            && Bump(k, i) != i
  {
  }

  /** One row more under a path. */
  lemma Spliced(pages: Pages, rows: seq<seq<int>>, c: Stack, up: Stack, ux: seq<nat>, q: nat)
    requires |rows| >= 3 && |c.pg| == |c.ki| == |rows| - 1 && up.pg == c.pg[..|rows| - 2] && up.ki == c.ki[..|rows| - 2]
    requires |ux| == |rows| - 1 && Traces(pages, rows[..|rows| - 1], up, ux) && Inside(pages, up)
    requires Link(pages, rows[|rows| - 2], ux[|rows| - 2], c.pg[|rows| - 2], c.ki[|rows| - 2], q)
    ensures Traces(pages, rows, c, ux + [q])
  {
    hide Joined, Nodes;
    var ix := ux + [q];
    forall l | 0 <= l < |rows| - 1
      ensures Link(pages, rows[l], ix[l], c.pg[l], c.ki[l], ix[l + 1])
              && (l + 2 < |rows| ==> c.ki[l] < |Nodes(pages, c.pg[l])|)
    {
      if l < |rows| - 2 {
        TraceLink(pages, rows[..|rows| - 1], up, ux, l);
      }
    }
  }

  lemma UpperRows(pages: Pages, root: Id, lv: seq<seq<int>>, n: nat)
    requires Rows(pages, root, lv) && 2 <= n <= |lv|
    ensures Rows(pages, root, lv[..n])
  {
    hide Joined;
    forall l | 0 <= l < n - 1 ensures lv[..n][l + 1] == Joined(pages, lv[..n][l]) {
      assert lv[l + 1] == Joined(pages, lv[l]);
    }
  }

  /** What dealing the nodes out after a split of the parent may rely on. */
  ghost predicate Dealable(pages: Pages, root: Id, lv: seq<seq<int>>, M: nat, mc: Stack, p: nat, mix: seq<nat>, x: int,
                           replace: bool, mn: Stack, nix: seq<nat>, rp: Id, s: nat) {
    && Tree(pages, root, lv) && Admissible(pages, lv, M, p, x, replace) && 2 <= M
    && Linked(pages, root, lv[..M + 1], mc, p, mix, replace, mn, nix) && rp == lv[M - 1][mix[M - 1] + 1]
    && var least := if M == |lv| - 1 then 1 else 2;
       least <= s && s + least <= |Nodes(pages, mc.pg[M - 1])| + if replace then 0 else 1
  }

  lemma DeepSplit(pages: Pages, root: Id, lv: seq<seq<int>>, M: nat, mc: Stack, p: nat, mix: seq<nat>, x: int,
                  replace: bool, mn: Stack, nix: seq<nat>, rp: Id, s: nat, mp: Id, k: nat, all: seq<int>, pages': Pages,
                  rows': seq<seq<int>>)
    requires Dealable(pages, root, lv, M, mc, p, mix, x, replace, mn, nix, rp, s) && MinKeys(pages, lv, {rp})
    requires |mc.pg| == |mc.ki| == M && mp == mc.pg[M - 1] && k == mc.ki[M - 1] && |mn.pg| == |mn.ki| >= M - 1
    requires (if replace then k < |Nodes(pages, mp)| else k <= |Nodes(pages, mp)|)
             && all == PutInto(Nodes(pages, mp), k, x, replace) && s < |all|
    requires pages' == DealtPages(pages, mp, rp, all, s) && rows' == lv[..M + 1][M := PutInto(lv[M], p, x, replace)]
    ensures Divided(pages, lv, M, p, x, replace, pages', root, rows')
    ensures At(pages', rows', Poured(mc, M - 1, mp, rp, s, mn), p) && Inside(pages', Poured(mc, M - 1, mp, rp, s, mn))
  {
    hide Joined, Nodes, Distinct, Rows, Traces, MinTo, MinKeys, At, SameOn, Leads, Poured;
    var L := M - 1;
    LinkedPage(pages, root, lv[..M + 1], mc, p, mix, replace, mn, nix);
    AboveRow(lv, M, L, mix[L], mp);
    AboveRow(lv, M, L, mix[L] + 1, rp);
    MinSplit(pages, lv, M, {rp});
    DealtTree(pages, root, lv[..M + 1], mc, p, mix, x, replace, mn, nix, s, if M == |lv| - 1 then 1 else 2);
    Untouched(pages, pages', lv, M, {mp, rp});
    FreshSame(pages, pages', lv, M, x, {mp, rp}, L, mix[L], L, mix[L] + 1);
    RowsUnder(pages, root, lv, M, p, x, replace, pages', root, rows');
    DistinctPut(lv, M, p, x, replace);
    assert rows' + lv[M + 1..] == lv[M := PutInto(lv[M], p, x, replace)];
    MinUnder(pages, lv, M, p, x, replace, pages', rows');
  }

  lemma DeepFollows(pages: Pages, root: Id, lv: seq<seq<int>>, M: nat, mc: Stack, p: nat, mix: seq<nat>, x: int,
                    replace: bool, mn: Stack, nix: seq<nat>, rp: Id, s: nat, mp: Id, k: nat, all: seq<int>,
                    pages': Pages, rows': seq<seq<int>>, P: Id, mcki: nat, c: Stack, q: nat)
    requires Dealable(pages, root, lv, M, mc, p, mix, x, replace, mn, nix, rp, s)
    requires |mix| == M + 1
    requires |mc.pg| == |mc.ki| == M && mp == mc.pg[M - 1] && k == mc.ki[M - 1] && |mn.pg| == |mn.ki| >= M - 1
    requires (if replace then k < |Nodes(pages, mp)| else k <= |Nodes(pages, mp)|)
             && all == PutInto(Nodes(pages, mp), k, x, replace) && s < |all|
    requires pages' == DealtPages(pages, mp, rp, all, s) && rows' == lv[..M + 1][M := PutInto(lv[M], p, x, replace)]
    requires Near(pages, lv[..M + 1], mix[M - 1], c, q) && c.init
    ensures |c.pg| == |c.ki| >= M
    ensures Follows(lv[..M + 1], c, q, p, replace, pages', rows',
                    SplitFix(c, M - 1, mp, rp, k, replace, s, mn, true, P, mcki))
  {
    hide Joined, Nodes, Distinct, Rows, Traces, At, SameOn, SplitFix, Linked;
    var L, rows := M - 1, lv[..M + 1];
    var ix :| NearIx(pages, rows, mix[L], c, q, ix);
    SplitFixTop(c, L, mp, rp, k, replace, s, mn, true, P, mcki);
    DealtAt(pages, root, rows, mc, p, mix, x, replace, mn, nix, s, Top(c, M), ix, P, mcki);
  }

  /** One split after another. */
  lemma BelowTwice(c: Stack, L: nat, c1: Stack, L1: nat, c2: Stack)
    requires SameBelow(c, L, c1, L1) && SameBelow(c1, L1 + 1, c2, L1 + 1) && |c.pg| > L
    ensures SameBelow(c, L + 1, c2, L1 + 1)
  {
    assert c.pg[L + 1..] == c.pg[L..][1..] && c1.pg[L1 + 1..] == c1.pg[L1..][1..];
    assert c.ki[L + 1..] == c.ki[L..][1..] && c1.ki[L1 + 1..] == c1.ki[L1..][1..];
  }

  /** The acting cursor after the nodes were dealt out. */
  function LandedDeep(pages: Pages, mc: Stack, mn: Stack, rp: Id, s: nat): Stack
    requires |mc.pg| == |mc.ki| >= 2 && |mn.pg| == |mn.ki| >= |mc.pg| - 1
  {
    var top := |mc.pg| - 1;
    if mc.ki[top] < s then mc
    else
      var m := mc.(pg := mc.pg[top := rp], ki := mc.ki[top - 1 := mc.ki[top - 1] + 1][top := mc.ki[top] - s]);
      if mn.pg[top - 1] != m.pg[top - 1] && m.ki[top - 1] >= |Nodes(pages, m.pg[top - 1])| then
        m.(pg := mn.pg[..top] + m.pg[top..], ki := mn.ki[..top] + m.ki[top..])
      else m
  }

  lemma LandedDeepIs(pages: Pages, root: Id, lv: seq<seq<int>>, mc: Stack, p: nat, mix: seq<nat>, replace: bool,
                     mn: Stack, nix: seq<nat>, pages': Pages, rp: Id, s: nat)
    requires Linked(pages, root, lv, mc, p, mix, replace, mn, nix) && |mc.pg| == |mc.ki| == |lv| - 1
             && |mn.pg| == |mn.ki| >= |lv| - 2
    requires Nodes(pages', mc.pg[|lv| - 3]) == Nodes(pages, mc.pg[|lv| - 3])
    ensures LandedDeep(pages', mc, mn, rp, s) == Poured(mc, |lv| - 2, mc.pg[|lv| - 2], rp, s, mn)
  {
    hide Joined, Nodes, Distinct, Rows, Traces, Leads;
    var L := |lv| - 2;
    NextChild(pages, lv, mc, mix, mn, nix);
    if mc.ki[L] >= s {
      assert mc.pg[L := rp] == mc.pg[..L] + [rp] && mc.pg[L + 1..] == [] && mc.ki[L + 1..] == [];
      assert mc.ki[L - 1 := mc.ki[L - 1] + 1][L := mc.ki[L] - s] ==
             mc.ki[..L - 1] + [mc.ki[L - 1] + 1] + [mc.ki[L] - s];
      var m := mc.(pg := mc.pg[L := rp], ki := mc.ki[L - 1 := mc.ki[L - 1] + 1][L := mc.ki[L] - s]);
      assert m.pg[L..] == [rp] && m.ki[L..] == [mc.ki[L] - s] && m.pg[L - 1] == mc.pg[L - 1];
    }
  }
}
