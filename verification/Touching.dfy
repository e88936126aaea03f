/**
 mdb_page_touch: a clean page is copied to a new one before it is written.

 The copy gets a new number, which goes into the node of the parent, or into
 the root, and into every tracked cursor that had the old page at this level.
 The parent was touched before, since a cursor is touched from the root down.

 For the rows this is a renaming of one page.  `AllKept` and `AllTraced` say of
 all stacks that they lead where they led once the page on them has its new
 number, and a key is kept under the number of the page it leads to, so it goes
 along.
 */
module Touching {
  import opened Sequences
  import opened Levels
  import opened Separators
  import opened KeyedItems
  import opened Tracking
  import opened Positions

  /** Rows whose pages hold the same nodes under other numbers. */
  ghost predicate Alike(pages: Pages, row: seq<Id>, pages': Pages, row': seq<Id>) {
    |row'| == |row| && forall i :: 0 <= i < |row| ==> Nodes(pages', row'[i]) == Nodes(pages, row[i])
  }

  lemma {:induction false} JoinedAlike(pages: Pages, row: seq<Id>, pages': Pages, row': seq<Id>)
    requires Alike(pages, row, pages', row')
    ensures Joined(pages', row') == Joined(pages, row)
  {
    hide Nodes;
    if |row| > 0 {
      assert Alike(pages, row[1..], pages', row'[1..]) by {
        forall i | 0 <= i < |row[1..]| ensures Nodes(pages', row'[1..][i]) == Nodes(pages, row[1..][i]) {
          assert row'[1..][i] == row'[i + 1] && row[1..][i] == row[i + 1];
        }
      }
      JoinedAlike(pages, row[1..], pages', row'[1..]);
      JoinedFirst(pages, row);
      JoinedFirst(pages', row');
    } else {
      NoPages(pages);
      NoPages(pages');
    }
  }

  lemma StartAlike(pages: Pages, row: seq<Id>, pages': Pages, row': seq<Id>, i: nat)
    requires Alike(pages, row, pages', row') && i <= |row|
    ensures Start(pages', row', i) == Start(pages, row, i)
  {
    hide Joined, Nodes;
    JoinedAlike(pages, row[..i], pages', row'[..i]);
  }

  /** The pages after the copy; P is the parent, and kp the index in it. */
  function CopyPage(pages: Pages, mp: Id, np: Id, P: Id, kp: nat): Pages
    requires kp < |Nodes(pages, P)|
  {
    pages[np := Nodes(pages, mp)][P := Nodes(pages, P)[kp := np]]
  }

  /** One turn of the loop of mdb_page_touch. */
  function Retargeted(m2: Stack, top: nat, mp: Id, np: Id): Stack {
    if |m2.pg| > top && m2.pg[top] == mp then m2.(pg := m2.pg[top := np]) else m2
  }

  ghost predicate SameSizes(pages: Pages, pages': Pages, row: seq<Id>) {
    && (forall i :: 0 <= i <= |row| ==> Start(pages', row, i) == Start(pages, row, i))
    && forall i :: 0 <= i < |row| ==> |Nodes(pages', row[i])| == |Nodes(pages, row[i])|
  }

  /** The rows after page j of row L got a new number. */
  ghost predicate Renumbered(pages: Pages, lv: seq<seq<int>>, L: nat, j: nat, np: Id, pages': Pages,
                             lv': seq<seq<int>>) {
    && L < |lv| - 1 && j < |lv[L]| && lv' == lv[L := lv[L][j := np]]
    && Alike(pages, lv[L], pages', lv'[L])
    && (forall l :: 0 <= l < |lv| - 1 && l != L && l + 1 != L ==> SameOn(pages, pages', lv[l]))
    && (L > 0 ==> Joined(pages', lv[L - 1]) == lv'[L] && SameSizes(pages, pages', lv[L - 1]))
  }

  /** Every stack keeps its trace. */
  lemma RenumberedTrace(pages: Pages, root: Id, lv: seq<seq<int>>, L: nat, j: nat, np: Id, pages': Pages,
                        lv': seq<seq<int>>, c: Stack, ix: seq<nat>)
    requires Renumbered(pages, lv, L, j, np, pages', lv') && Distinct(lv) && Traces(pages, lv, c, ix)
             && |c.pg| == |c.ki| == |lv| - 1
    ensures Traces(pages', lv', Retargeted(c, L, lv[L][j], np), ix)
    ensures Nodes(pages', Retargeted(c, L, lv[L][j], np).pg[|lv| - 2]) == Nodes(pages, c.pg[|lv| - 2])
  {
    hide Joined, Nodes, Distinct, SameOn, Alike;
    var c' := Retargeted(c, L, lv[L][j], np);
    forall l | 0 <= l < |lv| - 1
      ensures Link(pages', lv'[l], ix[l], c'.pg[l], c'.ki[l], ix[l + 1])
              && |Nodes(pages', c'.pg[l])| == |Nodes(pages, c.pg[l])|
              && (l + 1 != L ==> Nodes(pages', c'.pg[l]) == Nodes(pages, c.pg[l]))
    {
      TraceLink(pages, lv, c, ix, l);
      if l == L {
        Places(lv, L, ix[L], L, j);
        StartAlike(pages, lv[L], pages', lv'[L], ix[L]);
        AlikeAt(pages, lv[L], pages', lv'[L], ix[L]);
      } else if l + 1 != L {
        LinkSame(pages, pages', lv[l], ix[l], c.pg[l]);
      }
    }
  }

  lemma AlikeAt(pages: Pages, row: seq<Id>, pages': Pages, row': seq<Id>, i: nat)
    requires Alike(pages, row, pages', row') && i < |row|
    ensures |row'| == |row| && Nodes(pages', row'[i]) == Nodes(pages, row[i])
  {
  }

  /** A page that gets a new number takes its key along. */
  lemma RenumberedKeys(pages: Pages, root: Id, lv: seq<seq<int>>, L: nat, j: nat, np: Id, pages': Pages, root': Id,
                       lv': seq<seq<int>>, keys: Keys, key: int -> int)
    requires Renumbered(pages, lv, L, j, np, pages', lv') && Rows(pages, root, lv) && Rows(pages', root', lv')
             && Distinct(lv) && Fresh(lv, np)
    ensures BelongKept(pages, lv, keys, pages', lv', keys[np := KeyOf(keys, lv[L][j])])
    ensures RightKeys(pages, lv, keys, key) ==> RightKeys(pages', lv', keys[np := KeyOf(keys, lv[L][j])], key)
  {
    hide Joined, Nodes, Distinct, SameOn, Alike, KeyedTo, Sorted, ItemKeys, Rows, KeyOf, AlikeKeyed, BelongKept;
    var keys' := keys[np := KeyOf(keys, lv[L][j])];
    var D := |lv| - 2;
    forall l | 0 <= l < D ensures AlikeKeyed(pages, lv[l], keys, pages', lv'[l], keys') {
      RenumberedRow(pages, root, lv, L, j, np, pages', root', lv', keys, l);
    }
    forall i | 0 <= i < |lv[D]| ensures Start(pages', lv'[D], i) == Start(pages, lv[D], i) {
      RenumberedSize(pages, lv, L, j, np, pages', lv', D, i);
    }
    assert Starts(pages', lv'[D]) == Starts(pages, lv[D]);
    BelongsAlike(pages, lv, keys, pages', lv', keys');
    if RightKeys(pages, lv, keys, key) {
      KeyedAlike(pages, lv, keys, pages', lv', keys', D, Starts(pages, lv[D]), ItemKeys(key, lv[D + 1]));
      assert lv'[D + 1] == lv[D + 1];
    }
  }

  lemma RenumberedRow(pages: Pages, root: Id, lv: seq<seq<int>>, L: nat, j: nat, np: Id, pages': Pages, root': Id,
                      lv': seq<seq<int>>, keys: Keys, l: nat)
    requires Renumbered(pages, lv, L, j, np, pages', lv') && Rows(pages, root, lv) && Rows(pages', root', lv')
             && Distinct(lv) && Fresh(lv, np) && l < |lv| - 1
    requires l < |lv| - 2
    ensures AlikeKeyed(pages, lv[l], keys, pages', lv'[l], keys[np := KeyOf(keys, lv[L][j])])
  {
    hide Joined, Nodes, Distinct, SameOn, Alike;
    var row, row', keys' := lv[l], lv'[l], keys[np := KeyOf(keys, lv[L][j])];
    forall i | 0 <= i < |row|
      ensures Start(pages', row', i) == Start(pages, row, i) && |Nodes(pages', row'[i])| == |Nodes(pages, row[i])|
    {
      RenumberedSize(pages, lv, L, j, np, pages', lv', l, i);
    }
    forall i, k | 0 <= i < |row| && 0 <= k < |Nodes(pages, row[i])| && k < |Nodes(pages', row'[i])|
      ensures KeyOf(keys', Nodes(pages', row'[i])[k]) == KeyOf(keys, Nodes(pages, row[i])[k])
    {
      RenumberedNode(pages, root, lv, L, j, np, pages', root', lv', keys, l, i, k);
    }
  }

  lemma RenumberedNode(pages: Pages, root: Id, lv: seq<seq<int>>, L: nat, j: nat, np: Id, pages': Pages, root': Id,
                       lv': seq<seq<int>>, keys: Keys, l: nat, i: nat, k: nat)
    requires Renumbered(pages, lv, L, j, np, pages', lv') && Rows(pages, root, lv) && Rows(pages', root', lv')
             && Distinct(lv) && Fresh(lv, np) && l < |lv| - 2
    requires i < |lv[l]| && |lv'[l]| == |lv[l]| && k < |Nodes(pages, lv[l][i])| && k < |Nodes(pages', lv'[l][i])|
    ensures KeyOf(keys[np := KeyOf(keys, lv[L][j])], Nodes(pages', lv'[l][i])[k]) ==
            KeyOf(keys, Nodes(pages, lv[l][i])[k])
  {
    hide Joined, Nodes, Distinct, SameOn, Alike, Rows;
    RenumberedSize(pages, lv, L, j, np, pages', lv', l, i);
    RowBelow(pages, root, lv, l);
    RowBelow(pages', root', lv', l);
    NodeAt(pages, lv[l], i, k);
    NodeAt(pages', lv'[l], i, k);
    var g := Start(pages, lv[l], i) + k;
    assert lv[l + 1][g] != np;
    Places(lv, l + 1, g, L, j);
  }

  lemma RenumberedSize(pages: Pages, lv: seq<seq<int>>, L: nat, j: nat, np: Id, pages': Pages, lv': seq<seq<int>>,
                       l: nat, i: nat)
    requires Renumbered(pages, lv, L, j, np, pages', lv') && l < |lv| - 1 && i < |lv[l]|
    ensures |lv'| == |lv| && |lv'[l]| == |lv[l]| && Start(pages', lv'[l], i) == Start(pages, lv[l], i)
            && |Nodes(pages', lv'[l][i])| == |Nodes(pages, lv[l][i])|
  {
    hide Joined, Nodes, SameOn, Alike;
    if l == L {
      StartAlike(pages, lv[l], pages', lv'[l], i);
      AlikeAt(pages, lv[l], pages', lv'[l], i);
    } else if l + 1 != L {
      LinkSame(pages, pages', lv[l], i, lv[l][i]);
    }
  }

  lemma RenumberedKept(pages: Pages, root: Id, lv: seq<seq<int>>, L: nat, j: nat, np: Id, pages': Pages,
                       lv': seq<seq<int>>, page: Id, c: Stack)
    requires Renumbered(pages, lv, L, j, np, pages', lv') && Distinct(lv)
    ensures Kept(pages, lv, page, c, pages', lv', if page == lv[L][j] then np else page, Retargeted(c, L, lv[L][j], np))
  {
    hide Joined, Nodes, Distinct, Traces, SameOn, Alike;
    var mp := lv[L][j];
    var c', page' := Retargeted(c, L, mp, np), if page == mp then np else page;
    if c.init {
      forall ix | Stands(pages, lv, page, c, ix) ensures StandsSame(pages, c, ix, page, pages', lv', page', c') {
        RenumberedTrace(pages, root, lv, L, j, np, pages', lv', c, ix);
        TraceLink(pages, lv, c, ix, |lv| - 2);
        if L < |lv| - 2 {
          Places(lv, |lv| - 2, ix[|lv| - 2], L, j);
        }
        assert Stands(pages', lv', page', c', ix);
      }
    }
  }

  /** A page below the root is copied. */
  lemma CopiedTree(pages: Pages, root: Id, lv: seq<seq<int>>, L: nat, t: nat, kp: nat, j: nat, np: Id)
    requires Tree(pages, root, lv) && Child(pages, lv, L, t, kp, j) && Fresh(lv, np)
    ensures var pages', lv' := CopyPage(pages, lv[L][j], np, lv[L - 1][t], kp), lv[L := lv[L][j := np]];
            Tree(pages', root, lv') && Renumbered(pages, lv, L, j, np, pages', lv')
  {
    hide Joined, Nodes, Distinct;
    var mp, P := lv[L][j], lv[L - 1][t];
    var pages', lv' := CopyPage(pages, mp, np, P, kp), lv[L := lv[L][j := np]];
    Places(lv, L, j, L - 1, t);
    CopiedNodes(pages, mp, np, P, kp);
    forall l, i | 0 <= l < |lv| - 1 && 0 <= i < |lv[l]| && !(l == L - 1 && i == t)
      ensures Nodes(pages', lv[l][i]) == Nodes(pages, lv[l][i])
    {
      Places(lv, l, i, L - 1, t);
    }
    assert Alike(pages, lv[L], pages', lv'[L]);
    forall l | 0 <= l < |lv| - 1 && l + 1 != L ensures SameOn(pages, pages', lv[l]) {
    }
    SameBesides(pages, pages', lv[L - 1], t);
    JoinedEdit(pages, pages', lv[L - 1], t);
    JoinedAt(pages, lv[L - 1], t);
    assert lv[L] == Joined(pages, lv[L - 1]);
    forall l | 0 <= l < |lv| - 1 ensures lv'[l + 1] == Joined(pages', lv'[l]) {
      if l == L {
        JoinedAlike(pages, lv[L], pages', lv'[L]);
      } else if l + 1 != L {
        JoinedSame(pages, pages', lv[l]);
      }
    }
    DistinctRenumbered(lv, L, j, np);
  }

  lemma SameBesides(pages: Pages, pages': Pages, row: seq<Id>, t: nat)
    requires t < |row| && forall i :: 0 <= i < |row| && i != t ==> Nodes(pages', row[i]) == Nodes(pages, row[i])
    ensures SameOn(pages, pages', row[..t]) && SameOn(pages, pages', row[t + 1..])
  {
    hide Nodes;
    var tail := row[t + 1..];
    forall i | 0 <= i < |tail| ensures Nodes(pages', tail[i]) == Nodes(pages, tail[i]) {
      assert tail[i] == row[t + 1 + i];
    }
  }

  lemma CopiedNodes(pages: Pages, mp: Id, np: Id, P: Id, kp: nat)
    requires kp < |Nodes(pages, P)| && mp != P && np != P && np != mp
    ensures var pages' := CopyPage(pages, mp, np, P, kp);
            && Nodes(pages', np) == Nodes(pages, mp) && Nodes(pages', P) == Nodes(pages, P)[kp := np]
            && forall x :: x != np && x != P ==> Nodes(pages', x) == Nodes(pages, x)
  {
  }

  lemma DistinctRenumbered(lv: seq<seq<int>>, L: nat, j: nat, np: Id)
    requires Distinct(lv) && L < |lv| - 1 && j < |lv[L]| && Fresh(lv, np)
    ensures Distinct(lv[L := lv[L][j := np]])
  {
    var lv' := lv[L := lv[L][j := np]];
    forall l, i, m, k | 0 <= l < |lv'| - 1 && 0 <= i < |lv'[l]| && 0 <= m < |lv'| - 1 && 0 <= k < |lv'[m]|
        && lv'[l][i] == lv'[m][k]
      ensures l == m && i == k
    {
      assert (l == L && i == j) || lv'[l][i] == lv[l][i];
      assert (m == L && k == j) || lv'[m][k] == lv[m][k];
    }
  }

  /** The root is copied. */
  lemma CopiedRoot(pages: Pages, root: Id, lv: seq<seq<int>>, np: Id)
    requires Tree(pages, root, lv) && Fresh(lv, np)
    ensures var pages', lv' := pages[np := Nodes(pages, root)], lv[0 := lv[0][0 := np]];
            Tree(pages', np, lv') && Renumbered(pages, lv, 0, 0, np, pages', lv') && lv[0] == [root]
  {
    hide Joined, Nodes, Distinct;
    var pages', lv' := pages[np := Nodes(pages, root)], lv[0 := lv[0][0 := np]];
    NewNodes(pages, np, Nodes(pages, root));
    assert Alike(pages, lv[0], pages', lv'[0]);
    forall l | 0 <= l < |lv| - 1 ensures SameOn(pages, pages', lv[l]) {
    }
    forall l | 0 <= l < |lv| - 1 ensures lv'[l + 1] == Joined(pages', lv'[l]) {
      if l == 0 {
        JoinedAlike(pages, lv[0], pages', lv'[0]);
      } else {
        JoinedSame(pages, pages', lv[l]);
      }
    }
    DistinctRenumbered(lv, 0, 0, np);
  }

  lemma MinRenumbered(pages: Pages, lv: seq<seq<int>>, L: nat, j: nat, np: Id, pages': Pages, lv': seq<seq<int>>,
                      except: set<Id>, except': set<Id>)
    requires Renumbered(pages, lv, L, j, np, pages', lv') && Distinct(lv) && MinKeys(pages, lv, except)
    requires forall id :: id in except ==> if id == lv[L][j] then np in except' else id in except'
    ensures MinKeys(pages', lv', except')
  {
    hide Joined, Nodes, Distinct, SameOn;
    forall l, i | 0 <= l < |lv'| - 1 && 0 <= i < |lv'[l]|
      ensures lv'[l][i] in except' || |Nodes(pages', lv'[l][i])| >= if l == |lv'| - 2 then 1 else 2
    {
      assert lv[l][i] in except || |Nodes(pages, lv[l][i])| >= if l == |lv| - 2 then 1 else 2;
      Places(lv, l, i, L, j);
      if l == L {
        AlikeAt(pages, lv[L], pages', lv'[L], i);
      } else if l + 1 != L {
        assert SameOn(pages, pages', lv[l]);
        LinkSame(pages, pages', lv[l], i, lv[l][i]);
      }
    }
  }

  lemma UnusedRenumbered(lv: seq<seq<int>>, L: nat, j: nat, np: Id, loose: seq<Id>, next: Id)
    requires Unused(lv, loose, next) && L < |lv| - 1 && j < |lv[L]| && np < next && np !in loose
    ensures Unused(lv[L := lv[L][j := np]], loose, next)
  {
    var lv' := lv[L := lv[L][j := np]];
    forall l, i | 0 <= l < |lv'| - 1 && 0 <= i < |lv'[l]|
      ensures lv'[l][i] < next && forall k :: 0 <= k < |loose| ==> loose[k] != lv'[l][i]
    {
      assert (l == L && i == j) || lv'[l][i] == lv[l][i];
    }
  }

  /** The loop of mdb_page_touch over the other cursors. */
  method RetargetAll(db: Database, top: nat, mp: Id, np: Id)
    modifies db`cursors
    ensures |db.cursors| == |old(db.cursors)|
            && forall i :: 0 <= i < |db.cursors| ==> db.cursors[i] == Retargeted(old(db.cursors)[i], top, mp, np)
  {
    var i := 0;
    while i < |db.cursors|
      invariant 0 <= i <= |db.cursors| == |old(db.cursors)|
      invariant forall k :: i <= k < |db.cursors| ==> db.cursors[k] == old(db.cursors)[k]
      invariant forall k :: 0 <= k < i ==> db.cursors[k] == Retargeted(old(db.cursors)[k], top, mp, np)
    {
      db.cursors := db.cursors[i := Retargeted(db.cursors[i], top, mp, np)];
      i := i + 1;
    }
  }

  /** The page of row top on this stack, and where it hangs. */
  lemma PageOf(pages: Pages, root: Id, lv: seq<seq<int>>, mc: Stack, ix: seq<nat>, top: nat)
    requires Tree(pages, root, lv) && TracesTo(pages, lv, mc, ix, top)
    ensures |mc.pg| == |mc.ki| == |lv| - 1 > top && |ix| == |lv| && ix[top] < |lv[top]|
            && lv[top][ix[top]] == mc.pg[top]
    ensures top > 0 ==>
              Child(pages, lv, top, ix[top - 1], mc.ki[top - 1], ix[top]) && lv[top - 1][ix[top - 1]] == mc.pg[top - 1]
    ensures top == 0 ==> mc.pg[0] == root && ix[0] == 0
  {
    hide Joined, Nodes, Distinct;
    if top > 0 {
      assert Link(pages, lv[top - 1], ix[top - 1], mc.pg[top - 1], mc.ki[top - 1], ix[top]);
    }
  }

  lemma RetargetedShape(m2: Stack, top: nat, mp: Id, np: Id)
    ensures var m := Retargeted(m2, top, mp, np);
            |m.pg| == |m2.pg| && m.ki == m2.ki && m.init == m2.init && m.eof == m2.eof && m.del == m2.del
            && forall l :: 0 <= l < |m.pg| ==> m.pg[l] == m2.pg[l] || m.pg[l] == np
  {
  }

  function Renamed(ids: set<Id>, a: Id, b: Id): set<Id> { if a in ids then ids - {a} + {b} else ids }

  ghost predicate KeptOver(pages: Pages, lv: seq<seq<int>>, page: Id, c: Stack, top: nat, mp: Id, np: Id, pages': Pages,
                           lv': seq<seq<int>>) {
    Kept(pages, lv, page, c, pages', lv', if page == mp then np else page, Retargeted(c, top, mp, np))
  }

  /** Every cursor keeps its place when page mp of row top is np from now on. */
  ghost predicate AllKept(pages: Pages, lv: seq<seq<int>>, top: nat, mp: Id, np: Id, pages': Pages,
                          lv': seq<seq<int>>) {
    forall c, page :: KeptOver(pages, lv, page, c, top, mp, np, pages', lv')
  }

  ghost predicate TracedOver(pages: Pages, lv: seq<seq<int>>, c: Stack, ix: seq<nat>, T: nat, top: nat, mp: Id, np: Id,
                             pages': Pages, lv': seq<seq<int>>) {
    TracesTo(pages, lv, c, ix, T) ==> TracesTo(pages', lv', Retargeted(c, top, mp, np), ix, T)
  }

  ghost predicate FullOver(pages: Pages, lv: seq<seq<int>>, c: Stack, ix: seq<nat>, top: nat, mp: Id, np: Id,
                           pages': Pages, lv': seq<seq<int>>) {
    Traces(pages, lv, c, ix) ==>
      Traces(pages', lv', Retargeted(c, top, mp, np), ix)
      && Nodes(pages', Retargeted(c, top, mp, np).pg[|lv| - 2]) == Nodes(pages, c.pg[|lv| - 2])
  }

  ghost predicate AllTraced(pages: Pages, lv: seq<seq<int>>, top: nat, mp: Id, np: Id, pages': Pages,
                            lv': seq<seq<int>>) {
    && (forall c, ix, T :: TracedOver(pages, lv, c, ix, T, top, mp, np, pages', lv'))
    && (forall c, ix :: FullOver(pages, lv, c, ix, top, mp, np, pages', lv'))
    && |lv'| == |lv| && forall l :: 0 <= l < |lv| ==> |lv'[l]| == |lv[l]|
  }

  lemma NothingCopied(pages: Pages, lv: seq<seq<int>>, top: nat, mp: Id)
    ensures AllKept(pages, lv, top, mp, mp, pages, lv) && AllTraced(pages, lv, top, mp, mp, pages, lv)
            && forall c :: Retargeted(c, top, mp, mp) == c
  {
    hide Kept, TracesTo, Traces, Nodes, Retargeted;
    forall c ensures Retargeted(c, top, mp, mp) == c {
      RetargetedNone(c, top, mp);
    }
    forall c, page ensures KeptOver(pages, lv, page, c, top, mp, mp, pages, lv) {
      RetargetedNone(c, top, mp);
      KeptStill(pages, lv, page, c);
    }
    forall c, ix, T ensures TracedOver(pages, lv, c, ix, T, top, mp, mp, pages, lv) {
      RetargetedNone(c, top, mp);
    }
    forall c, ix ensures FullOver(pages, lv, c, ix, top, mp, mp, pages, lv) {
      RetargetedNone(c, top, mp);
    }
  }

  lemma RetargetedNone(c: Stack, top: nat, mp: Id)
    ensures Retargeted(c, top, mp, mp) == c
  {
  }

  /** The same for a stack that is followed down to row T only. */
  lemma RenumberedPart(pages: Pages, lv: seq<seq<int>>, L: nat, j: nat, np: Id, pages': Pages, lv': seq<seq<int>>,
                       c: Stack, ix: seq<nat>, T: nat)
    requires Renumbered(pages, lv, L, j, np, pages', lv') && Distinct(lv) && TracesTo(pages, lv, c, ix, T)
    ensures TracesTo(pages', lv', Retargeted(c, L, lv[L][j], np), ix, T)
  {
    hide Joined, Nodes, Distinct, SameOn, Alike;
    var c' := Retargeted(c, L, lv[L][j], np);
    forall l | 0 <= l < T
      ensures Link(pages', lv'[l], ix[l], c'.pg[l], c'.ki[l], ix[l + 1]) && c'.ki[l] < |Nodes(pages', c'.pg[l])|
    {
      assert Link(pages, lv[l], ix[l], c.pg[l], c.ki[l], ix[l + 1]);
      if l == L {
        Places(lv, L, ix[L], L, j);
        StartAlike(pages, lv[L], pages', lv'[L], ix[L]);
        AlikeAt(pages, lv[L], pages', lv'[L], ix[L]);
      } else if l + 1 != L {
        LinkSame(pages, pages', lv[l], ix[l], c.pg[l]);
      }
    }
    if T == L {
      Places(lv, L, ix[L], L, j);
    }
  }

  /** Everything about giving page j of row L a new number. */
  lemma RenumberedAll(pages: Pages, lv: seq<seq<int>>, L: nat, j: nat, np: Id, pages': Pages, lv': seq<seq<int>>,
                      except: set<Id>)
    requires Renumbered(pages, lv, L, j, np, pages', lv') && Distinct(lv) && MinKeys(pages, lv, except) && Fresh(lv, np)
    ensures MinKeys(pages', lv', Renamed(except, lv[L][j], np))
    ensures AllKept(pages, lv, L, lv[L][j], np, pages', lv') && AllTraced(pages, lv, L, lv[L][j], np, pages', lv')
  {
    hide Joined, Nodes, Distinct, SameOn, Traces, Kept, MinKeys, TracesTo;
    MinRenumbered(pages, lv, L, j, np, pages', lv', except, Renamed(except, lv[L][j], np));
    forall c, page ensures KeptOver(pages, lv, page, c, L, lv[L][j], np, pages', lv') {
      RenumberedKept(pages, 0, lv, L, j, np, pages', lv', page, c);
    }
    forall c, ix, T ensures TracedOver(pages, lv, c, ix, T, L, lv[L][j], np, pages', lv') {
      if TracesTo(pages, lv, c, ix, T) {
        RenumberedPart(pages, lv, L, j, np, pages', lv', c, ix, T);
      }
    }
    forall c, ix ensures FullOver(pages, lv, c, ix, L, lv[L][j], np, pages', lv') {
      if Traces(pages, lv, c, ix) {
        TraceShape(pages, lv, c, ix);
        RenumberedTrace(pages, 0, lv, L, j, np, pages', lv', c, ix);
      }
    }
  }

  lemma TraceShape(pages: Pages, lv: seq<seq<int>>, c: Stack, ix: seq<nat>)
    requires Traces(pages, lv, c, ix)
    ensures |c.pg| == |c.ki| == |lv| - 1 >= 1 && |ix| == |lv|
  {
  }

  /** A page in no row may be cleared. */
  lemma ClearedAside(pages: Pages, root: Id, lv: seq<seq<int>>, except: set<Id>, id: Id)
    requires Tree(pages, root, lv) && MinKeys(pages, lv, except) && Fresh(lv, id)
    ensures var pages' := pages[id := []];
            && Tree(pages', root, lv) && MinKeys(pages', lv, except)
            && (forall c, page :: Kept(pages, lv, page, c, pages', lv, page, c))
            && (forall c, ix, T :: TracesTo(pages, lv, c, ix, T) ==> TracesTo(pages', lv, c, ix, T))
            && (forall c, ix :: Traces(pages, lv, c, ix) ==>
                  Traces(pages', lv, c, ix) && Nodes(pages', c.pg[|lv| - 2]) == Nodes(pages, c.pg[|lv| - 2]))
            && forall y :: y != id ==> Nodes(pages', y) == Nodes(pages, y)
  {
    hide Joined, Nodes, Distinct;
    var pages' := pages[id := []];
    NewNodes(pages, id, []);
    forall l | 0 <= l < |lv| - 1 ensures SameOn(pages, pages', lv[l]) && Joined(pages', lv[l]) == Joined(pages, lv[l]) {
      JoinedSame(pages, pages', lv[l]);
    }
    forall c, page ensures Kept(pages, lv, page, c, pages', lv, page, c) {
      AsideKept(pages, pages', lv, page, c);
    }
    forall c, ix, T | TracesTo(pages, lv, c, ix, T) ensures TracesTo(pages', lv, c, ix, T) {
      AsidePart(pages, pages', lv, c, ix, T);
    }
    forall c, ix | Traces(pages, lv, c, ix)
      ensures Traces(pages', lv, c, ix) && Nodes(pages', c.pg[|lv| - 2]) == Nodes(pages, c.pg[|lv| - 2])
    {
      SameTraces(pages, pages', lv, c, ix);
    }
  }

  lemma AsidePart(pages: Pages, pages': Pages, lv: seq<seq<int>>, c: Stack, ix: seq<nat>, T: nat)
    requires TracesTo(pages, lv, c, ix, T) && forall l :: 0 <= l < |lv| - 1 ==> SameOn(pages, pages', lv[l])
    ensures TracesTo(pages', lv, c, ix, T)
  {
    hide Joined, Nodes, SameOn;
    forall l | 0 <= l < T
      ensures Link(pages', lv[l], ix[l], c.pg[l], c.ki[l], ix[l + 1]) && c.ki[l] < |Nodes(pages', c.pg[l])|
    {
      assert Link(pages, lv[l], ix[l], c.pg[l], c.ki[l], ix[l + 1]);
      LinkSame(pages, pages', lv[l], ix[l], c.pg[l]);
    }
  }

  lemma SameTraces(pages: Pages, pages': Pages, lv: seq<seq<int>>, c: Stack, ix: seq<nat>)
    requires Traces(pages, lv, c, ix) && forall l :: 0 <= l < |lv| - 1 ==> SameOn(pages, pages', lv[l])
    ensures Traces(pages', lv, c, ix) && Nodes(pages', c.pg[|lv| - 2]) == Nodes(pages, c.pg[|lv| - 2])
  {
    hide Joined, Nodes, SameOn;
    forall l | 0 <= l < |lv| - 1
      ensures Link(pages', lv[l], ix[l], c.pg[l], c.ki[l], ix[l + 1]) && Nodes(pages', c.pg[l]) == Nodes(pages, c.pg[l])
    {
      TraceLink(pages, lv, c, ix, l);
      LinkSame(pages, pages', lv[l], ix[l], c.pg[l]);
    }
  }

  lemma AsideKept(pages: Pages, pages': Pages, lv: seq<seq<int>>, page: Id, c: Stack)
    requires forall l :: 0 <= l < |lv| - 1 ==> SameOn(pages, pages', lv[l])
    ensures Kept(pages, lv, page, c, pages', lv, page, c)
  {
    hide Nodes, Traces, SameOn;
    if c.init {
      forall ix | Stands(pages, lv, page, c, ix) ensures StandsSame(pages, c, ix, page, pages', lv, page, c) {
        SameTraces(pages, pages', lv, c, ix);
        assert Stands(pages', lv, page, c, ix);
      }
    }
  }

  lemma AllKeptFrom(pages: Pages, pages1: Pages, lv: seq<seq<int>>, top: nat, mp: Id, np: Id, pages': Pages,
                    lv': seq<seq<int>>)
    requires (forall c, page :: Kept(pages, lv, page, c, pages1, lv, page, c))
             && AllKept(pages1, lv, top, mp, np, pages', lv')
    requires (forall c, ix, T :: TracesTo(pages, lv, c, ix, T) ==> TracesTo(pages1, lv, c, ix, T))
             && AllTraced(pages1, lv, top, mp, np, pages', lv')
    requires forall c, ix :: Traces(pages, lv, c, ix) ==>
               Traces(pages1, lv, c, ix) && Nodes(pages1, c.pg[|lv| - 2]) == Nodes(pages, c.pg[|lv| - 2])
    ensures AllKept(pages, lv, top, mp, np, pages', lv') && AllTraced(pages, lv, top, mp, np, pages', lv')
  {
    hide Kept, TracesTo, Nodes;
    forall c, ix, T ensures TracedOver(pages, lv, c, ix, T, top, mp, np, pages', lv') {
      assert TracedOver(pages1, lv, c, ix, T, top, mp, np, pages', lv');
    }
    forall c, ix ensures FullOver(pages, lv, c, ix, top, mp, np, pages', lv') {
      assert FullOver(pages1, lv, c, ix, top, mp, np, pages', lv');
    }
    forall c, page ensures KeptOver(pages, lv, page, c, top, mp, np, pages', lv') {
      assert KeptOver(pages1, lv, page, c, top, mp, np, pages', lv');
      KeptTwice(pages, lv, page, c, pages1, lv, page, c, pages', lv', if page == mp then np
                                                                      else page, Retargeted(c, top, mp, np));
    }
  }

  /** A page in no row does not matter to the keys. */
  lemma ClearedKeys(pages: Pages, root: Id, lv: seq<seq<int>>, keys: Keys, key: int -> int, id: Id)
    requires Rows(pages, root, lv) && Fresh(lv, id)
    ensures RightKeys(pages, lv, keys, key) ==> RightKeys(pages[id := []], lv, keys, key)
    ensures BelongKept(pages, lv, keys, pages[id := []], lv, keys)
  {
    hide Joined, Nodes, KeyOf, KeyedTo, Sorted, AlikeKeyed, BelongKept;
    forall l | 0 <= l < |lv| - 2 ensures AlikeKeyed(pages, lv[l], keys, pages[id := []], lv[l], keys) {
      ClearedRow(pages, lv, keys, id, l);
    }
    BelongsAlike(pages, lv, keys, pages[id := []], lv, keys);
    if RightKeys(pages, lv, keys, key) {
      NewNodes(pages, id, []);
      var D := |lv| - 2;
      forall l | 0 <= l <= D ensures SameOn(pages, pages[id := []], lv[l]) && SameKeys(keys, keys, lv[l]) {
      }
      KeyedSame(pages, root, lv, pages[id := []], lv, D, Starts(pages, lv[D]), keys, keys, ItemKeys(key, lv[D + 1]));
      UpSame(pages, pages[id := []], lv[D], []);
    }
  }

  lemma ClearedRow(pages: Pages, lv: seq<seq<int>>, keys: Keys, id: Id, l: nat)
    requires Fresh(lv, id) && l < |lv| - 1
    ensures AlikeKeyed(pages, lv[l], keys, pages[id := []], lv[l], keys)
  {
    hide Joined, Nodes, KeyOf;
    NewNodes(pages, id, []);
    forall i | 0 <= i < |lv[l]|
      ensures Start(pages[id := []], lv[l], i) == Start(pages, lv[l], i)
              && Nodes(pages[id := []], lv[l][i]) == Nodes(pages, lv[l][i])
    {
      LinkSame(pages, pages[id := []], lv[l], i, lv[l][i]);
    }
  }

  lemma CopiedSizes(pages: Pages, mp: Id, np: Id, P: Id, kp: nat)
    requires kp < |Nodes(pages, P)| && mp != P && np != P && np != mp
    ensures var pages' := CopyPage(pages, mp, np, P, kp);
            Nodes(pages', np) == Nodes(pages, mp) && forall y :: y != np ==> |Nodes(pages', y)| == |Nodes(pages, y)|
  {
  }

  /** Nothing but page numbers in one row has changed. */
  ghost predicate RowRenumbered(lv: seq<seq<int>>, lv': seq<seq<int>>, top: nat) {
    |lv'| == |lv| > top && |lv'[top]| == |lv[top]| && forall l :: 0 <= l < |lv| && l != top ==> lv'[l] == lv[l]
  }

  lemma RowSelf(lv: seq<seq<int>>, top: nat)
    requires top < |lv|
    ensures RowRenumbered(lv, lv, top)
  {
  }

  /** The copy of the page of row top on mc takes its place as page np. */
  method Renumber(db: Database, mc: Stack, top: nat, np: Id, ghost ix: seq<nat>, ghost except: set<Id>)
    requires db.Ok(except) && db.Spare() && db.Reserved(np) && db.depth == |mc.pg|
             && TracesTo(db.pages, db.lv, mc, ix, top) && top < db.depth
    requires db.Intact() && db.first <= np && (top > 0 ==> db.first <= mc.pg[top - 1])
    modifies db`pages, db`root, db`lv, db`keys
    ensures Tree(db.pages, db.root, db.lv) && |db.lv| == |old(db.lv)|
            && MinKeys(db.pages, db.lv, Renamed(except, mc.pg[top], np)) && db.Spare()
    ensures db.lv[|db.lv| - 1] == old(db.lv)[|db.lv| - 1] && mc.pg[top] != np
    ensures RowRenumbered(old(db.lv), db.lv, top)
    ensures AllKept(old(db.pages), old(db.lv), top, mc.pg[top], np, db.pages, db.lv)
    ensures AllTraced(old(db.pages), old(db.lv), top, mc.pg[top], np, db.pages, db.lv)
    ensures Nodes(db.pages, np) == Nodes(old(db.pages), mc.pg[top])
            && forall y :: y != np ==> |Nodes(db.pages, y)| == |Nodes(old(db.pages), y)|
    ensures (old(db.InOrder()) ==> db.InOrder()) && db.Intact()
    ensures BelongKept(old(db.pages), old(db.lv), old(db.keys), db.pages, db.lv, db.keys)
  {
    hide Joined, Nodes, Distinct, Rows, Traces, TracesTo, MinKeys, Kept, Unused, Renumbered, AllKept, AllTraced,
         RightKeys, KeyOf, BelongKept;
    PageOf(db.pages, db.root, db.lv, mc, ix, top);
    ghost var pages1, root0, lv0, keys0, j := db.pages, db.root, db.lv, db.keys, ix[top];
    var mp := mc.pg[top];
    if top > 0 {
      CopiedTree(pages1, root0, lv0, top, ix[top - 1], mc.ki[top - 1], j, np);
      var parent := mc.pg[top - 1];
      Places(lv0, top, j, top - 1, ix[top - 1]);
      CopiedSizes(pages1, mp, np, parent, mc.ki[top - 1]);
      var nodes := Nodes(db.pages, parent)[mc.ki[top - 1] := np];
      ApartEdit(db.base, db.first, db.pages, db.loose, db.next, db.dirty, np, Nodes(db.pages, mp));
      db.pages := db.pages[np := Nodes(db.pages, mp)];
      ApartEdit(db.base, db.first, db.pages, db.loose, db.next, db.dirty, parent, nodes);
      db.pages := db.pages[parent := nodes];
    } else {
      CopiedRoot(pages1, root0, lv0, np);
      NewNodes(pages1, np, Nodes(pages1, mp));
      ApartEdit(db.base, db.first, db.pages, db.loose, db.next, db.dirty, np, Nodes(db.pages, mp));
      db.pages := db.pages[np := Nodes(db.pages, mp)];
      db.root := np;
    }
    db.lv := db.lv[top := db.lv[top][j := np]];
    db.keys := db.keys[np := KeyOf(db.keys, mp)];
    RenumberedKeys(pages1, root0, lv0, top, j, np, db.pages, db.root, db.lv, keys0, db.key);
    RenumberedAll(pages1, lv0, top, j, np, db.pages, db.lv, except);
    UnusedRenumbered(lv0, top, j, np, db.loose, db.next);
  }

  /** mdb_page_touch of the page of row top on the stack mc. */
  method Touch(db: Database, mc: Stack, top: nat, ghost ix: seq<nat>, ghost except: set<Id>) returns (mc': Stack)
    requires db.Ok(except) && db.Spare() && db.depth == |mc.pg| && TracesTo(db.pages, db.lv, mc, ix, top)
             && top < db.depth
    requires db.Intact() && (top > 0 ==> db.first <= mc.pg[top - 1])
    modifies db
    ensures |mc'.pg| == |mc.pg| && mc' == mc.(pg := mc.pg[top := mc'.pg[top]]) && mc'.pg[top] in db.dirty
            && old(db.dirty) <= db.dirty && db.next >= old(db.next)
    ensures db.Ok(Renamed(except, mc.pg[top], mc'.pg[top]))
    ensures db.Spare() && db.depth == old(db.depth) && db.Items() == old(db.Items())
    ensures |db.cursors| == |old(db.cursors)|
            && forall i :: 0 <= i < |db.cursors| ==>
                 db.cursors[i] == Retargeted(old(db.cursors)[i], top, mc.pg[top], mc'.pg[top])
    ensures RowRenumbered(old(db.lv), db.lv, top)
    ensures AllKept(old(db.pages), old(db.lv), top, mc.pg[top], mc'.pg[top], db.pages, db.lv)
    ensures AllTraced(old(db.pages), old(db.lv), top, mc.pg[top], mc'.pg[top], db.pages, db.lv)
    ensures Nodes(db.pages, mc'.pg[top]) == Nodes(old(db.pages), mc.pg[top])
    ensures forall y :: y != mc'.pg[top] ==> |Nodes(db.pages, y)| == |Nodes(old(db.pages), y)|
    ensures old(db.InOrder()) ==> db.InOrder()
    ensures db.Intact() && db.first <= mc'.pg[top]
    ensures CleanKept(old(db.pages), old(db.dirty), old(db.next), db.pages, db.dirty)
    ensures BelongKept(old(db.pages), old(db.lv), old(db.keys), db.pages, db.lv, db.keys)
  {
    hide Joined, Nodes, Distinct, Rows, Traces, TracesTo, MinKeys, Kept, Unused, AllKept, AllTraced, RightKeys, KeyOf,
         LeafBelongs, Apart, CleanKept, RowRenumbered;
    mc' := mc;
    ghost var pages0, loose0, next0, dirty0 := db.pages, db.loose, db.next, db.dirty;
    PageOf(db.pages, db.root, db.lv, mc, ix, top);
    var mp := mc.pg[top];
    if mp in db.dirty {
      DirtyNew(db.base, db.first, db.pages, db.loose, db.next, db.dirty);
      ApartKeeps(db.base, db.first, pages0, loose0, next0, dirty0, db.pages, db.loose, db.next, db.dirty);
      RowSelf(db.lv, top);
      NothingCopied(db.pages, db.lv, top, mp);
      BelongKeptSelf(db.pages, db.lv, db.keys);
      assert Renamed(except, mp, mp) == except;
      return;
    }
    ghost var lv0, cs0 := db.lv, db.cursors;
    var np := db.NewPage();
    ClearedAside(pages0, db.root, lv0, except, np);
    ghost var pages1 := db.pages;
    ClearedKeys(pages0, db.root, lv0, db.keys, db.key, np);
    Renumber(db, mc, top, np, ix, except);
    AllKeptFrom(pages0, pages1, lv0, top, mp, np, db.pages, db.lv);
    mc' := mc.(pg := mc.pg[top := np]);
    RetargetAll(db, top, mp, np);
    forall i | 0 <= i < |cs0| ensures |db.cursors[i].pg| == |db.cursors[i].ki| {
      RetargetedShape(cs0[i], top, mp, np);
    }
    ApartKeeps(db.base, db.first, pages0, loose0, next0, dirty0, db.pages, db.loose, db.next, db.dirty);
  }

  // -------------------------------------------------------- mdb_cursor_touch

  /** A page number that no row has. */
  lemma KeptAt(p0: Pages, lv0: seq<seq<int>>, c: Stack, q: nat, page: Id, p1: Pages, lv1: seq<seq<int>>, c': Stack)
    requires At(p0, lv0, c, q) && c.init && Kept(p0, lv0, page, c, p1, lv1, page, c') && Fresh(lv1, page)
    ensures |c.pg| == |c.ki| > 0 && |c'.pg| == |c'.ki| > 0 && At(p1, lv1, c', q) && (Inside(p0, c) ==> Inside(p1, c'))
    ensures c'.init == c.init && c'.eof == c.eof && c'.del == c.del
  {
    hide Joined, Nodes, Traces, Inside;
    var ix :| AtIx(p0, lv0, c, q, ix);
    assert Stands(p0, lv0, page, c, ix);
    assert StandsSame(p0, c, ix, page, p1, lv1, page, c');
    var ix' :| Stands(p1, lv1, page, c', ix') && ix'[|lv1| - 1] == ix[|ix| - 1] && (Inside(p0, c) ==> Inside(p1, c'));
    TraceLink(p1, lv1, c', ix', |lv1| - 2);
    assert AtIx(p1, lv1, c', q, ix');
  }

  lemma TouchedPlaced(p0: Pages, lv0: seq<seq<int>>, cs0: seq<Stack>, places: seq<nat>, top: nat, mp: Id, np: Id,
                      loose: seq<Id>, next: Id, p1: Pages, lv1: seq<seq<int>>, cs1: seq<Stack>)
    requires Placed(p0, lv0, cs0, places) && AllKept(p0, lv0, top, mp, np, p1, lv1) && Unused(lv1, loose, next)
             && mp < next
    requires |cs1| == |cs0| && forall i :: 0 <= i < |cs0| ==> cs1[i] == Retargeted(cs0[i], top, mp, np)
    ensures Placed(p1, lv1, cs1, places)
    ensures forall i :: 0 <= i < |cs0| && cs0[i].init ==>
              |cs0[i].pg| == |cs0[i].ki| > 0 && |cs1[i].pg| == |cs1[i].ki| > 0
              && (Inside(p0, cs0[i]) ==> Inside(p1, cs1[i]))
  {
    hide Joined, Nodes, Traces, Inside, At, Kept, Retargeted;
    forall i | 0 <= i < |cs0| ensures cs1[i].init == cs0[i].init {
      RetargetedShape(cs0[i], top, mp, np);
    }
    forall i | 0 <= i < |cs0| && cs0[i].init
      ensures At(p1, lv1, cs1[i], places[i]) && |cs0[i].pg| == |cs0[i].ki| > 0 && |cs1[i].pg| == |cs1[i].ki| > 0
              && (Inside(p0, cs0[i]) ==> Inside(p1, cs1[i]))
    {
      assert KeptOver(p0, lv0, next, cs0[i], top, mp, np, p1, lv1);
      KeptAt(p0, lv0, cs0[i], places[i], next, p1, lv1, cs1[i]);
    }
  }

  predicate FlagsKept(c: Stack, c': Stack) {
    |c'.pg| == |c.pg| && c'.ki == c.ki && c'.init == c.init && c'.eof == c.eof && c'.del == c.del
  }

  /** mdb_cursor_touch: the whole path of the cursor becomes writable. */
  method CursorTouch(db: Database, me: nat, ghost places: seq<nat>, ghost ix: seq<nat>)
    requires db.Ok({}) && db.Spare() && me < |db.cursors| && Traces(db.pages, db.lv, db.cursors[me], ix)
    requires Placed(db.pages, db.lv, db.cursors[me := db.cursors[me].(init := false)], places)
    requires db.Intact()
    modifies db
    ensures db.depth == old(db.depth) && db.Ok({}) && db.Spare() && db.Items() == old(db.Items())
            && |db.cursors| == |old(db.cursors)|
    ensures Placed(db.pages, db.lv, db.cursors[me := db.cursors[me].(init := false)], places)
    ensures |db.lv| == |old(db.lv)| && forall l :: 0 <= l < |db.lv| ==> |db.lv[l]| == |old(db.lv)[l]|
    ensures forall i :: 0 <= i < |db.cursors| ==> FlagsKept(old(db.cursors)[i], db.cursors[i])
    ensures Traces(db.pages, db.lv, db.cursors[me], ix) && |db.cursors[me].pg| == |old(db.cursors)[me].pg| == db.depth
    ensures Nodes(db.pages, db.cursors[me].pg[db.depth - 1]) ==
            Nodes(old(db.pages), old(db.cursors)[me].pg[db.depth - 1])
    ensures (old(db.InOrder()) ==> db.InOrder()) && forall id :: id in db.cursors[me].pg ==> id in db.dirty
    ensures db.Writable(db.cursors[me], db.depth)
    ensures CleanKept(old(db.pages), old(db.dirty), old(db.next), db.pages, db.dirty)
    ensures BelongKept(old(db.pages), old(db.lv), old(db.keys), db.pages, db.lv, db.keys)
  {
    hide Joined, Nodes, Distinct, Rows, Traces, TracesTo, MinKeys, Kept, Unused, AllKept, AllTraced, At, Inside,
         RightKeys, LeafBelongs, Apart, CleanKept, RowRenumbered, BelongKept;
    ghost var pages0, loose0, next0, dirty0 := db.pages, db.loose, db.next, db.dirty;
    BelongKeptSelf(db.pages, db.lv, db.keys);
    TraceShape(db.pages, db.lv, db.cursors[me], ix);
    var top := 0;
    while top < db.depth
      invariant 0 <= top <= db.depth && db.depth == old(db.depth) >= 1
      invariant db.Ok({}) && db.Spare() && |db.cursors| == |old(db.cursors)| && db.Items() == old(db.Items())
      invariant Placed(db.pages, db.lv, db.cursors[me := db.cursors[me].(init := false)], places)
      invariant Traces(db.pages, db.lv, db.cursors[me], ix)
                && |db.cursors[me].pg| == |db.cursors[me].ki| == |old(db.cursors)[me].pg| == db.depth
      invariant Nodes(db.pages, db.cursors[me].pg[db.depth - 1]) ==
                Nodes(old(db.pages), old(db.cursors)[me].pg[db.depth - 1])
      invariant |db.lv| == |old(db.lv)| && forall l :: 0 <= l < |db.lv| ==> |db.lv[l]| == |old(db.lv)[l]|
      invariant forall i :: 0 <= i < |db.cursors| ==> FlagsKept(old(db.cursors)[i], db.cursors[i])
      invariant BelongKept(old(db.pages), old(db.lv), old(db.keys), db.pages, db.lv, db.keys)
      invariant (old(db.InOrder()) ==> db.InOrder()) && forall l :: 0 <= l < top ==> db.cursors[me].pg[l] in db.dirty
      invariant db.Writable(db.cursors[me], top)
      decreases db.depth - top
    {
      ghost var p0, lv0, cs0, keys0 := db.pages, db.lv, db.cursors, db.keys;
      var mc := db.cursors[me];
      PartTrace(db.pages, db.lv, mc, ix, top);
      PageOf(db.pages, db.root, db.lv, mc, ix, top);
      BelowNext(lv0, db.loose, db.next, top, ix[top]);
      var mc' := Touch(db, mc, top, ix, {});
      OthersRetargeted(cs0, me, top, mc.pg[top], mc'.pg[top], db.cursors);
      TouchedPlaced(p0, lv0, cs0[me := cs0[me].(init := false)], places, top, mc.pg[top], mc'.pg[top], db.loose,
                    db.next,
                    db.pages, db.lv, db.cursors[me := db.cursors[me].(init := false)]);
      FullOn(p0, lv0, mc, ix, top, mc.pg[top], mc'.pg[top], db.pages, db.lv);
      forall i | 0 <= i < |db.cursors| ensures FlagsKept(cs0[i], db.cursors[i]) {
        RetargetedShape(cs0[i], top, mc.pg[top], mc'.pg[top]);
      }
      assert Renamed({}, mc.pg[top], mc'.pg[top]) == {};
      BelongTwice(old(db.pages), old(db.lv), old(db.keys), p0, lv0, keys0, db.pages, db.lv, db.keys);
      top := top + 1;
    }
    ApartKeeps(db.base, db.first, pages0, loose0, next0, dirty0, db.pages, db.loose, db.next, db.dirty);
  }

  lemma BelowNext(lv: seq<seq<int>>, loose: seq<Id>, next: Id, l: nat, i: nat)
    requires Unused(lv, loose, next) && l < |lv| - 1 && i < |lv[l]|
    ensures lv[l][i] < next
  {
  }

  lemma OthersRetargeted(cs0: seq<Stack>, me: nat, top: nat, mp: Id, np: Id, cs1: seq<Stack>)
    requires |cs1| == |cs0| && me < |cs0| && forall i :: 0 <= i < |cs0| ==> cs1[i] == Retargeted(cs0[i], top, mp, np)
    ensures var a, b := cs0[me := cs0[me].(init := false)], cs1[me := cs1[me].(init := false)];
            forall i :: 0 <= i < |cs0| ==> b[i] == Retargeted(a[i], top, mp, np)
  {
  }

  lemma TracedOn(p0: Pages, lv0: seq<seq<int>>, c: Stack, ix: seq<nat>, T: nat, top: nat, mp: Id, np: Id, p1: Pages,
                 lv1: seq<seq<int>>)
    requires AllTraced(p0, lv0, top, mp, np, p1, lv1) && TracesTo(p0, lv0, c, ix, T)
    ensures TracesTo(p1, lv1, Retargeted(c, top, mp, np), ix, T)
  {
    hide TracesTo, Retargeted;
    assert TracedOver(p0, lv0, c, ix, T, top, mp, np, p1, lv1);
  }

  lemma FullOn(p0: Pages, lv0: seq<seq<int>>, c: Stack, ix: seq<nat>, top: nat, mp: Id, np: Id, p1: Pages,
               lv1: seq<seq<int>>)
    requires AllTraced(p0, lv0, top, mp, np, p1, lv1) && Traces(p0, lv0, c, ix)
    ensures Traces(p1, lv1, Retargeted(c, top, mp, np), ix) && |lv0| >= 2
            && |c.pg| == |Retargeted(c, top, mp, np).pg| == |lv0| - 1
    ensures Nodes(p1, Retargeted(c, top, mp, np).pg[|lv0| - 2]) == Nodes(p0, c.pg[|lv0| - 2])
    ensures |lv1| == |lv0| && forall l :: 0 <= l < |lv0| ==> |lv1[l]| == |lv0[l]|
  {
    hide Nodes;
    assert FullOver(p0, lv0, c, ix, top, mp, np, p1, lv1);
  }
}
