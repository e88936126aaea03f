/**
 A B+tree of page numbers seen level by level.

 A page holds nodes: child page numbers in a branch, keys in a leaf.  Row 0 is
 the root alone, and each row is what the pages of the row above hold, read
 from left to right; the last row is the sequence of items.
 */
module Levels {
  import opened Sequences

  type Id = int

  type Pages = map<Id, seq<int>>

  /** mdb_page_get, and the nodes of the page. */
  function Nodes(pages: Pages, id: Id): seq<int> { if id in pages then pages[id] else [] }

  ghost function Joined(pages: Pages, row: seq<Id>): seq<int> {
    if |row| == 0 then [] else Nodes(pages, row[0]) + Joined(pages, row[1..])
  }

  /** Where the nodes of page j begin in the row below. */
  ghost function Start(pages: Pages, row: seq<Id>, j: nat): nat
    requires j <= |row|
  {
    |Joined(pages, row[..j])|
  }

  lemma {:induction false} JoinedSplit(pages: Pages, row: seq<Id>, j: nat)
    requires j <= |row|
    ensures Joined(pages, row) == Joined(pages, row[..j]) + Joined(pages, row[j..])
  {
    if j == 0 {
      assert row[0..] == row && row[..0] == [];
    } else {
      JoinedSplit(pages, row[1..], j - 1);
      assert row[1..][..j - 1] == row[..j][1..];
      assert row[1..][j - 1..] == row[j..];
    }
  }

  lemma JoinedFirst(pages: Pages, row: seq<Id>)
    requires row != []
    ensures Joined(pages, row) == Nodes(pages, row[0]) + Joined(pages, row[1..])
    ensures |row| == 1 ==> Joined(pages, row) == Nodes(pages, row[0])
  {
    hide Nodes;
  }

  lemma Regroup(a: seq<int>, b: seq<int>, c: seq<int>)
    ensures a + (b + c) == a + b + c
  {
  }

  lemma JoinedAt(pages: Pages, row: seq<Id>, j: nat)
    requires j < |row|
    ensures Joined(pages, row) == Joined(pages, row[..j]) + Nodes(pages, row[j]) + Joined(pages, row[j + 1..])
    ensures Start(pages, row, j + 1) == Start(pages, row, j) + |Nodes(pages, row[j])| <= |Joined(pages, row)|
  {
    hide Nodes, Joined;
    JoinedSplit(pages, row, j);
    assert row[j..][1..] == row[j + 1..];
    JoinedFirst(pages, row[j..]);
    Regroup(Joined(pages, row[..j]), Nodes(pages, row[j]), Joined(pages, row[j + 1..]));
    JoinedSplit(pages, row[..j + 1], j);
    assert row[..j + 1][..j] == row[..j] && row[..j + 1][j..] == [row[j]];
    JoinedFirst(pages, [row[j]]);
  }

  /** Node k of page j in the row below. */
  lemma NodeAt(pages: Pages, row: seq<Id>, j: nat, k: nat)
    requires j < |row| && k < |Nodes(pages, row[j])|
    ensures Start(pages, row, j) + k < |Joined(pages, row)|
    ensures Joined(pages, row)[Start(pages, row, j) + k] == Nodes(pages, row[j])[k]
  {
    JoinedAt(pages, row, j);
  }

  lemma StartZero(pages: Pages, row: seq<Id>)
    ensures Start(pages, row, 0) == 0
  {
    assert row[..0] == [];
  }

  ghost predicate SameOn(pages: Pages, pages': Pages, row: seq<Id>) {
    forall i :: 0 <= i < |row| ==> Nodes(pages', row[i]) == Nodes(pages, row[i])
  }

  lemma {:induction false} JoinedSame(pages: Pages, pages': Pages, row: seq<Id>)
    requires SameOn(pages, pages', row)
    ensures Joined(pages', row) == Joined(pages, row)
  {
    if |row| > 0 {
      assert SameOn(pages, pages', row[1..]) by {
        forall i | 0 <= i < |row[1..]| ensures Nodes(pages', row[1..][i]) == Nodes(pages, row[1..][i]) {
          assert row[1..][i] == row[i + 1];
        }
      }
      JoinedSame(pages, pages', row[1..]);
    }
  }

  // ---------------------------------------------------------------- the tree

  ghost predicate Rows(pages: Pages, root: Id, lv: seq<seq<int>>) {
    && |lv| >= 2 && lv[0] == [root]
    && forall l :: 0 <= l < |lv| - 1 ==> lv[l + 1] == Joined(pages, lv[l])
  }

  /** No page is in two places. */
  ghost predicate Distinct(lv: seq<seq<int>>) {
    forall l, i, m, j ::
      (0 <= l < |lv| - 1 && 0 <= i < |lv[l]| && 0 <= m < |lv| - 1 && 0 <= j < |lv[m]| && lv[l][i] == lv[m][j])
      ==> l == m && i == j
  }

  lemma Places(lv: seq<seq<int>>, l: nat, i: nat, m: nat, j: nat)
    requires Distinct(lv) && l < |lv| - 1 && m < |lv| - 1 && i < |lv[l]| && j < |lv[m]|
    ensures lv[l][i] == lv[m][j] ==> l == m && i == j
  {
  }

  // ---------------------------------------------------------------- cursors

  /** The stack of an MDB_cursor; its length is mc_snum. */
  datatype Stack = Stack(pg: seq<Id>, ki: seq<nat>, init: bool, eof: bool, del: bool)

  /** Page i of the row is id, and its node k has index next in the row below. */
  ghost predicate Link(pages: Pages, row: seq<Id>, i: nat, id: Id, k: nat, next: nat) {
    i < |row| && row[i] == id && next == Start(pages, row, i) + k
  }

  /** The stack leads down through page ix[l] of each row l, to item ix[depth]. */
  ghost predicate Traces(pages: Pages, lv: seq<seq<int>>, c: Stack, ix: seq<nat>) {
    && |c.pg| == |c.ki| == |lv| - 1 >= 1 && |ix| == |lv| && ix[0] == 0
    && (forall l :: 0 <= l < |lv| - 1 ==> Link(pages, lv[l], ix[l], c.pg[l], c.ki[l], ix[l + 1]))
    && (forall l :: 0 <= l < |lv| - 2 ==> c.ki[l] < |Nodes(pages, c.pg[l])|)
  }

  lemma TraceLink(pages: Pages, lv: seq<seq<int>>, c: Stack, ix: seq<nat>, l: nat)
    requires Traces(pages, lv, c, ix) && l < |lv| - 1
    ensures |c.pg| == |c.ki| == |lv| - 1 && |ix| == |lv|
    ensures Link(pages, lv[l], ix[l], c.pg[l], c.ki[l], ix[l + 1])
            && (l + 2 < |lv| ==> c.ki[l] < |Nodes(pages, c.pg[l])|)
  {
  }

  /** The stack traces ix down to the page at row T. */
  ghost predicate TracesTo(pages: Pages, lv: seq<seq<int>>, c: Stack, ix: seq<nat>, T: nat) {
    && |c.pg| == |c.ki| == |lv| - 1 > T && |ix| == |lv| && ix[0] == 0
    && (forall l :: 0 <= l < T ==>
          Link(pages, lv[l], ix[l], c.pg[l], c.ki[l], ix[l + 1]) && c.ki[l] < |Nodes(pages, c.pg[l])|)
    && ix[T] < |lv[T]| && lv[T][ix[T]] == c.pg[T]
  }

  lemma PartTrace(pages: Pages, lv: seq<seq<int>>, c: Stack, ix: seq<nat>, T: nat)
    requires Traces(pages, lv, c, ix) && T < |lv| - 1
    ensures TracesTo(pages, lv, c, ix, T)
  {
    TraceLink(pages, lv, c, ix, T);
  }

  lemma TraceSizes(pages: Pages, lv: seq<seq<int>>, c: Stack, ix: seq<nat>, T: nat)
    requires TracesTo(pages, lv, c, ix, T)
    ensures |c.pg| == |c.ki| == |lv| - 1 > T && |ix| == |lv| && ix[T] < |lv[T]| && c.pg[T] == lv[T][ix[T]]
  {
  }

  lemma RowBelow(pages: Pages, root: Id, lv: seq<seq<int>>, l: nat)
    requires Rows(pages, root, lv) && l < |lv| - 1
    ensures lv[l + 1] == Joined(pages, lv[l])
  {
  }

  /** The parent's node leads to the page. */
  lemma PointsTo(pages: Pages, root: Id, lv: seq<seq<int>>, c: Stack, ix: seq<nat>, T: nat)
    requires Rows(pages, root, lv) && TracesTo(pages, lv, c, ix, T) && T > 0
    ensures |c.pg| == |c.ki| == |lv| - 1 > T && c.ki[T - 1] < |Nodes(pages, c.pg[T - 1])|
            && Nodes(pages, c.pg[T - 1])[c.ki[T - 1]] == c.pg[T]
  {
    hide Joined, Nodes;
    assert Link(pages, lv[T - 1], ix[T - 1], c.pg[T - 1], c.ki[T - 1], ix[T]);
    NodeAt(pages, lv[T - 1], ix[T - 1], c.ki[T - 1]);
  }

  lemma {:induction false} StartGrows(pages: Pages, row: seq<Id>, i: nat, j: nat)
    requires i < j <= |row|
    ensures Start(pages, row, i) + |Nodes(pages, row[i])| <= Start(pages, row, j)
    decreases j
  {
    hide Joined, Nodes;
    JoinedAt(pages, row, j - 1);
    if i < j - 1 {
      StartGrows(pages, row, i, j - 1);
    }
  }

  /** An index in the row below belongs to one page only. */
  lemma OneParent(pages: Pages, row: seq<Id>, i: nat, k: nat, j: nat, m: nat)
    requires i < |row| && k < |Nodes(pages, row[i])| && j < |row| && m < |Nodes(pages, row[j])|
    requires Start(pages, row, i) + k == Start(pages, row, j) + m
    ensures i == j && k == m
  {
    if i < j {
      StartGrows(pages, row, i, j);
    } else if j < i {
      StartGrows(pages, row, j, i);
    }
  }

  /** A row in which page j alone has changed. */
  lemma JoinedEdit(pages: Pages, pages': Pages, row: seq<Id>, j: nat)
    requires j < |row| && SameOn(pages, pages', row[..j]) && SameOn(pages, pages', row[j + 1..])
    ensures Joined(pages', row) == Joined(pages, row[..j]) + Nodes(pages', row[j]) + Joined(pages, row[j + 1..])
    ensures forall i :: 0 <= i <= j ==> Start(pages', row, i) == Start(pages, row, i)
    ensures forall i :: j < i <= |row| ==>
              Start(pages', row, i) == Start(pages, row, i) + |Nodes(pages', row[j])| - |Nodes(pages, row[j])|
  {
    hide Joined, Nodes;
    JoinedAt(pages', row, j);
    JoinedSame(pages, pages', row[..j]);
    JoinedSame(pages, pages', row[j + 1..]);
    forall i | 0 <= i <= j ensures Start(pages', row, i) == Start(pages, row, i) {
      SamePart(pages, pages', row[..j], i);
      assert row[..j][..i] == row[..i];
      JoinedSame(pages, pages', row[..i]);
    }
    forall i | j < i <= |row|
      ensures Start(pages', row, i) == Start(pages, row, i) + |Nodes(pages', row[j])| - |Nodes(pages, row[j])|
    {
      EditPart(pages, pages', row, j, i);
    }
  }

  lemma SamePart(pages: Pages, pages': Pages, row: seq<Id>, i: nat)
    requires SameOn(pages, pages', row) && i <= |row|
    ensures SameOn(pages, pages', row[..i])
  {
  }

  lemma EditPart(pages: Pages, pages': Pages, row: seq<Id>, j: nat, i: nat)
    requires j < i <= |row| && SameOn(pages, pages', row[..j]) && SameOn(pages, pages', row[j + 1..])
    ensures Start(pages', row, i) == Start(pages, row, i) + |Nodes(pages', row[j])| - |Nodes(pages, row[j])|
  {
    hide Joined, Nodes;
    var part := row[..i];
    JoinedAt(pages, part, j);
    JoinedAt(pages', part, j);
    assert part[..j] == row[..j] && part[j + 1..] == row[j + 1..][..i - j - 1];
    SamePart(pages, pages', row[j + 1..], i - j - 1);
    JoinedSame(pages, pages', part[..j]);
    JoinedSame(pages, pages', part[j + 1..]);
  }

  /** Nodes moved between page j and its right neighbour. */
  ghost predicate Shifted(pages: Pages, pages': Pages, row: seq<Id>, j: nat) {
    && j + 1 < |row| && SameOn(pages, pages', row[..j]) && SameOn(pages, pages', row[j + 2..])
    && Nodes(pages', row[j]) + Nodes(pages', row[j + 1]) == Nodes(pages, row[j]) + Nodes(pages, row[j + 1])
  }

  lemma JoinedTwo(pages: Pages, row: seq<Id>, j: nat)
    requires j + 1 < |row|
    ensures Joined(pages, row) == Joined(pages, row[..j]) + (Nodes(pages, row[j]) + Nodes(pages, row[j + 1]))
            + Joined(pages, row[j + 2..])
  {
    hide Joined, Nodes;
    JoinedAt(pages, row, j);
    JoinedSplit(pages, row, j + 1);
    JoinedAt(pages, row, j + 1);
    JoinedAt(pages, row[j + 1..], 0);
    assert row[j + 1..][..0] == [] && row[j + 1..][1..] == row[j + 2..];
    assert Joined(pages, []) == [] by { NoPages(pages); }
    var a, b, c, d := Joined(pages, row[..j]), Nodes(pages, row[j]), Nodes(pages, row[j + 1]),
        Joined(pages, row[j + 2..]);
    assert a + b + ([] + c + d) == a + (b + c) + d;
  }

  lemma NoPages(pages: Pages)
    ensures Joined(pages, []) == []
  {
  }

  lemma JoinedShift(pages: Pages, pages': Pages, row: seq<Id>, j: nat)
    requires Shifted(pages, pages', row, j)
    ensures Joined(pages', row) == Joined(pages, row)
  {
    hide Joined, Nodes;
    JoinedTwo(pages, row, j);
    JoinedTwo(pages', row, j);
    JoinedSame(pages, pages', row[..j]);
    JoinedSame(pages, pages', row[j + 2..]);
  }

  lemma StartShift(pages: Pages, pages': Pages, row: seq<Id>, j: nat, i: nat)
    requires Shifted(pages, pages', row, j) && i <= |row|
    ensures Start(pages', row, i) == if i == j + 1 then Start(pages, row, j) + |Nodes(pages', row[j])|
                                     else Start(pages, row, i)
  {
    hide Joined, Nodes;
    if i <= j {
      SamePart(pages, pages', row[..j], i);
      assert row[..j][..i] == row[..i];
      JoinedSame(pages, pages', row[..i]);
    } else if i == j + 1 {
      JoinedAt(pages', row, j);
      JoinedSame(pages, pages', row[..j]);
    } else {
      var part := row[..i];
      assert part[..j] == row[..j] && part[j + 2..] == row[j + 2..][..i - j - 2];
      SamePart(pages, pages', row[j + 2..], i - j - 2);
      JoinedShift(pages, pages', part, j);
    }
  }

  /** Page j has taken over the nodes of its right neighbour, which is gone. */
  ghost predicate Absorbed(pages: Pages, pages': Pages, row: seq<Id>, j: nat) {
    && j + 1 < |row| && SameOn(pages, pages', row[..j]) && SameOn(pages, pages', row[j + 2..])
    && Nodes(pages', row[j]) == Nodes(pages, row[j]) + Nodes(pages, row[j + 1])
  }

  lemma JoinedAbsorb(pages: Pages, pages': Pages, row: seq<Id>, j: nat)
    requires Absorbed(pages, pages', row, j)
    ensures Joined(pages', Without(row, j + 1)) == Joined(pages, row)
  {
    hide Joined, Nodes;
    var row' := Without(row, j + 1);
    JoinedTwo(pages, row, j);
    JoinedAt(pages', row', j);
    assert row'[..j] == row[..j] && row'[j + 1..] == row[j + 2..];
    JoinedSame(pages, pages', row[..j]);
    JoinedSame(pages, pages', row[j + 2..]);
  }

  lemma StartAbsorb(pages: Pages, pages': Pages, row: seq<Id>, j: nat, i: nat)
    requires Absorbed(pages, pages', row, j) && i < |row|
    ensures Start(pages', Without(row, j + 1), i) == if i <= j then Start(pages, row, i) else Start(pages, row, i + 1)
  {
    hide Joined, Nodes;
    var row' := Without(row, j + 1);
    if i <= j {
      SamePart(pages, pages', row[..j], i);
      assert row[..j][..i] == row[..i] == row'[..i];
      JoinedSame(pages, pages', row[..i]);
    } else {
      var part := row[..i + 1];
      assert part[..j] == row[..j] && part[j + 2..] == row[j + 2..][..i - j - 1];
      SamePart(pages, pages', row[j + 2..], i - j - 1);
      JoinedAbsorb(pages, pages', part, j);
      assert Without(part, j + 1) == row'[..i];
    }
  }

  // ------------------------------------------------------ a node changes page

  ghost predicate Only(pages: Pages, pages': Pages, ids: set<Id>) {
    forall x :: x !in ids ==> Nodes(pages', x) == Nodes(pages, x)
  }

  /** Rows without the changed pages hold what they held. */
  lemma Elsewhere(pages: Pages, pages': Pages, ids: set<Id>, row: seq<Id>)
    requires Only(pages, pages', ids) && forall i :: 0 <= i < |row| ==> row[i] !in ids
    ensures SameOn(pages, pages', row)
  {
  }

  /** Nodes move between neighbours a and b of row L. */
  lemma RowsShift(pages: Pages, pages': Pages, root: Id, lv: seq<seq<int>>, L: nat, j: nat)
    requires Rows(pages, root, lv) && Distinct(lv) && L < |lv| - 1 && j + 1 < |lv[L]|
    requires Only(pages, pages', {lv[L][j], lv[L][j + 1]})
    requires Nodes(pages', lv[L][j]) + Nodes(pages', lv[L][j + 1]) ==
             Nodes(pages, lv[L][j]) + Nodes(pages, lv[L][j + 1])
    ensures Rows(pages', root, lv) && Shifted(pages, pages', lv[L], j)
    ensures forall l :: 0 <= l < |lv| - 1 && l != L ==> SameOn(pages, pages', lv[l])
  {
    hide Joined, Nodes, Distinct;
    var ids := {lv[L][j], lv[L][j + 1]};
    forall l | 0 <= l < |lv| - 1 && l != L ensures SameOn(pages, pages', lv[l]) {
      forall i | 0 <= i < |lv[l]| ensures lv[l][i] !in ids {
        Places(lv, l, i, L, j);
        Places(lv, l, i, L, j + 1);
      }
      Elsewhere(pages, pages', ids, lv[l]);
      JoinedSame(pages, pages', lv[l]);
    }
    BesidePair(pages, pages', lv, L, j);
    JoinedShift(pages, pages', lv[L], j);
    forall l | 0 <= l < |lv| - 1 ensures lv[l + 1] == Joined(pages', lv[l]) {
      if l != L {
        JoinedSame(pages, pages', lv[l]);
      }
    }
  }

  lemma BesidePair(pages: Pages, pages': Pages, lv: seq<seq<int>>, L: nat, j: nat)
    requires Distinct(lv) && L < |lv| - 1 && j + 1 < |lv[L]|
    requires Only(pages, pages', {lv[L][j], lv[L][j + 1]})
    ensures SameOn(pages, pages', lv[L][..j]) && SameOn(pages, pages', lv[L][j + 2..])
  {
    hide Joined, Nodes, Distinct;
    forall i | 0 <= i < |lv[L]| && i != j && i != j + 1 ensures lv[L][i] !in {lv[L][j], lv[L][j + 1]} {
      Places(lv, L, i, L, j);
      Places(lv, L, i, L, j + 1);
    }
    var ids := {lv[L][j], lv[L][j + 1]};
    var tail := lv[L][j + 2..];
    Elsewhere(pages, pages', ids, lv[L][..j]);
    forall i | 0 <= i < |tail| ensures tail[i] !in ids {
      assert tail[i] == lv[L][j + 2 + i];
    }
    Elsewhere(pages, pages', ids, tail);
  }

  /** A stack that differs at one page, and in the index that leads to it. */
  lemma TraceLocal(pages: Pages, pages': Pages, lv: seq<seq<int>>, lv': seq<seq<int>>, L: nat, c: Stack, ix: seq<nat>,
                   id: Id, k: nat, up: nat, i: nat)
    requires Traces(pages, lv, c, ix) && 0 < L < |lv| - 1 && |lv'| == |lv|
    requires forall l :: 0 <= l < |lv| - 1 && l != L ==> lv'[l] == lv[l]
    requires forall l :: 0 <= l < |lv| - 1 && l != L && l != L - 1 ==> SameOn(pages, pages', lv[l])
    requires Link(pages', lv'[L], i, id, k, ix[L + 1]) && (L + 2 < |lv| ==> k < |Nodes(pages', id)|)
    requires Link(pages', lv[L - 1], ix[L - 1], c.pg[L - 1], up, i) && up < |Nodes(pages', c.pg[L - 1])|
    ensures Traces(pages', lv', c.(pg := c.pg[L := id], ki := c.ki[L - 1 := up][L := k]), ix[L := i])
  {
    hide Joined, Nodes, SameOn;
    var c', ix' := c.(pg := c.pg[L := id], ki := c.ki[L - 1 := up][L := k]), ix[L := i];
    forall l | 0 <= l < |lv| - 1
      ensures Link(pages', lv'[l], ix'[l], c'.pg[l], c'.ki[l], ix'[l + 1])
              && (l + 2 < |lv| ==> c'.ki[l] < |Nodes(pages', c'.pg[l])|)
    {
      if l != L && l != L - 1 {
        TraceLink(pages, lv, c, ix, l);
        LinkSame(pages, pages', lv[l], ix[l], c.pg[l]);
      }
    }
  }

  lemma LinkSame(pages: Pages, pages': Pages, row: seq<Id>, i: nat, id: Id)
    requires SameOn(pages, pages', row) && i < |row| && row[i] == id
    ensures Start(pages', row, i) == Start(pages, row, i) && Nodes(pages', id) == Nodes(pages, id)
  {
    hide Joined, Nodes;
    SamePart(pages, pages', row, i);
    JoinedSame(pages, pages', row[..i]);
  }

  // ------------------------------------------- mdb_node_move on other cursors

  /** Decrement of an indx_t. */
  function Dec(k: nat): nat { if k == 0 then 0xffff else k - 1 }

  /** The last node of the left page mps went to the front of mpd. */
  function FromLeft(m3: Stack, top: nat, mps: Id, mpd: Id, ski: nat, dki: nat): Stack
    requires |m3.pg| == |m3.ki| && top > 0
  {
    if !m3.init || |m3.pg| <= top then m3
    else
      var m := if m3.pg[top] == mpd && m3.ki[top] >= dki then m3.(ki := m3.ki[top := m3.ki[top] + 1]) else m3;
      if m.pg[top] == mps && m.ki[top] == ski then
        m.(pg := m.pg[top := mpd], ki := m.ki[top - 1 := m.ki[top - 1] + 1][top := dki])
      else m
  }

  /** The first node of the right page mps went to the end of mpd. */
  function FromRight(m3: Stack, top: nat, mps: Id, mpd: Id, dki: nat): Stack
    requires |m3.pg| == |m3.ki| && top > 0
  {
    if !m3.init || |m3.pg| <= top || m3.pg[top] != mps then m3
    else if m3.ki[top] == 0 then m3.(pg := m3.pg[top := mpd], ki := m3.ki[top - 1 := Dec(m3.ki[top - 1])][top := dki])
    else m3.(ki := m3.ki[top := m3.ki[top] - 1])
  }

  /** Pages j and j + 1 of row L hang side by side under page t of row L - 1. */
  ghost predicate Siblings(pages: Pages, lv: seq<seq<int>>, L: nat, t: nat, kp: nat, j: nat) {
    && 0 < L < |lv| - 1 && t < |lv[L - 1]| && kp + 1 < |Nodes(pages, lv[L - 1][t])|
    && j == Start(pages, lv[L - 1], t) + kp && j + 1 < |lv[L]|
  }

  /** A cursor through one of the siblings has come through their parent. */
  lemma ThroughParent(pages: Pages, lv: seq<seq<int>>, L: nat, t: nat, kp: nat, j: nat, c: Stack, ix: seq<nat>)
    requires Siblings(pages, lv, L, t, kp, j) && Traces(pages, lv, c, ix) && Distinct(lv)
    ensures |c.pg| == |c.ki| == |lv| - 1 && |ix| == |lv|
    ensures c.pg[L] == lv[L][j] ==> ix[L] == j && ix[L - 1] == t && c.pg[L - 1] == lv[L - 1][t] && c.ki[L - 1] == kp
    ensures c.pg[L] == lv[L][j + 1] ==>
              ix[L] == j + 1 && ix[L - 1] == t && c.pg[L - 1] == lv[L - 1][t] && c.ki[L - 1] == kp + 1
  {
    hide Joined, Nodes, Distinct, Traces;
    TraceLink(pages, lv, c, ix, L);
    TraceLink(pages, lv, c, ix, L - 1);
    Places(lv, L, ix[L], L, j);
    Places(lv, L, ix[L], L, j + 1);
    if c.pg[L] == lv[L][j] {
      OneParent(pages, lv[L - 1], ix[L - 1], c.ki[L - 1], t, kp);
    }
    if c.pg[L] == lv[L][j + 1] {
      OneParent(pages, lv[L - 1], ix[L - 1], c.ki[L - 1], t, kp + 1);
    }
  }

  /** What mdb_node_move does to the two pages. */
  function MoveLeftNode(pages: Pages, a: Id, b: Id): Pages
    requires |Nodes(pages, a)| > 0
  {
    var A, B := Nodes(pages, a), Nodes(pages, b);
    pages[b := [A[|A| - 1]] + B][a := A[..|A| - 1]]
  }

  function MoveRightNode(pages: Pages, a: Id, b: Id): Pages
    requires |Nodes(pages, b)| > 0
  {
    var A, B := Nodes(pages, a), Nodes(pages, b);
    pages[a := A + [B[0]]][b := B[1..]]
  }

  /** Every cursor keeps its place when the last node of a goes to b. */
  lemma FromLeftKeeps(pages: Pages, root: Id, lv: seq<seq<int>>, L: nat, t: nat, kp: nat, j: nat, c: Stack,
                      ix: seq<nat>)
    requires Rows(pages, root, lv) && Distinct(lv) && Siblings(pages, lv, L, t, kp, j) && Traces(pages, lv, c, ix)
             && c.init
    requires var n := |Nodes(pages, lv[L][j])|; n > 0 && (c.pg[L] == lv[L][j] ==> c.ki[L] < n)
    ensures var a, b := lv[L][j], lv[L][j + 1];
            var n := |Nodes(pages, a)|;
            var i := if c.pg[L] == a && c.ki[L] == n - 1 then j + 1 else ix[L];
            var pages', c' := MoveLeftNode(pages, a, b), FromLeft(c, L, a, b, n - 1, 0);
            && Traces(pages', lv, c', ix[L := i])
            && (c.ki[L] < |Nodes(pages, c.pg[L])| ==> c'.ki[L] < |Nodes(pages', c'.pg[L])|)
            && (c.ki[L] <= |Nodes(pages, c.pg[L])| ==> c'.ki[L] <= |Nodes(pages', c'.pg[L])|)
  {
    hide Joined, Nodes, Distinct, Traces, Shifted, SameOn, Rows;
    var a, b := lv[L][j], lv[L][j + 1];
    var A := Nodes(pages, a);
    var pages' := MoveLeftNode(pages, a, b);
    Places(lv, L, j, L, j + 1);
    MovedNodes(pages, a, b);
    RowsShift(pages, pages', root, lv, L, j);
    ThroughParent(pages, lv, L, t, kp, j, c, ix);
    TraceLink(pages, lv, c, ix, L);
    TraceLink(pages, lv, c, ix, L - 1);
    StartShift(pages, pages', lv[L], j, j);
    StartShift(pages, pages', lv[L], j, j + 1);
    StartShift(pages, pages', lv[L], j, ix[L]);
    JoinedAt(pages, lv[L], j);
    var c' := FromLeft(c, L, a, b, |A| - 1, 0);
    var i := if c.pg[L] == a && c.ki[L] == |A| - 1 then j + 1 else ix[L];
    LinkSame(pages, pages', lv[L - 1], ix[L - 1], c.pg[L - 1]);
    TraceLocal(pages, pages', lv, lv, L, c, ix, c'.pg[L], c'.ki[L], c'.ki[L - 1], i);
    assert c' == c.(pg := c.pg[L := c'.pg[L]], ki := c.ki[L - 1 := c'.ki[L - 1]][L := c'.ki[L]]);
  }

  lemma MovedLeft(pages: Pages, a: Id, b: Id)
    requires a != b && Nodes(pages, a) != []
    ensures var A, B, pages' := Nodes(pages, a), Nodes(pages, b), MoveLeftNode(pages, a, b);
            && Nodes(pages', a) == A[..|A| - 1] && Nodes(pages', b) == [A[|A| - 1]] + B
            && Only(pages, pages', {a, b}) && Nodes(pages', a) + Nodes(pages', b) == A + B
  {
    var A := Nodes(pages, a);
    assert A == A[..|A| - 1] + [A[|A| - 1]];
  }

  lemma MovedRight(pages: Pages, a: Id, b: Id)
    requires a != b && Nodes(pages, b) != []
    ensures var A, B, pages' := Nodes(pages, a), Nodes(pages, b), MoveRightNode(pages, a, b);
            && Nodes(pages', a) == A + [B[0]] && Nodes(pages', b) == B[1..]
            && Only(pages, pages', {a, b}) && Nodes(pages', a) + Nodes(pages', b) == A + B
  {
    var B := Nodes(pages, b);
    assert B == [B[0]] + B[1..];
  }

  lemma MovedNodes(pages: Pages, a: Id, b: Id)
    requires a != b
    ensures var A, B := Nodes(pages, a), Nodes(pages, b);
            && (A != [] ==> var pages' := MoveLeftNode(pages, a, b);
                  && Nodes(pages', a) == A[..|A| - 1] && Nodes(pages', b) == [A[|A| - 1]] + B
                  && Only(pages, pages', {a, b}) && Nodes(pages', a) + Nodes(pages', b) == A + B)
            && (B != [] ==> var pages' := MoveRightNode(pages, a, b);
                  && Nodes(pages', a) == A + [B[0]] && Nodes(pages', b) == B[1..]
                  && Only(pages, pages', {a, b}) && Nodes(pages', a) + Nodes(pages', b) == A + B)
  {
    hide Nodes, MoveLeftNode, MoveRightNode, Only;
    if Nodes(pages, a) != [] {
      MovedLeft(pages, a, b);
    }
    if Nodes(pages, b) != [] {
      MovedRight(pages, a, b);
    }
  }

  /** Every cursor keeps its place when the first node of b goes to a. */
  lemma FromRightKeeps(pages: Pages, root: Id, lv: seq<seq<int>>, L: nat, t: nat, kp: nat, j: nat, c: Stack,
                       ix: seq<nat>)
    requires Rows(pages, root, lv) && Distinct(lv) && Siblings(pages, lv, L, t, kp, j) && Traces(pages, lv, c, ix)
             && c.init
    requires |Nodes(pages, lv[L][j + 1])| > 0
    ensures var a, b := lv[L][j], lv[L][j + 1];
            var i := if c.pg[L] == b && c.ki[L] == 0 then j else ix[L];
            var pages', c' := MoveRightNode(pages, a, b), FromRight(c, L, b, a, |Nodes(pages, a)|);
            && Traces(pages', lv, c', ix[L := i])
            && (c.ki[L] < |Nodes(pages, c.pg[L])| ==> c'.ki[L] < |Nodes(pages', c'.pg[L])|)
            && (c.ki[L] <= |Nodes(pages, c.pg[L])| ==> c'.ki[L] <= |Nodes(pages', c'.pg[L])|)
  {
    hide Joined, Nodes, Distinct, Traces, Shifted, SameOn, Rows;
    var a, b := lv[L][j], lv[L][j + 1];
    var pages' := MoveRightNode(pages, a, b);
    Places(lv, L, j, L, j + 1);
    MovedNodes(pages, a, b);
    RowsShift(pages, pages', root, lv, L, j);
    ThroughParent(pages, lv, L, t, kp, j, c, ix);
    TraceLink(pages, lv, c, ix, L);
    TraceLink(pages, lv, c, ix, L - 1);
    StartShift(pages, pages', lv[L], j, j);
    StartShift(pages, pages', lv[L], j, j + 1);
    StartShift(pages, pages', lv[L], j, ix[L]);
    JoinedAt(pages, lv[L], j);
    var c' := FromRight(c, L, b, a, |Nodes(pages, a)|);
    var i := if c.pg[L] == b && c.ki[L] == 0 then j else ix[L];
    LinkSame(pages, pages', lv[L - 1], ix[L - 1], c.pg[L - 1]);
    TraceLocal(pages, pages', lv, lv, L, c, ix, c'.pg[L], c'.ki[L], c'.ki[L - 1], i);
    assert c' == c.(pg := c.pg[L := c'.pg[L]], ki := c.ki[L - 1 := c'.ki[L - 1]][L := c'.ki[L]]);
  }

  // ------------------------------------------ mdb_page_merge on other cursors

  /** Page psrc has gone into pdst, which had nkeys nodes; up and sup are the
      indices of pdst and psrc in their parent. */
  function Merged(m3: Stack, top: nat, psrc: Id, pdst: Id, nkeys: nat, parent: Id, up: nat, sup: nat): Stack
    requires |m3.pg| == |m3.ki| && top > 0
  {
    if |m3.pg| <= top then m3
    else if m3.pg[top] == psrc then m3.(pg := m3.pg[top := pdst], ki := m3.ki[top := m3.ki[top] + nkeys][top - 1 := up])
    else if m3.pg[top - 1] == parent && m3.ki[top - 1] > sup then m3.(ki := m3.ki[top - 1 := m3.ki[top - 1] - 1])
    else m3
  }

  function MergePages(pages: Pages, a: Id, b: Id, parent: Id, sup: nat): Pages
    requires sup < |Nodes(pages, parent)|
  {
    pages[a := Nodes(pages, a) + Nodes(pages, b)][parent := Without(Nodes(pages, parent), sup)]
  }

  lemma MergedTree(pages: Pages, root: Id, lv: seq<seq<int>>, L: nat, t: nat, kp: nat, j: nat)
    requires Rows(pages, root, lv) && Distinct(lv) && Siblings(pages, lv, L, t, kp, j)
    ensures var pages' := MergePages(pages, lv[L][j], lv[L][j + 1], lv[L - 1][t], kp + 1);
            && Rows(pages', root, lv[L := Without(lv[L], j + 1)]) && Distinct(lv[L := Without(lv[L], j + 1)])
            && Absorbed(pages, pages', lv[L], j)
            && SameOn(pages, pages', lv[L - 1][..t]) && SameOn(pages, pages', lv[L - 1][t + 1..])
            && Nodes(pages', lv[L - 1][t]) == Without(Nodes(pages, lv[L - 1][t]), kp + 1)
            && forall l :: 0 <= l < |lv| - 1 && l != L && l != L - 1 ==> SameOn(pages, pages', lv[l])
  {
    hide Joined, Nodes;
    var a, b, P := lv[L][j], lv[L][j + 1], lv[L - 1][t];
    var pages' := MergePages(pages, a, b, P, kp + 1);
    MergeNodes(pages, a, b, P, kp + 1);
    var lv' := lv[L := Without(lv[L], j + 1)];
    MergeElsewhere(pages, pages', lv, L, t, j);
    JoinedAbsorb(pages, pages', lv[L], j);
    JoinedEdit(pages, pages', lv[L - 1], t);
    JoinedAt(pages, lv[L - 1], t);
    assert lv[L] == Joined(pages, lv[L - 1]);
    forall l | 0 <= l < |lv| - 1 ensures lv'[l + 1] == Joined(pages', lv'[l]) {
      if l != L && l != L - 1 {
        JoinedSame(pages, pages', lv[l]);
      }
    }
    DistinctWithout(lv, L, j + 1);
  }

  lemma MergeNodes(pages: Pages, a: Id, b: Id, parent: Id, sup: nat)
    requires a != parent && sup < |Nodes(pages, parent)|
    ensures var pages' := MergePages(pages, a, b, parent, sup);
            && Nodes(pages', a) == Nodes(pages, a) + Nodes(pages, b)
            && Nodes(pages', parent) == Without(Nodes(pages, parent), sup)
            && Only(pages, pages', {a, parent})
  {
  }

  lemma MergeElsewhere(pages: Pages, pages': Pages, lv: seq<seq<int>>, L: nat, t: nat, j: nat)
    requires Distinct(lv) && 0 < L < |lv| - 1 && t < |lv[L - 1]| && j < |lv[L]|
    requires Only(pages, pages', {lv[L][j], lv[L - 1][t]})
    ensures SameOn(pages, pages', lv[L][..j]) && SameOn(pages, pages', lv[L][j + 1..])
    ensures j + 1 < |lv[L]| ==> SameOn(pages, pages', lv[L][j + 2..])
    ensures SameOn(pages, pages', lv[L - 1][..t]) && SameOn(pages, pages', lv[L - 1][t + 1..])
    ensures forall l :: 0 <= l < |lv| - 1 && l != L && l != L - 1 ==> SameOn(pages, pages', lv[l])
  {
    hide Joined, Nodes, Distinct;
    var ids := {lv[L][j], lv[L - 1][t]};
    forall l, i | 0 <= l < |lv| - 1 && 0 <= i < |lv[l]| && !(l == L && i == j) && !(l == L - 1 && i == t)
      ensures lv[l][i] !in ids
    {
      Places(lv, l, i, L, j);
      Places(lv, l, i, L - 1, t);
    }
    assert forall l, i ::
      (0 <= l < |lv| - 1 && 0 <= i < |lv[l]| && !(l == L && i == j) && !(l == L - 1 && i == t))
      ==> Nodes(pages', lv[l][i]) == Nodes(pages, lv[l][i]);
  }

  lemma DistinctWithout(lv: seq<seq<int>>, L: nat, j: nat)
    requires Distinct(lv) && L < |lv| - 1 && j < |lv[L]|
    ensures Distinct(lv[L := Without(lv[L], j)])
  {
    var lv' := lv[L := Without(lv[L], j)];
    forall l, i, m, k | 0 <= l < |lv'| - 1 && 0 <= i < |lv'[l]| && 0 <= m < |lv'| - 1 && 0 <= k < |lv'[m]|
        && lv'[l][i] == lv'[m][k]
      ensures l == m && i == k
    {
      var i0 := if l == L && i >= j then i + 1 else i;
      var k0 := if m == L && k >= j then k + 1 else k;
      assert lv'[l][i] == lv[l][i0] && lv'[m][k] == lv[m][k0];
    }
  }

  /** Every cursor keeps its place when page j + 1 is merged into page j. */
  lemma MergeKeeps(pages: Pages, root: Id, lv: seq<seq<int>>, L: nat, t: nat, kp: nat, j: nat, c: Stack, ix: seq<nat>)
    requires Rows(pages, root, lv) && Distinct(lv) && Siblings(pages, lv, L, t, kp, j) && Traces(pages, lv, c, ix)
    ensures var a, b, P := lv[L][j], lv[L][j + 1], lv[L - 1][t];
            var pages' := MergePages(pages, a, b, P, kp + 1);
            var c' := Merged(c, L, b, a, |Nodes(pages, a)|, P, kp, kp + 1);
            && Traces(pages', lv[L := Without(lv[L], j + 1)], c', ix[L := if ix[L] > j then ix[L] - 1 else ix[L]])
            && (c.pg[L] != a && c.ki[L] < |Nodes(pages, c.pg[L])| ==> c'.ki[L] < |Nodes(pages', c'.pg[L])|)
            && (c.pg[L] == a && c.ki[L] < |Nodes(pages, a)| + |Nodes(pages, b)| ==>
                  c'.ki[L] < |Nodes(pages', c'.pg[L])|)
            && (c.ki[L] <= |Nodes(pages, c.pg[L])| ==> c'.ki[L] <= |Nodes(pages', c'.pg[L])|)
  {
    hide Joined, Nodes, Distinct, Traces, SameOn, Rows, Absorbed, Merged, MergePages;
    var a, b, P := lv[L][j], lv[L][j + 1], lv[L - 1][t];
    var pages' := MergePages(pages, a, b, P, kp + 1);
    var lv' := lv[L := Without(lv[L], j + 1)];
    MergedTree(pages, root, lv, L, t, kp, j);
    ThroughParent(pages, lv, L, t, kp, j, c, ix);
    TraceLink(pages, lv, c, ix, L);
    TraceLink(pages, lv, c, ix, L - 1);
    var c' := Merged(c, L, b, a, |Nodes(pages, a)|, P, kp, kp + 1);
    MergedShape(c, L, b, a, |Nodes(pages, a)|, P, kp, kp + 1);
    Places(lv, L, j, L, j + 1);
    Places(lv, L, j, L - 1, t);
    Places(lv, L - 1, ix[L - 1], L - 1, t);
    MergeNodes(pages, a, b, P, kp + 1);
    var i := if ix[L] > j then ix[L] - 1 else ix[L];
    StartAbsorb(pages, pages', lv[L], j, i);
    JoinedAt(pages, lv[L], j);
    ParentLink(pages, pages', lv, L, t, kp, j, c, ix);
    PageNodes(pages, pages', lv, L, t, j, c, ix);
    TraceLocal(pages, pages', lv, lv', L, c, ix, c'.pg[L], c'.ki[L], c'.ki[L - 1], i);
  }

  lemma MergedShape(c: Stack, L: nat, b: Id, a: Id, n: nat, P: Id, up: nat, sup: nat)
    requires |c.pg| == |c.ki| > L > 0
    ensures var c' := Merged(c, L, b, a, n, P, up, sup);
            && |c'.pg| == |c'.ki| == |c.pg|
            && c'.pg[L] == (if c.pg[L] == b then a else c.pg[L])
            && c'.ki[L] == (if c.pg[L] == b then c.ki[L] + n else c.ki[L])
            && c'.ki[L - 1] == (if c.pg[L] == b then up
                                else if c.pg[L - 1] == P && c.ki[L - 1] > sup then c.ki[L - 1] - 1 else c.ki[L - 1])
            && c' == c.(pg := c.pg[L := c'.pg[L]], ki := c.ki[L - 1 := c'.ki[L - 1]][L := c'.ki[L]])
  {
  }

  /** The index into the parents that still leads to the cursor's page. */
  lemma ParentLink(pages: Pages, pages': Pages, lv: seq<seq<int>>, L: nat, t: nat, kp: nat, j: nat, c: Stack,
                   ix: seq<nat>)
    requires Siblings(pages, lv, L, t, kp, j) && Traces(pages, lv, c, ix) && Distinct(lv)
    requires SameOn(pages, pages', lv[L - 1][..t]) && SameOn(pages, pages', lv[L - 1][t + 1..])
    requires Nodes(pages', lv[L - 1][t]) == Without(Nodes(pages, lv[L - 1][t]), kp + 1)
    requires |c.pg| == |c.ki| == |lv| - 1 && |ix| == |lv|
    ensures var k := c.ki[L - 1];
            var up := if c.pg[L - 1] != lv[L - 1][t] || k <= kp then k else if k == kp + 1 then kp else k - 1;
            && Link(pages', lv[L - 1], ix[L - 1], c.pg[L - 1], up, if ix[L] > j then ix[L] - 1 else ix[L])
            && up < |Nodes(pages', c.pg[L - 1])|
  {
    hide Joined, Nodes, Distinct, Traces, SameOn;
    TraceLink(pages, lv, c, ix, L - 1);
    var row, t2 := lv[L - 1], ix[L - 1];
    JoinedEdit(pages, pages', row, t);
    Places(lv, L - 1, t, L - 1, t2);
    if t2 < t {
      StartGrows(pages, row, t2, t);
      SameAt(pages, pages', row, t, t2);
    } else if t2 > t {
      StartGrows(pages, row, t, t2);
      SameAt(pages, pages', row, t, t2);
    }
  }

  lemma SameAt(pages: Pages, pages': Pages, row: seq<Id>, t: nat, i: nat)
    requires t < |row| && SameOn(pages, pages', row[..t]) && SameOn(pages, pages', row[t + 1..]) && i < |row| && i != t
    ensures Nodes(pages', row[i]) == Nodes(pages, row[i])
  {
    if i < t { assert row[..t][i] == row[i]; } else { assert row[t + 1..][i - t - 1] == row[i]; }
  }

  lemma PageNodes(pages: Pages, pages': Pages, lv: seq<seq<int>>, L: nat, t: nat, j: nat, c: Stack, ix: seq<nat>)
    requires Distinct(lv) && 0 < L < |lv| - 1 && t < |lv[L - 1]| && j < |lv[L]| && Traces(pages, lv, c, ix)
    requires Only(pages, pages', {lv[L][j], lv[L - 1][t]})
    ensures |c.pg| == |lv| - 1 && (c.pg[L] != lv[L][j] ==> Nodes(pages', c.pg[L]) == Nodes(pages, c.pg[L]))
  {
    hide Joined, Nodes, Distinct, Traces, SameOn;
    TraceLink(pages, lv, c, ix, L);
    Places(lv, L, ix[L], L - 1, t);
  }

  // ------------------------------------------------------- changes of height

  /** The root had one child left, which takes its place. */
  function Collapsed(m3: Stack): Stack
    requires |m3.pg| == |m3.ki| > 0
  {
    m3.(pg := m3.pg[1..], ki := m3.ki[1..])
  }

  lemma CollapseKeeps(pages: Pages, root: Id, child: Id, lv: seq<seq<int>>)
    requires Rows(pages, root, lv) && Distinct(lv) && |lv| > 2 && Nodes(pages, root) == [child]
    ensures lv[1] == [child] && Rows(pages, child, lv[1..]) && Distinct(lv[1..])
    ensures forall c, ix :: Traces(pages, lv, c, ix) ==>
              c.pg[0] == root && c.pg[1] == child && Traces(pages, lv[1..], Collapsed(c), ix[1..])
  {
    hide Nodes, Distinct;
    JoinedAt(pages, [root], 0);
    assert [root][..0] == [] && [root][1..] == [];
    assert lv[1] == [child];
    forall c, ix | Traces(pages, lv, c, ix)
      ensures c.pg[0] == root && c.pg[1] == child && Traces(pages, lv[1..], Collapsed(c), ix[1..])
    {
      CollapseTrace(pages, root, child, lv, c, ix);
    }
    DistinctBelow(lv);
  }

  lemma DistinctBelow(lv: seq<seq<int>>)
    requires Distinct(lv) && |lv| > 2
    ensures Distinct(lv[1..])
  {
    var lv' := lv[1..];
    forall l, i, m, k | 0 <= l < |lv'| - 1 && 0 <= i < |lv'[l]| && 0 <= m < |lv'| - 1 && 0 <= k < |lv'[m]|
        && lv'[l][i] == lv'[m][k]
      ensures l == m && i == k
    {
      assert lv'[l] == lv[l + 1] && lv'[m] == lv[m + 1];
    }
  }

  lemma CollapseTrace(pages: Pages, root: Id, child: Id, lv: seq<seq<int>>, c: Stack, ix: seq<nat>)
    requires Traces(pages, lv, c, ix) && |lv| > 2 && lv[0] == [root] && lv[1] == [child]
    ensures c.pg[0] == root && c.pg[1] == child && Traces(pages, lv[1..], Collapsed(c), ix[1..])
  {
    hide Joined, Nodes;
    TraceLink(pages, lv, c, ix, 0);
    TraceLink(pages, lv, c, ix, 1);
    var lv', c', ix' := lv[1..], Collapsed(c), ix[1..];
    forall l | 0 <= l < |lv'| - 1
      ensures Link(pages, lv'[l], ix'[l], c'.pg[l], c'.ki[l], ix'[l + 1])
              && (l + 2 < |lv'| ==> c'.ki[l] < |Nodes(pages, c'.pg[l])|)
    {
      TraceLink(pages, lv, c, ix, l + 1);
    }
  }

  /** A new root above the old one, as when the root is split. */
  function Raised(m3: Stack, top: Id, k: nat): Stack { m3.(pg := [top] + m3.pg, ki := [k] + m3.ki) }

  lemma RaiseKeeps(pages: Pages, root: Id, top: Id, lv: seq<seq<int>>)
    requires Rows(pages, root, lv) && Distinct(lv)
    requires forall l, i :: 0 <= l < |lv| - 1 && 0 <= i < |lv[l]| ==> lv[l][i] != top
    ensures var pages', lv' := pages[top := [root]], [[top]] + lv;
            && Rows(pages', top, lv') && Distinct(lv')
            && forall c, ix :: Traces(pages, lv, c, ix) ==> Traces(pages', lv', Raised(c, top, 0), [0] + ix)
  {
    hide Distinct;
    var pages', lv' := pages[top := [root]], [[top]] + lv;
    JoinedAt(pages', [top], 0);
    assert [top][..0] == [] && [top][1..] == [];
    assert Joined(pages', [top]) == [root];
    forall l | 0 <= l < |lv| - 1 ensures SameOn(pages, pages', lv[l]) {
      JoinedSame(pages, pages', lv[l]);
    }
    forall l | 0 <= l < |lv'| - 1 ensures lv'[l + 1] == Joined(pages', lv'[l]) {
      if l > 0 {
        JoinedSame(pages, pages', lv[l - 1]);
      }
    }
    DistinctRaised(lv, top);
    forall c, ix | Traces(pages, lv, c, ix) ensures Traces(pages', lv', Raised(c, top, 0), [0] + ix) {
      RaiseTrace(pages, pages', root, top, lv, c, ix);
    }
  }

  lemma DistinctRaised(lv: seq<seq<int>>, top: Id)
    requires Distinct(lv) && forall l, i :: 0 <= l < |lv| - 1 && 0 <= i < |lv[l]| ==> lv[l][i] != top
    ensures Distinct([[top]] + lv)
  {
    var lv' := [[top]] + lv;
    forall l, i, m, k | 0 <= l < |lv'| - 1 && 0 <= i < |lv'[l]| && 0 <= m < |lv'| - 1 && 0 <= k < |lv'[m]|
        && lv'[l][i] == lv'[m][k]
      ensures l == m && i == k
    {
      assert l > 0 ==> lv'[l] == lv[l - 1];
      assert m > 0 ==> lv'[m] == lv[m - 1];
    }
  }

  lemma RaiseTrace(pages: Pages, pages': Pages, root: Id, top: Id, lv: seq<seq<int>>, c: Stack, ix: seq<nat>)
    requires Traces(pages, lv, c, ix) && Nodes(pages', top) == [root] && |lv| >= 2 && lv[0] == [root]
    requires forall l :: 0 <= l < |lv| - 1 ==> SameOn(pages, pages', lv[l])
    ensures Traces(pages', [[top]] + lv, Raised(c, top, 0), [0] + ix)
  {
    hide Joined, Nodes, SameOn;
    var lv', c', ix' := [[top]] + lv, Raised(c, top, 0), [0] + ix;
    assert [top][..0] == [];
    NoPages(pages');
    forall l | 0 <= l < |lv'| - 1
      ensures Link(pages', lv'[l], ix'[l], c'.pg[l], c'.ki[l], ix'[l + 1])
              && (l + 2 < |lv'| ==> c'.ki[l] < |Nodes(pages', c'.pg[l])|)
    {
      if l > 0 {
        TraceLink(pages, lv, c, ix, l - 1);
        LinkSame(pages, pages', lv[l - 1], ix[l - 1], c.pg[l - 1]);
      } else {
        TraceLink(pages, lv, c, ix, 0);
      }
    }
  }

  // ------------------------------------------------------------ leaf changes

  lemma Cuts(a: seq<int>, b: seq<int>, c: seq<int>)
    ensures var s := a + b + c;
            s[..|a|] == a && s[|a|..|a| + |b|] == b && s[|a| + |b|..] == c
  {
  }

  /** Page j of the leaf row holds other items, and only the last row changes. */
  lemma LeafEdit(pages: Pages, root: Id, lv: seq<seq<int>>, j: nat, items: seq<int>)
    requires Rows(pages, root, lv) && Distinct(lv) && j < |lv[|lv| - 2]|
    ensures var L := |lv| - 2;
            var pages' := pages[lv[L][j] := items];
            var b := Start(pages, lv[L], j);
            var e := b + |Nodes(pages, lv[L][j])|;
            && e <= |lv[L + 1]| && lv[L + 1][b..e] == Nodes(pages, lv[L][j])
            && Rows(pages', root, lv[L + 1 := lv[L + 1][..b] + items + lv[L + 1][e..]])
            && Distinct(lv[L + 1 := lv[L + 1][..b] + items + lv[L + 1][e..]])
            && SameOn(pages, pages', lv[L][..j]) && SameOn(pages, pages', lv[L][j + 1..])
            && forall l :: 0 <= l < L ==> SameOn(pages, pages', lv[l])
  {
    hide Joined, Nodes, Distinct, SameOn;
    var L := |lv| - 2;
    var row, N := lv[L], Nodes(pages, lv[L][j]);
    var pages' := pages[row[j] := items];
    NewNodes(pages, row[j], items);
    JoinedAt(pages, row, j);
    Cuts(Joined(pages, row[..j]), N, Joined(pages, row[j + 1..]));
    EditElsewhere(pages, pages', lv, L, j);
    JoinedEdit(pages, pages', row, j);
    forall l | 0 <= l < L ensures lv[l + 1] == Joined(pages', lv[l]) {
      JoinedSame(pages, pages', lv[l]);
    }
    LastRowFree(lv, lv[L + 1][..Start(pages, row, j)] + items + lv[L + 1][Start(pages, row, j) + |N|..]);
  }

  lemma LastRowFree(lv: seq<seq<int>>, row: seq<int>)
    requires Distinct(lv) && |lv| >= 2
    ensures Distinct(lv[|lv| - 1 := row])
  {
  }

  lemma EditElsewhere(pages: Pages, pages': Pages, lv: seq<seq<int>>, L: nat, j: nat)
    requires Distinct(lv) && L < |lv| - 1 && j < |lv[L]| && Only(pages, pages', {lv[L][j]})
    ensures SameOn(pages, pages', lv[L][..j]) && SameOn(pages, pages', lv[L][j + 1..])
    ensures forall l :: 0 <= l < |lv| - 1 && l != L ==> SameOn(pages, pages', lv[l])
  {
    hide Joined, Nodes, Distinct;
    forall l, i | 0 <= l < |lv| - 1 && 0 <= i < |lv[l]| && !(l == L && i == j) ensures lv[l][i] != lv[L][j] {
      Places(lv, l, i, L, j);
    }
    assert forall l, i :: (0 <= l < |lv| - 1 && 0 <= i < |lv[l]| && !(l == L && i == j)) ==>
             Nodes(pages', lv[l][i]) == Nodes(pages, lv[l][i]);
  }

  lemma TraceLeaf(pages: Pages, pages': Pages, lv: seq<seq<int>>, lv': seq<seq<int>>, c: Stack, ix: seq<nat>, k: nat,
                  q: nat)
    requires Traces(pages, lv, c, ix) && |lv'| == |lv| >= 2
    requires var L := |lv| - 2; Link(pages', lv[L], ix[L], c.pg[L], k, q)
    requires forall l :: 0 <= l < |lv| - 1 ==> lv'[l] == lv[l]
    requires forall l :: 0 <= l < |lv| - 2 ==> SameOn(pages, pages', lv[l])
    ensures Traces(pages', lv', c.(ki := c.ki[|lv| - 2 := k]), ix[|lv| - 1 := q])
  {
    hide Joined, Nodes, SameOn;
    var L := |lv| - 2;
    var c', ix' := c.(ki := c.ki[L := k]), ix[L + 1 := q];
    forall l | 0 <= l < |lv| - 1
      ensures Link(pages', lv'[l], ix'[l], c'.pg[l], c'.ki[l], ix'[l + 1])
              && (l + 2 < |lv| ==> c'.ki[l] < |Nodes(pages', c'.pg[l])|)
    {
      if l != L {
        TraceLink(pages, lv, c, ix, l);
        LinkSame(pages, pages', lv[l], ix[l], c.pg[l]);
      }
    }
  }

  /** mdb_cursor_del0: item ki has gone from page mp. */
  function Shrunk(m3: Stack, top: nat, mp: Id, ki: nat): Stack
    requires |m3.pg| == |m3.ki|
  {
    if !m3.init || |m3.pg| <= top || m3.pg[top] != mp then m3
    else if m3.ki[top] == ki then m3.(del := true)
    else if m3.ki[top] > ki then m3.(ki := m3.ki[top := m3.ki[top] - 1])
    else m3
  }

  /** mdb_cursor_put: an item has come into page mp at index ki. */
  function Grown(m3: Stack, top: nat, mp: Id, ki: nat): Stack
    requires |m3.pg| == |m3.ki|
  {
    if |m3.pg| > top && m3.pg[top] == mp && m3.ki[top] >= ki then m3.(ki := m3.ki[top := m3.ki[top] + 1]) else m3
  }

  /** Every cursor keeps its item, and one on the deleted item gets the next. */
  lemma ShrunkKeeps(pages: Pages, root: Id, lv: seq<seq<int>>, j: nat, k: nat, c: Stack, ix: seq<nat>)
    requires |lv| >= 2 && Rows(pages, root, lv) && Distinct(lv) && j < |lv[|lv| - 2]|
             && k < |Nodes(pages, lv[|lv| - 2][j])|
    requires Traces(pages, lv, c, ix) && c.init && c.ki[|lv| - 2] <= |Nodes(pages, c.pg[|lv| - 2])|
    ensures var L := |lv| - 2;
            var mp := lv[L][j];
            var pages' := pages[mp := Without(Nodes(pages, mp), k)];
            var p, q := Start(pages, lv[L], j) + k, ix[L + 1];
            var c' := Shrunk(c, L, mp, k);
            && p < |lv[L + 1]|
            && Rows(pages', root, lv[L + 1 := Without(lv[L + 1], p)]) && Distinct(lv[L + 1 := Without(lv[L + 1], p)])
            && Traces(pages', lv[L + 1 := Without(lv[L + 1], p)], c', ix[L + 1 := if q > p then q - 1 else q])
            && c'.ki[L] <= |Nodes(pages', c'.pg[L])|
            && (c.pg[L] != mp || c.ki[L] != k ==> c'.del == c.del)
            && (c.pg[L] == mp && c.ki[L] == k ==> c'.del && c'.ki[L] == k && q == p)
            && (c.ki[L] < |Nodes(pages, c.pg[L])| && q == p ==> c.pg[L] == mp && c.ki[L] == k)
            && (c.ki[L] < |Nodes(pages, c.pg[L])| && q != p ==> c'.ki[L] < |Nodes(pages', c'.pg[L])|)
  {
    hide Joined, Nodes, Distinct, Traces, SameOn, Rows;
    var L := |lv| - 2;
    var row, mp := lv[L], lv[L][j];
    var N := Nodes(pages, mp);
    var pages' := pages[mp := Without(N, k)];
    var b := Start(pages, row, j);
    LeafEdit(pages, root, lv, j, Without(N, k));
    CutSlice(lv[L + 1], b, N, k);
    NewNodes(pages, mp, Without(N, k));
    TraceLink(pages, lv, c, ix, L);
    Places(lv, L, ix[L], L, j);
    JoinedEdit(pages, pages', row, j);
    JoinedAt(pages, row, j);
    if ix[L] < j {
      StartGrows(pages, row, ix[L], j);
    } else if j < ix[L] {
      StartGrows(pages, row, j, ix[L]);
    } else if c.ki[L] < |Nodes(pages, c.pg[L])| && ix[L + 1] == b + k {
      OneParent(pages, row, ix[L], c.ki[L], j, k);
    }
    var c' := Shrunk(c, L, mp, k);
    var q' := if ix[L + 1] > b + k then ix[L + 1] - 1 else ix[L + 1];
    TraceLeaf(pages, pages', lv, lv[L + 1 := Without(lv[L + 1], b + k)], c, ix, c'.ki[L], q');
    FlagsAside(pages', lv[L + 1 := Without(lv[L + 1], b + k)], c.(ki := c.ki[L := c'.ki[L]]), c', ix[L + 1 := q']);
  }

  lemma NewNodes(pages: Pages, id: Id, items: seq<int>)
    ensures Nodes(pages[id := items], id) == items
            && forall x :: x != id ==> Nodes(pages[id := items], x) == Nodes(pages, x)
  {
  }

  /** The flags of a stack do not matter to its path. */
  lemma FlagsAside(pages: Pages, lv: seq<seq<int>>, c: Stack, c': Stack, ix: seq<nat>)
    requires c'.pg == c.pg && c'.ki == c.ki
    ensures Traces(pages, lv, c', ix) == Traces(pages, lv, c, ix)
  {
  }

  lemma CutSlice(s: seq<int>, b: nat, N: seq<int>, k: nat)
    requires b + |N| <= |s| && s[b..b + |N|] == N && k < |N|
    ensures s[..b] + Without(N, k) + s[b + |N|..] == Without(s, b + k)
  {
    assert forall i :: 0 <= i < |N| ==> s[b + i] == N[i];
  }

  lemma GrowSlice(s: seq<int>, b: nat, N: seq<int>, k: nat, x: int)
    requires b + |N| <= |s| && s[b..b + |N|] == N && k <= |N|
    ensures s[..b] + Inserted(N, k, x) + s[b + |N|..] == Inserted(s, b + k, x)
  {
    assert forall i :: 0 <= i < |N| ==> s[b + i] == N[i];
  }

  /** Every cursor keeps its item when another comes in. */
  lemma GrownKeeps(pages: Pages, root: Id, lv: seq<seq<int>>, j: nat, k: nat, x: int, c: Stack, ix: seq<nat>)
    requires |lv| >= 2 && Rows(pages, root, lv) && Distinct(lv) && j < |lv[|lv| - 2]|
             && k <= |Nodes(pages, lv[|lv| - 2][j])|
    requires Traces(pages, lv, c, ix)
    requires ix[|lv| - 2] >= j || c.ki[|lv| - 2] < |Nodes(pages, c.pg[|lv| - 2])|
    ensures var L := |lv| - 2;
            var mp := lv[L][j];
            var pages' := pages[mp := Inserted(Nodes(pages, mp), k, x)];
            var p, q := Start(pages, lv[L], j) + k, ix[L + 1];
            var c' := Grown(c, L, mp, k);
            && p <= |lv[L + 1]|
            && Rows(pages', root, lv[L + 1 := Inserted(lv[L + 1], p, x)])
            && Distinct(lv[L + 1 := Inserted(lv[L + 1], p, x)])
            && Traces(pages', lv[L + 1 := Inserted(lv[L + 1], p, x)], c', ix[L + 1 := if q >= p then q + 1 else q])
            && (c.ki[L] < |Nodes(pages, c.pg[L])| ==> c'.ki[L] < |Nodes(pages', c'.pg[L])|)
            && (c.ki[L] <= |Nodes(pages, c.pg[L])| ==> c'.ki[L] <= |Nodes(pages', c'.pg[L])|)
  {
    hide Joined, Nodes, Distinct, Traces, SameOn, Rows;
    var L := |lv| - 2;
    TraceLink(pages, lv, c, ix, L);
    var row, mp := lv[L], lv[L][j];
    var N := Nodes(pages, mp);
    var pages' := pages[mp := Inserted(N, k, x)];
    var b := Start(pages, row, j);
    LeafEdit(pages, root, lv, j, Inserted(N, k, x));
    GrowSlice(lv[L + 1], b, N, k, x);
    NewNodes(pages, mp, Inserted(N, k, x));
    Places(lv, L, ix[L], L, j);
    JoinedEdit(pages, pages', row, j);
    JoinedAt(pages, row, j);
    if ix[L] < j {
      StartGrows(pages, row, ix[L], j);
    } else if j < ix[L] {
      StartGrows(pages, row, j, ix[L]);
    }
    var c' := Grown(c, L, mp, k);
    var q' := if ix[L + 1] >= b + k then ix[L + 1] + 1 else ix[L + 1];
    TraceLeaf(pages, pages', lv, lv[L + 1 := Inserted(lv[L + 1], b + k, x)], c, ix, c'.ki[L], q');
    FlagsAside(pages', lv[L + 1 := Inserted(lv[L + 1], b + k, x)], c.(ki := c.ki[L := c'.ki[L]]), c', ix[L + 1 := q']);
  }

  // ------------------------------------------ mdb_page_split on other cursors

  /** The nodes of mp from s on have gone to the new page rp on its right;
      mcki is the index of the parent at which mdb_page_split tests. */
  function Torn(m3: Stack, top: nat, mp: Id, rp: Id, s: nat, mn: Stack, parent: Id, mcki: nat): Stack
    requires |m3.pg| == |m3.ki| && |mn.pg| == |mn.ki| >= top > 0
  {
    if |m3.pg| <= top then m3
    else if m3.pg[top] == mp then
      if m3.ki[top] >= s then
        m3.(pg := mn.pg[..top] + [rp] + m3.pg[top + 1..], ki := mn.ki[..top] + [m3.ki[top] - s] + m3.ki[top + 1..])
      else m3
    else if m3.pg[top - 1] == parent && m3.ki[top - 1] >= mcki then m3.(ki := m3.ki[top - 1 := m3.ki[top - 1] + 1])
    else m3
  }

  function TearPage(pages: Pages, mp: Id, rp: Id, s: nat, parent: Id, kp: nat): Pages
    requires s <= |Nodes(pages, mp)| && kp < |Nodes(pages, parent)|
  {
    pages[rp := Nodes(pages, mp)[s..]]
         [mp := Nodes(pages, mp)[..s]]
         [parent := Inserted(Nodes(pages, parent), kp + 1, rp)]
  }

  /** Page j of row L hangs at index kp under page t of row L - 1. */
  ghost predicate Child(pages: Pages, lv: seq<seq<int>>, L: nat, t: nat, kp: nat, j: nat) {
    && 0 < L < |lv| - 1 && t < |lv[L - 1]| && kp < |Nodes(pages, lv[L - 1][t])|
    && j == Start(pages, lv[L - 1], t) + kp && j < |lv[L]|
  }

  ghost predicate Fresh(lv: seq<seq<int>>, id: Id) {
    forall l, i :: 0 <= l < |lv| - 1 && 0 <= i < |lv[l]| ==> lv[l][i] != id
  }

  lemma TornRows(pages: Pages, pages': Pages, root: Id, lv: seq<seq<int>>, L: nat, t: nat, kp: nat, j: nat, rp: Id,
                 row': seq<int>)
    requires Rows(pages, root, lv) && Child(pages, lv, L, t, kp, j) && row' == Inserted(lv[L], j + 1, rp)
    requires Absorbed(pages', pages, row', j) && Without(row', j + 1) == lv[L]
    requires SameOn(pages, pages', lv[L - 1][..t]) && SameOn(pages, pages', lv[L - 1][t + 1..])
    requires Nodes(pages', lv[L - 1][t]) == Inserted(Nodes(pages, lv[L - 1][t]), kp + 1, rp)
    requires forall l :: 0 <= l < |lv| - 1 && l != L && l != L - 1 ==> SameOn(pages, pages', lv[l])
    ensures Rows(pages', root, lv[L := row'])
  {
    hide Joined, Nodes, SameOn, Absorbed;
    JoinedAbsorb(pages', pages, row', j);
    JoinedEdit(pages, pages', lv[L - 1], t);
    JoinedAt(pages, lv[L - 1], t);
    forall l | 0 <= l < |lv| - 1 && l != L && l != L - 1 ensures Joined(pages', lv[l]) == lv[l + 1] {
      JoinedSame(pages, pages', lv[l]);
    }
  }

  lemma TornTree(pages: Pages, root: Id, lv: seq<seq<int>>, L: nat, t: nat, kp: nat, j: nat, rp: Id, s: nat)
    requires Rows(pages, root, lv) && Distinct(lv) && Child(pages, lv, L, t, kp, j) && Fresh(lv, rp)
    requires s <= |Nodes(pages, lv[L][j])|
    ensures var pages' := TearPage(pages, lv[L][j], rp, s, lv[L - 1][t], kp);
            var row' := Inserted(lv[L], j + 1, rp);
            && Rows(pages', root, lv[L := row']) && Distinct(lv[L := row'])
            && Absorbed(pages', pages, row', j) && Without(row', j + 1) == lv[L]
            && SameOn(pages, pages', lv[L - 1][..t]) && SameOn(pages, pages', lv[L - 1][t + 1..])
            && Nodes(pages', lv[L - 1][t]) == Inserted(Nodes(pages, lv[L - 1][t]), kp + 1, rp)
            && forall l :: 0 <= l < |lv| - 1 && l != L && l != L - 1 ==> SameOn(pages, pages', lv[l])
  {
    hide Joined, Nodes;
    var mp, P := lv[L][j], lv[L - 1][t];
    var pages' := TearPage(pages, mp, rp, s, P, kp);
    var row' := Inserted(lv[L], j + 1, rp);
    var lv' := lv[L := row'];
    Places(lv, L, j, L - 1, t);
    TornNodes(pages, mp, rp, s, P, kp);
    var before := pages[rp := Nodes(pages', rp)];
    NewNodes(pages, rp, Nodes(pages', rp));
    forall l | 0 <= l < |lv| - 1 ensures SameOn(pages, before, lv[l]) {
    }
    MergeElsewhere(before, pages', lv, L, t, j);
    assert Without(row', j + 1) == lv[L];
    assert row'[..j] == lv[L][..j] && row'[j + 2..] == lv[L][j + 1..];
    SameThrough(pages, before, pages', lv[L][..j]);
    SameThrough(pages, before, pages', lv[L][j + 1..]);
    SameThrough(pages, before, pages', lv[L - 1][..t]);
    SameThrough(pages, before, pages', lv[L - 1][t + 1..]);
    TornRows(pages, pages', root, lv, L, t, kp, j, rp, row');
    DistinctWith(lv, L, j + 1, rp);
  }

  lemma TornNodes(pages: Pages, mp: Id, rp: Id, s: nat, parent: Id, kp: nat)
    requires mp != parent && rp != mp && rp != parent && s <= |Nodes(pages, mp)| && kp < |Nodes(pages, parent)|
    ensures var pages' := TearPage(pages, mp, rp, s, parent, kp);
            && Nodes(pages', mp) == Nodes(pages, mp)[..s] && Nodes(pages', rp) == Nodes(pages, mp)[s..]
            && Nodes(pages', mp) + Nodes(pages', rp) == Nodes(pages, mp)
            && Nodes(pages', parent) == Inserted(Nodes(pages, parent), kp + 1, rp)
            && Only(pages[rp := Nodes(pages', rp)], pages', {mp, parent})
  {
  }

  lemma SameThrough(pages: Pages, between: Pages, pages': Pages, row: seq<Id>)
    requires SameOn(between, pages', row)
             && forall i :: 0 <= i < |row| ==> Nodes(between, row[i]) == Nodes(pages, row[i])
    ensures SameOn(pages, pages', row) && SameOn(pages', pages, row)
  {
  }

  lemma DistinctWith(lv: seq<seq<int>>, L: nat, j: nat, id: Id)
    requires Distinct(lv) && Fresh(lv, id) && L < |lv| - 1 && j <= |lv[L]|
    ensures Distinct(lv[L := Inserted(lv[L], j, id)])
  {
    var lv' := lv[L := Inserted(lv[L], j, id)];
    forall l, i, m, k | 0 <= l < |lv'| - 1 && 0 <= i < |lv'[l]| && 0 <= m < |lv'| - 1 && 0 <= k < |lv'[m]|
        && lv'[l][i] == lv'[m][k]
      ensures l == m && i == k
    {
      var i0 := if l == L && i > j then i - 1 else i;
      var k0 := if m == L && k > j then k - 1 else k;
      assert (l == L && i == j) || lv'[l][i] == lv[l][i0];
      assert (m == L && k == j) || lv'[m][k] == lv[m][k0];
    }
  }

  /** mn is the acting cursor led to the new page: mdb_cursor_copy and the step
      to the next index of the parent. */
  ghost predicate LedRight(mn: Stack, mc: Stack, L: nat, kp: nat) {
    && |mn.pg| == |mn.ki| >= L > 0 && |mc.pg| == |mc.ki| >= L
    && mn.pg[..L] == mc.pg[..L] && mn.ki[..L] == mc.ki[..L - 1] + [kp + 1]
  }

  /** A cursor whose item went to the new page. */
  lemma TornMoves(pages: Pages, root: Id, lv: seq<seq<int>>, L: nat, t: nat, kp: nat, j: nat, rp: Id, s: nat,
                  mn: Stack, mc: Stack, mix: seq<nat>, c: Stack, ix: seq<nat>, mcki: nat)
    requires Rows(pages, root, lv) && Distinct(lv) && Child(pages, lv, L, t, kp, j) && Fresh(lv, rp)
    requires s <= |Nodes(pages, lv[L][j])| && Traces(pages, lv, mc, mix) && mix[L - 1] == t
             && mc.pg[L - 1] == lv[L - 1][t]
    requires LedRight(mn, mc, L, kp) && Traces(pages, lv, c, ix) && c.pg[L] == lv[L][j] && c.ki[L] >= s
    ensures var P := lv[L - 1][t];
            var pages' := TearPage(pages, lv[L][j], rp, s, P, kp);
            var c' := Torn(c, L, lv[L][j], rp, s, mn, P, mcki);
            && Traces(pages', lv[L := Inserted(lv[L], j + 1, rp)], c', mix[..L] + [j + 1] + ix[L + 1..])
            && (c.ki[L] < |Nodes(pages, c.pg[L])| ==> c'.ki[L] < |Nodes(pages', c'.pg[L])|)
            && (c.ki[L] <= |Nodes(pages, c.pg[L])| ==> c'.ki[L] <= |Nodes(pages', c'.pg[L])|)
  {
    hide Joined, Nodes, Distinct, SameOn, Rows, Absorbed;
    var mp, P := lv[L][j], lv[L - 1][t];
    var pages' := TearPage(pages, mp, rp, s, P, kp);
    var row' := Inserted(lv[L], j + 1, rp);
    var lv' := lv[L := row'];
    TornTree(pages, root, lv, L, t, kp, j, rp, s);
    Places(lv, L, j, L - 1, t);
    TornNodes(pages, mp, rp, s, P, kp);
    TraceLink(pages, lv, c, ix, L);
    TraceLink(pages, lv, mc, mix, L - 1);
    Places(lv, L, ix[L], L, j);
    JoinedEdit(pages, pages', lv[L - 1], t);
    StartAbsorb(pages', pages, row', j, j);
    JoinedAt(pages', row', j);
    var c', ix' := Torn(c, L, mp, rp, s, mn, P, mcki), mix[..L] + [j + 1] + ix[L + 1..];
    assert c'.pg[L] == rp && c'.ki[L] == c.ki[L] - s;
    assert c'.pg[L - 1] == mn.pg[..L][L - 1] == mc.pg[L - 1] && c'.ki[L - 1] == mn.ki[..L][L - 1] == kp + 1;
    forall l | 0 <= l < |lv| - 1
      ensures Link(pages', lv'[l], ix'[l], c'.pg[l], c'.ki[l], ix'[l + 1])
              && (l + 2 < |lv| ==> c'.ki[l] < |Nodes(pages', c'.pg[l])|)
    {
      if l < L - 1 {
        assert c'.pg[l] == mn.pg[..L][l] == mc.pg[l] && c'.ki[l] == mn.ki[..L][l] == mc.ki[l];
        TraceLink(pages, lv, mc, mix, l);
        LinkSame(pages, pages', lv[l], mix[l], mc.pg[l]);
        assert lv'[l] == lv[l] && ix'[l] == mix[l];
        assert Link(pages', lv'[l], ix'[l], c'.pg[l], c'.ki[l], ix'[l + 1]);
      } else if l > L {
        TraceLink(pages, lv, c, ix, l);
        LinkSame(pages, pages', lv[l], ix[l], c.pg[l]);
        assert lv'[l] == lv[l] && ix'[l] == ix[l];
        assert Link(pages', lv'[l], ix'[l], c'.pg[l], c'.ki[l], ix'[l + 1]);
      } else if l == L {
        TraceLink(pages, lv, c, ix, L);
        assert Link(pages', lv'[L], ix'[L], c'.pg[L], c'.ki[L], ix'[L + 1]);
      } else {
        assert Link(pages', lv'[L - 1], ix'[L - 1], c'.pg[L - 1], c'.ki[L - 1], ix'[L]);
      }
    }
  }

  /** A cursor whose page stays what it is. */
  lemma TornStays(pages: Pages, root: Id, lv: seq<seq<int>>, L: nat, t: nat, kp: nat, j: nat, rp: Id, s: nat,
                  mn: Stack, c: Stack, ix: seq<nat>, mcki: nat)
    requires Rows(pages, root, lv) && Distinct(lv) && Child(pages, lv, L, t, kp, j) && Fresh(lv, rp)
    requires s <= |Nodes(pages, lv[L][j])| && |mn.pg| == |mn.ki| >= L && kp <= mcki <= kp + 1
    requires Traces(pages, lv, c, ix) && (c.pg[L] == lv[L][j] ==> c.ki[L] < s)
    ensures var P := lv[L - 1][t];
            var pages' := TearPage(pages, lv[L][j], rp, s, P, kp);
            var c' := Torn(c, L, lv[L][j], rp, s, mn, P, mcki);
            && Traces(pages', lv[L := Inserted(lv[L], j + 1, rp)], c', ix[L := if ix[L] > j then ix[L] + 1 else ix[L]])
            && (c.ki[L] < |Nodes(pages, c.pg[L])| ==> c'.ki[L] < |Nodes(pages', c'.pg[L])|)
            && (c.ki[L] <= |Nodes(pages, c.pg[L])| ==> c'.ki[L] <= |Nodes(pages', c'.pg[L])|)
  {
    hide Joined, Nodes, Distinct, Traces, SameOn, Rows, Absorbed, TearPage, Torn, Inserted;
    var mp, P := lv[L][j], lv[L - 1][t];
    var pages' := TearPage(pages, mp, rp, s, P, kp);
    var row' := Inserted(lv[L], j + 1, rp);
    TornTree(pages, root, lv, L, t, kp, j, rp, s);
    Places(lv, L, j, L - 1, t);
    TornNodes(pages, mp, rp, s, P, kp);
    TraceLink(pages, lv, c, ix, L);
    TraceLink(pages, lv, c, ix, L - 1);
    Places(lv, L, ix[L], L, j);
    Places(lv, L - 1, ix[L - 1], L - 1, t);
    StartAbsorb(pages', pages, row', j, ix[L]);
    TornLink(pages, pages', lv, L, t, kp, j, rp, c, ix);
    TornPage(pages, pages', lv, L, t, kp, j, rp, s, c, ix);
    var c' := Torn(c, L, mp, rp, s, mn, P, mcki);
    var i := if ix[L] > j then ix[L] + 1 else ix[L];
    TornShape(c, L, mp, rp, s, mn, P, mcki);
    TraceLocal(pages, pages', lv, lv[L := row'], L, c, ix, c'.pg[L], c'.ki[L], c'.ki[L - 1], i);
  }

  lemma TornShape(c: Stack, L: nat, mp: Id, rp: Id, s: nat, mn: Stack, P: Id, mcki: nat)
    requires |c.pg| == |c.ki| > L > 0 && |mn.pg| == |mn.ki| >= L && (c.pg[L] == mp ==> c.ki[L] < s)
    ensures var c' := Torn(c, L, mp, rp, s, mn, P, mcki);
            && c'.pg == c.pg && c'.ki[L] == c.ki[L]
            && c'.ki[L - 1] == (if c.pg[L] != mp && c.pg[L - 1] == P && c.ki[L - 1] >= mcki then c.ki[L - 1] + 1
                                else c.ki[L - 1])
            && c' == c.(pg := c.pg[L := c'.pg[L]], ki := c.ki[L - 1 := c'.ki[L - 1]][L := c'.ki[L]])
  {
  }

  lemma TornLink(pages: Pages, pages': Pages, lv: seq<seq<int>>, L: nat, t: nat, kp: nat, j: nat, rp: Id, c: Stack,
                 ix: seq<nat>)
    requires Child(pages, lv, L, t, kp, j) && Traces(pages, lv, c, ix) && Distinct(lv)
    requires SameOn(pages, pages', lv[L - 1][..t]) && SameOn(pages, pages', lv[L - 1][t + 1..])
    requires Nodes(pages', lv[L - 1][t]) == Inserted(Nodes(pages, lv[L - 1][t]), kp + 1, rp)
    requires |c.pg| == |c.ki| == |lv| - 1 && |ix| == |lv|
    ensures var k := c.ki[L - 1];
            var up := if c.pg[L - 1] == lv[L - 1][t] && k > kp then k + 1 else k;
            && Link(pages', lv[L - 1], ix[L - 1], c.pg[L - 1], up, if ix[L] > j then ix[L] + 1 else ix[L])
            && up < |Nodes(pages', c.pg[L - 1])|
            && (c.pg[L - 1] == lv[L - 1][t] && k == kp ==> ix[L] == j)
  {
    hide Joined, Nodes, Distinct, Traces, SameOn;
    TraceLink(pages, lv, c, ix, L - 1);
    var row, t2 := lv[L - 1], ix[L - 1];
    JoinedEdit(pages, pages', row, t);
    Places(lv, L - 1, t, L - 1, t2);
    if t2 < t {
      StartGrows(pages, row, t2, t);
      SameAt(pages, pages', row, t, t2);
    } else if t2 > t {
      StartGrows(pages, row, t, t2);
      SameAt(pages, pages', row, t, t2);
    }
  }

  lemma TornPage(pages: Pages, pages': Pages, lv: seq<seq<int>>, L: nat, t: nat, kp: nat, j: nat, rp: Id, s: nat,
                 c: Stack, ix: seq<nat>)
    requires Distinct(lv) && Child(pages, lv, L, t, kp, j) && Fresh(lv, rp) && Traces(pages, lv, c, ix)
    requires s <= |Nodes(pages, lv[L][j])| && pages' == TearPage(pages, lv[L][j], rp, s, lv[L - 1][t], kp)
    ensures |c.pg| == |lv| - 1 && (c.pg[L] != lv[L][j] ==> Nodes(pages', c.pg[L]) == Nodes(pages, c.pg[L]))
  {
    hide Joined, Distinct, Traces;
    TraceLink(pages, lv, c, ix, L);
    Places(lv, L, ix[L], L - 1, t);
  }
}
