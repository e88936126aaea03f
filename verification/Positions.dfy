/** Where a cursor stands in the sequence of items, or in a row of pages. */
module Positions {
  import opened Sequences
  import opened Levels
  import opened Tracking

  /** The cursor is on item q, or past the last one when q is their number. */
  ghost predicate At(pages: Pages, lv: seq<seq<int>>, c: Stack, q: nat) { exists ix :: AtIx(pages, lv, c, q, ix) }

  ghost predicate AtIx(pages: Pages, lv: seq<seq<int>>, c: Stack, q: nat, ix: seq<nat>) {
    && |c.pg| == |c.ki| == |lv| - 1 >= 1 && |ix| == |lv| && ix[|lv| - 1] == q
    && Traces(pages, lv, c, ix)
    && c.ki[|c.ki| - 1] <= |Nodes(pages, c.pg[|c.pg| - 1])|
    && (Inside(pages, c) || ix[|lv| - 2] + 1 == |lv[|lv| - 2]|)
  }

  /** A cursor on an item finds it in its leaf, and one on no item is past all. */
  lemma AtItem(pages: Pages, root: Id, lv: seq<seq<int>>, c: Stack, q: nat)
    requires Rows(pages, root, lv) && At(pages, lv, c, q)
    ensures |c.pg| == |c.ki| == |lv| - 1 >= 1
    ensures Inside(pages, c) <==> q < |lv[|lv| - 1]|
    ensures q <= |lv[|lv| - 1]|
    ensures Inside(pages, c) ==> Nodes(pages, c.pg[|c.pg| - 1])[c.ki[|c.ki| - 1]] == lv[|lv| - 1][q]
  {
    hide Joined, Nodes, Traces;
    var ix :| AtIx(pages, lv, c, q, ix);
    TraceLink(pages, lv, c, ix, |lv| - 2);
    JoinedAt(pages, lv[|lv| - 2], ix[|lv| - 2]);
    if Inside(pages, c) {
      NodeAt(pages, lv[|lv| - 2], ix[|lv| - 2], c.ki[|c.ki| - 1]);
    } else {
      WholeRow(pages, lv, root, |lv| - 2);
    }
  }

  lemma WholeRow(pages: Pages, lv: seq<seq<int>>, root: Id, l: nat)
    requires Rows(pages, root, lv) && l < |lv| - 1 && |lv[l]| > 0
    ensures |lv[l + 1]| == Start(pages, lv[l], |lv[l]| - 1) + |Nodes(pages, lv[l][|lv[l]| - 1])|
  {
    hide Nodes;
    JoinedAt(pages, lv[l], |lv[l]| - 1);
    assert lv[l][|lv[l]|..] == [];
  }

  ghost predicate Placed(pages: Pages, lv: seq<seq<int>>, cursors: seq<Stack>, places: seq<nat>) {
    |places| == |cursors| && forall i :: 0 <= i < |cursors| && cursors[i].init ==> At(pages, lv, cursors[i], places[i])
  }

  // ------------------------------------------------- the upper part of a stack

  /** The first n pages of a stack. */
  function Top(c: Stack, n: nat): Stack
    requires |c.pg| == |c.ki| >= n
  {
    c.(pg := c.pg[..n], ki := c.ki[..n])
  }

  /** c' leads on below its first n' pages as c does below its first n. */
  predicate SameBelow(c: Stack, n: nat, c': Stack, n': nat) {
    && |c.pg| == |c.ki| >= n && |c'.pg| == |c'.ki| >= n'
    && c'.pg[n'..] == c.pg[n..] && c'.ki[n'..] == c.ki[n..]
    && c'.init == c.init && c'.eof == c.eof && c'.del == c.del
  }

  /** The cursor comes through place q of the last of these rows. */
  ghost predicate On(pages: Pages, rows: seq<seq<int>>, c: Stack, q: nat) {
    |rows| >= 2 && |c.pg| == |c.ki| >= |rows| - 1 && At(pages, rows, Top(c, |rows| - 1), q)
  }
}
