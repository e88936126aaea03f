/** Cursors over a plain or a DUPSORT database: an MDB_cursor together with the
    MDB_xcursor that walks the values of the current key. */
module DbCursors {
  import opened Options
  import opened Tree
  import opened TreeCursor
  import opened PairSeq

  datatype Reply = Found(pair: Pair) | Nothing | BadCall | Incompatible

  // ---------------------------------------------------- items and pairs

  /** Pair p is value j of item i. */
  ghost predicate Locates(s: seq<Item>, i: nat, j: nat, p: nat) {
    && i < |s| && j < |Values(s[i].dups)|
    && p == Start(s, i) + j < |Pairs(s)|
    && Pairs(s)[p] == Pair(s[i].key, Values(s[i].dups)[j])
  }

  lemma Located(s: seq<Item>, i: nat, j: nat)
    requires i < |s| && j < |Values(s[i].dups)|
    ensures Locates(s, i, j, Start(s, i) + j)
  {
    PairAt(s, i, j);
  }

  /** The pair after the last value of an item is the first of the next one. */
  lemma NextItem(s: seq<Item>, i: nat, j: nat, p: nat, dupsort: bool)
    requires Locates(s, i, j, p) && j + 1 == |Values(s[i].dups)| && ItemsOk(s, dupsort) && Sorted(s)
    ensures i + 1 == |s| ==> p + 1 == |Pairs(s)|
    ensures i + 1 < |s| ==> Locates(s, i + 1, 0, p + 1) && Pairs(s)[p + 1].key != Pairs(s)[p].key
  {
    StartNext(s, i);
    StartEnds(s);
    if i + 1 < |s| {
      ValuesExist(s[i + 1], dupsort);
      Located(s, i + 1, 0);
    }
  }

  lemma PrevItem(s: seq<Item>, i: nat, p: nat, dupsort: bool)
    requires Locates(s, i, 0, p) && ItemsOk(s, dupsort)
    ensures i == 0 ==> p == 0
    ensures i > 0 ==> p > 0 && |Values(s[i - 1].dups)| > 0 && Locates(s, i - 1, |Values(s[i - 1].dups)| - 1, p - 1)
  {
    hide Pairs, PairsOf, Flat, Fits, SubTree;
    StartEnds(s);
    if i > 0 {
      StartNext(s, i - 1);
      ValuesExist(s[i - 1], dupsort);
      Located(s, i - 1, |Values(s[i - 1].dups)| - 1);
    }
  }

  class DbCursor {
    const root: Option<Tree>
    const dupsort: bool
    const m: Cursor
    var x: Cursor

    constructor (root: Option<Tree>, dupsort: bool)
      requires Fits(root) && (root.Some? ==> ItemsOk(Flat(root.value), dupsort))
      ensures this.root == root && this.dupsort == dupsort && Valid() && !m.init && fresh(m) && fresh(x)
    {
      this.root, this.dupsort := root, dupsort;
      m := new Cursor(root);
      x := new Cursor(None);
    }

    ghost function Items(): seq<Item> { if root.None? then [] else Flat(root.value) }

    ghost predicate Valid()
      reads this, m, x
    {
      && m != x && m.root == root && m.Valid() && x.Valid()
      && ItemsOk(Items(), dupsort)
    }

    /** The main cursor is on item i. */
    ghost predicate AtItem(i: nat)
      reads this, m, x
    {
      Valid() && m.On(i) && i < |Items()|
    }

    /** The value cursor, where the item has one, is on value j. */
    ghost predicate At(i: nat, j: nat)
      reads this, m, x
    {
      && AtItem(i)
      && var d := Items()[i].dups;
         && j < |Values(d)|
         && (!d.Single? ==> x.root == Some(SubTree(d)) && x.On(j))
    }

    /** The cursor stands on pair p, and C_EOF is set on the last pair only. */
    ghost predicate On(p: nat)
      reads this, m, x
    {
      && m.init && m.AtLeaf()
      && (exists j: nat :: At(m.Pos(), j) && Locates(Items(), m.Pos(), j, p))
      && (m.eof ==> p + 1 == |Pairs(Items())|)
    }

    ghost predicate Standing()
      reads this, m, x
    {
      exists p: nat :: On(p)
    }

    /** The pair the cursor stands on. */
    ghost function Place(): (p: nat)
      requires Standing()
      reads this, m, x
      ensures On(p)
    {
      var p: nat :| On(p);
      p
    }

    lemma OnePlace(p: nat, q: nat)
      requires On(p) && On(q)
      ensures p == q
    {
    }

    lemma Arrived(j: nat)
      requires m.init && m.AtLeaf() && At(m.Pos(), j)
      requires m.eof ==> Start(Items(), m.Pos()) + j + 1 == |Pairs(Items())|
      ensures On(Start(Items(), m.Pos()) + j)
    {
      hide Pairs, Values, Flat, PairsOf, Shape, Separated;
      Located(Items(), m.Pos(), j);
    }

    /** mdb_xcursor_init1: a new cursor over the values of an item. */
    method InitValues(d: Dups)
      requires !d.Single? && Fits(Some(SubTree(d)))
      modifies this`x
      ensures fresh(x) && x.root == Some(SubTree(d)) && x.Valid()
    {
      if d.SubDb? {
        x := new Cursor(Some(d.tree));
      } else {
        x := new Cursor.InSubPage(Leaf(d.values));
      }
    }

    /** The first or the last value of the item the value cursor is over. */
    method EnterValue(d: Dups, last: bool) returns (value: int)
      requires x.Valid() && !d.Single? && x.root == Some(SubTree(d)) && |Values(d)| > 0
      modifies x
      ensures x.Valid() && x.On(if last then |Values(d)| - 1 else 0)
      ensures value == Values(d)[if last then |Values(d)| - 1 else 0]
    {
      hide Flat, Shape, Separated, Sorted, Links, Pre, Post;
      var r;
      if last {
        r := x.Last();
      } else {
        r := x.First();
      }
      value := r.item.key;
    }

    /** mdb_xcursor_init1, and the first or last value of the item. */
    method Enter(last: bool) returns (pair: Pair)
      requires m.init && m.AtLeaf() && AtItem(m.Pos())
      modifies this`x
      ensures var i := m.Pos(); var v := Values(Items()[i].dups);
              && |v| > 0 && var j := if last then |v| - 1 else 0;
              At(i, j) && pair == Pair(Items()[i].key, v[j])
      ensures x == old(x) || fresh(x)
    {
      hide Flat, Shape, Separated, Sorted, Links, Pre, Post;
      var leaf := m.Here();
      ValuesExist(leaf, dupsort);
      if leaf.dups.Single? {
        return Pair(leaf.key, leaf.dups.data);
      }
      InitValues(leaf.dups);
      var value := EnterValue(leaf.dups, last);
      pair := Pair(leaf.key, value);
    }

    /** mdb_cursor_first. */
    method First() returns (r: Reply)
      requires Valid()
      modifies this`x, m, x
      ensures x == old(x) || fresh(x)
      ensures Valid()
      ensures var P := Pairs(Items());
              if P == [] then r == Nothing && !m.init else r == Found(P[0]) && On(0) && !m.eof
    {
      hide Flat, Shape, Separated, Sorted, Links, Pre, Post, Pairs, Values;
      x.init, x.eof := false, false;
      var c := m.First();
      StartEnds(Items());
      FirstPair(Items(), dupsort);
      if c.NotFound? {
        return Nothing;
      }
      var pair := Enter(false);
      Arrived(0);
      r := Found(pair);
    }

    /** On the last value of the last item. */
    ghost predicate AtEnd()
      reads this, m, x
    {
      var s := Items();
      s != [] && var v := Values(s[|s| - 1].dups); v != [] && At(|s| - 1, |v| - 1)
    }

    /** mdb_cursor_last. */
    method Last() returns (r: Reply)
      requires Valid()
      modifies this`x, m, x
      ensures x == old(x) || fresh(x)
      ensures Valid()
      ensures var P := Pairs(Items());
              if P == [] then r == Nothing && !m.init && Items() == []
              else r == Found(P[|P| - 1]) && On(|P| - 1) && m.eof && AtEnd()
    {
      hide Flat, Shape, Separated, Sorted, Links, Pre, Post, Pairs, Values;
      x.init, x.eof := false, false;
      var c := m.Last();
      StartEnds(Items());
      FirstPair(Items(), dupsort);
      if c.NotFound? {
        return Nothing;
      }
      LastPair(Items(), dupsort);
      var pair := Enter(true);
      Arrived(|Values(Items()[m.Pos()].dups)| - 1);
      r := Found(pair);
    }

    /** The item under the main cursor. */
    method Current() returns (leaf: Item, ghost j: nat, ghost p: nat)
      requires Standing()
      ensures At(m.Pos(), j) && Locates(Items(), m.Pos(), j, p) && On(p) && leaf == Items()[m.Pos()]
    {
      p :| On(p);
      j :| At(m.Pos(), j) && Locates(Items(), m.Pos(), j, p);
      leaf := m.Here();
    }

    /** The part of mdb_cursor_next that moves among the values of one key. */
    method NextValue(leaf: Item, dup: bool, ghost j: nat, ghost p: nat) returns (r: Reply, done: bool)
      requires m.init && m.AtLeaf() && At(m.Pos(), j) && Locates(Items(), m.Pos(), j, p) && leaf == Items()[m.Pos()]
               && !m.eof
      modifies x
      ensures Valid()
      ensures done && r.Found? ==>
                Locates(Items(), m.Pos(), j + 1, p + 1) && On(p + 1) && r == Found(Pairs(Items())[p + 1])
      ensures r.Nothing? || (done && r.Found?)
      ensures r.Nothing? ==> At(m.Pos(), j) && On(p) && j + 1 == |Values(leaf.dups)| && (done <==> dup && dupsort)
    {
      hide Flat, Shape, Separated, Links, Pre, Post, Pairs, Values;
      LeafEnds(Items(), m.Pos(), j, p, dupsort);
      if dupsort {
        if !leaf.dups.Single? {
          var c := x.Next();
          if c.Success? {
            Located(Items(), m.Pos(), j + 1);
            return Found(Pair(leaf.key, c.item.key)), true;
          }
        } else {
          x.init, x.eof := false, false;
        }
      }
      r, done := Nothing, dup && dupsort;
    }

    /** In a plain database a pair is an item. */
    lemma PlainPlace(i: nat)
      requires Valid() && !dupsort && i < |Items()|
      ensures Start(Items(), i) == i && |Pairs(Items())| == |Items()|
              && Values(Items()[i].dups) == [Items()[i].dups.data]
      ensures Items()[i].dups.Single? && Locates(Items(), i, 0, i)
    {
      hide Flat, Shape, Separated, Links, Pre, Post;
      PlainPairs(Items());
      PlainPairs(Items()[..i]);
      Located(Items(), i, 0);
    }

    /** The pair a cursor stands on in a plain database. */
    lemma PlainStands()
      requires Valid() && !dupsort && Standing()
      ensures m.init && m.AtLeaf() && !m.Past() && m.Pos() == Place() < |Items()| && |Pairs(Items())| == |Items()|
    {
      hide Flat, Shape, Separated, Links, Pre, Post, Pairs, Values;
      ghost var p: nat :| On(p);
      OnePlace(p, Place());
      PlainPlace(m.Pos());
    }

    /** mdb_cursor_next in a plain database. */
    method NextPlain() returns (r: Reply)
      requires Valid() && m.init && !dupsort
      modifies this`x, m, x
      ensures x == old(x) || fresh(x)
      ensures Valid()
      ensures var P, n := Pairs(Items()), old(m.Pos() + if m.Past() then 0 else 1);
              && n <= |P|
              && if n < |P| then r == Found(P[n]) && On(n)
                 else r == Nothing && m.init && m.pg == old(m.pg) && m.ki == old(m.ki) && m.snum == old(m.snum) && m.eof
    {
      hide Flat, Shape, Separated, Links, Pre, Post, Pairs, Values;
      PlainPairs(Items());
      var stop := m.StopAtEof();
      if stop {
        return Nothing;
      }
      var found := m.Advance();
      if !found {
        return Nothing;
      }
      PlainPlace(m.Pos());
      var pair := Enter(false);
      Arrived(0);
      r := Found(pair);
    }

    /** The same; at the end a cursor stays on the last pair. */
    method NextStill() returns (r: Reply)
      requires Valid() && m.init && !dupsort
      modifies this`x, m, x
      ensures x == old(x) || fresh(x)
      ensures Valid()
      ensures var P, n := Pairs(Items()), old(m.Pos() + if m.Past() then 0 else 1);
              n <= |P| && if n < |P| then r == Found(P[n]) && On(n) else r == Nothing
      ensures old(Standing()) ==> old(Place() == m.Pos() && !m.Past()) && (r.Nothing? ==> On(old(Place())))
    {
      hide Flat, Shape, Separated, Links, Pre, Post, Pairs, Values;
      ghost var standing, n := Standing(), m.Pos();
      if standing {
        PlainStands();
      }
      r := NextPlain();
      if standing && r.Nothing? {
        PlainPlace(n);
        assert m.Pos() == n && At(n, 0);
        Arrived(0);
      }
    }

    /** The same, for value j of the item the cursor is on, which is pair p. */
    method NextFrom(leaf: Item, dup: bool, ghost j: nat, ghost p: nat) returns (r: Reply)
      requires dupsort && On(p) && At(m.Pos(), j) && Locates(Items(), m.Pos(), j, p) && leaf == Items()[m.Pos()]
      modifies this`x, m, x
      ensures x == old(x) || fresh(x)
      ensures Valid() && p < |Pairs(Items())|
      ensures var P := Pairs(Items());
              if p + 1 < |P| && (dup ==> P[p + 1].key == P[p].key) then r == Found(P[p + 1]) && On(p + 1)
              else r == Nothing && On(p)
    {
      hide Flat, Shape, Separated, Links, Pre, Post, Pairs, Values;
      LeafEnds(Items(), m.Pos(), j, p, dupsort);
      var stop := m.StopAtEof();
      if stop {
        return Nothing;
      }
      var done;
      r, done := NextValue(leaf, dup, j, p);
      if !done {
        r := NextLeaf(j, p);
      }
    }

    /** mdb_cursor_next from a pair of a DUPSORT database. */
    method NextDup(dup: bool) returns (r: Reply)
      requires Standing() && dupsort
      modifies this`x, m, x
      ensures x == old(x) || fresh(x)
      ensures Valid()
      ensures var P, n := Pairs(Items()), old(Place()) + 1;
              && n <= |P|
              && if n < |P| && (dup ==> P[n].key == P[n - 1].key) then r == Found(P[n]) && On(n)
                 else r == Nothing && On(n - 1)
    {
      hide Flat, Shape, Separated, Links, Pre, Post, Pairs, Values, DbCursor.Standing, DbCursor.Place, DbCursor.On,
           DbCursor.At;
      var leaf;
      ghost var j, p;
      leaf, j, p := Current();
      OnePlace(p, Place());
      r := NextFrom(leaf, dup, j, p);
    }

    /** mdb_cursor_next with MDB_NEXT, or MDB_NEXT_DUP. */
    method Next(dup: bool) returns (r: Reply)
      requires Valid() && (m.init && dupsort ==> Standing())
      modifies this`x, m, x
      ensures x == old(x) || fresh(x)
      ensures Valid()
      ensures old(!m.init) ==>
                var P := Pairs(Items()); if P == [] then r == Nothing && !m.init else r == Found(P[0]) && On(0)
      ensures old(m.init && Standing()) ==>
                var P, n := Pairs(Items()), old(Place()) + 1;
                && n <= |P|
                && if n < |P| && (dup && dupsort ==> P[n].key == P[n - 1].key) then r == Found(P[n]) && On(n)
                   else r == Nothing && On(n - 1)
      ensures old(m.init && !Standing()) ==>
                var P, n := Pairs(Items()), old(m.Pos() + if m.Past() then 0 else 1);
                n <= |P| && if n < |P| then r == Found(P[n]) && On(n) else r == Nothing
    {
      hide Flat, Shape, Separated, Links, Pre, Post, Pairs, Values;
      if !m.init {
        r := First();
        return;
      }
      if !dupsort {
        r := NextStill();
        return;
      }
      r := NextDup(dup);
    }

    /** The part of mdb_cursor_next that moves to the next key. */
    method NextLeaf(ghost j: nat, ghost p: nat) returns (r: Reply)
      requires m.init && m.AtLeaf() && At(m.Pos(), j) && Locates(Items(), m.Pos(), j, p) && !m.eof
      requires j + 1 == |Values(Items()[m.Pos()].dups)|
      modifies this`x, m
      ensures x == old(x) || fresh(x)
      ensures Valid() && p < |Pairs(Items())|
      ensures if p + 1 < |Pairs(Items())| then r == Found(Pairs(Items())[p + 1]) && On(p + 1) else r == Nothing && On(p)
    {
      hide Flat, Shape, Separated, Links, Pre, Post, Pairs, Values;
      LeafEnds(Items(), m.Pos(), j, p, dupsort);
      ghost var i := m.Pos();
      var found := m.Advance();
      if !found {
        assert m.Pos() == i && AtItem(i);
        assert At(m.Pos(), j);
        assert p + 1 == |Pairs(Items())|;
        return Nothing;
      }
      var pair := Enter(false);
      r := Found(pair);
    }

    /** The part of mdb_cursor_prev that moves among the values of one key. */
    method PrevValue(leaf: Item, ghost j: nat, ghost p: nat) returns (r: Reply)
      requires m.init && m.AtLeaf() && At(m.Pos(), j) && Locates(Items(), m.Pos(), j, p) && leaf == Items()[m.Pos()]
      modifies m`eof, x
      ensures Valid() && !m.eof
      ensures p < |Pairs(Items())|
      ensures r.Found? ==> p > 0 && On(p - 1) && r == Found(Pairs(Items())[p - 1])
      ensures r.Nothing? || r.Found?
      ensures r.Nothing? ==> j == 0 && At(m.Pos(), 0) && m.Pos() == old(m.Pos())
    {
      hide Flat, Shape, Separated, Links, Pre, Post, Pairs, Values;
      LeafEnds(Items(), m.Pos(), j, p, dupsort);
      ghost var i := m.Pos();
      if dupsort {
        if !leaf.dups.Single? {
          var c := x.Prev();
          if c.Success? {
            m.eof := false;
            Located(Items(), i, j - 1);
            assert At(m.Pos(), j - 1);
            return Found(Pair(leaf.key, c.item.key));
          }
        } else {
          x.init, x.eof := false, false;
        }
      }
      m.eof := false;
      r := Nothing;
    }

    /** mdb_cursor_prev in a plain database. */
    method PrevPlain() returns (r: Reply)
      requires Valid() && m.init && !dupsort
      modifies this`x, m, x
      ensures x == old(x) || fresh(x)
      ensures Valid() && !m.eof
      ensures var P, n := Pairs(Items()), old(m.Pos());
              && n <= |P|
              && if n > 0 then r == Found(P[n - 1]) && On(n - 1)
                 else r == Nothing && m.init && m.pg == old(m.pg) && m.ki == old(m.ki) && m.snum == old(m.snum)
    {
      hide Flat, Shape, Separated, Links, Pre, Post, Pairs, Values;
      PlainPairs(Items());
      m.PosBounded();
      m.eof := false;
      var found := m.Retreat();
      if !found {
        return Nothing;
      }
      PlainPlace(m.Pos());
      var pair := Enter(true);
      Arrived(0);
      r := Found(pair);
    }

    /** From behind the last item to its last value. */
    method BackToLast() returns (r: Reply)
      requires Valid() && m.init && m.Pos() == |Items()| > 0
      modifies this`x, m, x
      ensures x == old(x) || fresh(x)
      ensures Valid() && |Pairs(Items())| > 0 && r == Found(Pairs(Items())[|Pairs(Items())| - 1])
              && On(|Pairs(Items())| - 1) && !m.eof
    {
      hide Flat, Shape, Separated, Links, Pre, Post, Pairs, Values;
      LastPair(Items(), dupsort);
      m.eof := false;
      var found := m.Retreat();
      var pair := Enter(true);
      Arrived(|Values(Items()[|Items()| - 1].dups)| - 1);
      r := Found(pair);
    }

    /** The value cursor moves, and the key is that of what lies behind the last item. */
    method PrevStale(key: Key) returns (r: Reply)
      requires Valid() && m.init && m.Pos() == |Items()| > 0 && !Items()[|Items()| - 1].dups.Single?
      requires var d := Items()[|Items()| - 1].dups;
               Values(d) != [] && x.root == Some(SubTree(d)) && x.On(|Values(d)| - 1)
      modifies m`eof, x
      ensures Valid() && m.init && m.Pos() == |Items()|
      ensures if |Values(Items()[|Items()| - 1].dups)| > 1 then
                |Pairs(Items())| >= 2 && r == Found(Pair(key, Pairs(Items())[|Pairs(Items())| - 2].value))
              else r == Nothing
    {
      hide Flat, Shape, Separated, Links, Pre, Post, Pairs, Values;
      ghost var s := Items();
      ghost var v := Values(s[|s| - 1].dups);
      LastPair(s, dupsort);
      ValuesAre(s[|s| - 1].dups);
      var c := x.Prev();
      if !c.Success? {
        return Nothing;
      }
      m.eof := false;
      Located(s, |s| - 1, |v| - 2);
      r := Found(Pair(key, c.item.key));
    }

    /** mdb_cursor_prev on a cursor that is not initialised: behind the last item
        of the page it looks for one with F_DUPDATA. */
    method PrevFromEnd(stale: Option<Key>) returns (r: Reply)
      requires Valid() && !m.init
      requires dupsort && stale.Some? && Items() != [] ==> !Items()[|Items()| - 1].dups.Single?
      modifies this`x, m, x
      ensures x == old(x) || fresh(x)
      ensures Valid()
      ensures var P := Pairs(Items());
              if P == [] then r == Nothing && !m.init
              else if Misled(stale) then |P| >= 2 && r == Found(Pair(stale.value, P[|P| - 2].value))
              else r == Found(P[|P| - 1]) && On(|P| - 1) && !m.eof
    {
      hide Flat, Shape, Separated, Links, Pre, Post, Pairs, Values;
      r := Last();
      if r.Nothing? {
        return;
      }
      m.SetLeafIndex(m.ki[m.snum - 1] + 1);
      if dupsort {
        if stale.Some? {
          r := PrevStale(stale.value);
          if r.Found? {
            return;
          }
        } else {
          x.init, x.eof := false, false;
        }
      }
      r := BackToLast();
    }

    /** The bytes behind the last item are taken for an item with values, and the
        last item has several. */
    ghost predicate Misled(stale: Option<Key>) {
      dupsort && stale.Some? && Items() != [] && |Values(Items()[|Items()| - 1].dups)| > 1
    }

    /** mdb_cursor_prev with MDB_PREV.  stale is the key of what the index behind
        the last item leads to, if it has F_DUPDATA. */
    method Prev(stale: Option<Key>) returns (r: Reply)
      requires Valid() && (m.init && dupsort ==> Standing())
      requires !m.init && dupsort && stale.Some? && Items() != [] ==> !Items()[|Items()| - 1].dups.Single?
      modifies this`x, m, x
      ensures x == old(x) || fresh(x)
      ensures Valid()
      ensures old(!m.init) ==>
                var P := Pairs(Items());
                if P == [] then r == Nothing && !m.init
                else if Misled(stale) then |P| >= 2 && r == Found(Pair(stale.value, P[|P| - 2].value))
                else r == Found(P[|P| - 1]) && On(|P| - 1) && !m.eof
      ensures old(m.init && Standing()) ==>
                var P, n := Pairs(Items()), old(Place());
                && n < |P| && !m.eof
                && if n > 0 then r == Found(P[n - 1]) && On(n - 1) else r == Nothing && On(0)
      ensures old(m.init && !Standing()) ==>
                var P, n := Pairs(Items()), old(m.Pos());
                n <= |P| && if n > 0 then r == Found(P[n - 1]) && On(n - 1) else r == Nothing
    {
      hide Flat, Shape, Separated, Links, Pre, Post, Pairs, Values, Misled;
      if !m.init {
        r := PrevFromEnd(stale);
        return;
      }
      if !dupsort {
        ghost var standing := Standing();
        if standing {
          PlainStands();
        }
        ghost var n := m.Pos();
        r := PrevPlain();
        if standing && r.Nothing? {
          PlainPlace(n);
          assert m.Pos() == n && At(n, 0);
          Arrived(0);
        }
        return;
      }
      var leaf;
      ghost var j, p;
      leaf, j, p := Current();
      OnePlace(p, Place());
      r := PrevValue(leaf, j, p);
      if r.Nothing? {
        r := PrevLeaf(p);
      }
    }

    /** The part of mdb_cursor_prev that moves to the key before. */
    method PrevLeaf(ghost p: nat) returns (r: Reply)
      requires m.init && m.AtLeaf() && At(m.Pos(), 0) && Locates(Items(), m.Pos(), 0, p) && !m.eof
      modifies this`x, m
      ensures x == old(x) || fresh(x)
      ensures Valid() && !m.eof && p < |Pairs(Items())|
      ensures if p > 0 then r == Found(Pairs(Items())[p - 1]) && On(p - 1) else r == Nothing && On(0)
    {
      hide Flat, Shape, Separated, Links, Pre, Post, Pairs, Values;
      ghost var i := m.Pos();
      PrevItem(Items(), i, p, dupsort);
      var found := m.Retreat();
      if !found {
        assert At(m.Pos(), 0);
        return Nothing;
      }
      var pair := Enter(true);
      r := Found(pair);
    }

    /** mdb_cursor_set with MDB_SET (exactly) or MDB_SET_RANGE. */
    method Set(key: Key, exactly: bool) returns (r: Reply)
      requires Valid()
      modifies this`x, m, x
      ensures x == old(x) || fresh(x)
      ensures Valid()
      ensures r.Found? ==> m.init && !m.eof && exists p: nat :: LandsOn(this, r, key, exactly, p)
      ensures !r.Found? ==> r.Nothing? && forall q :: 0 <= q < |Pairs(Items())| ==>
                if exactly then Pairs(Items())[q].key != key else Pairs(Items())[q].key < key
      ensures r.Nothing? && !exactly && m.init ==> m.Past()
    {
      hide Flat, Shape, Separated, Links, Pre, Post, Pairs, Values, Rank, Framed;
      x.init, x.eof := false, false;
      var c := m.Set(key, exactly);
      RankPlace(Items(), key, dupsort);
      if c.NotFound? {
        return Nothing;
      }
      var pair := Enter(false);
      Arrived(0);
      r := Found(pair);
      assert LandsOn(this, r, key, exactly, Start(Items(), m.Pos()));
    }

    /** The last value of the item under the main cursor. */
    method LastOf(leaf: Item, ghost j: nat, ghost p: nat) returns (pair: Pair, ghost e: nat)
      requires On(p) && At(m.Pos(), j) && Locates(Items(), m.Pos(), j, p) && leaf == Items()[m.Pos()]
      modifies x
      ensures p <= e && On(e) && e < |Pairs(Items())| && pair == Pairs(Items())[e] && p < |Pairs(Items())|
      ensures pair.key == Pairs(Items())[p].key
      ensures e + 1 < |Pairs(Items())| ==> Pairs(Items())[e + 1].key != pair.key
    {
      hide Flat, Shape, Separated, Links, Pre, Post, Pairs, Values;
      LeafEnds(Items(), m.Pos(), j, p, dupsort);
      if leaf.dups.Single? {
        return Pair(leaf.key, leaf.dups.data), p;
      }
      ghost var i, last := m.Pos(), |Values(leaf.dups)| - 1;
      Located(Items(), i, last);
      e := p - j + last;
      LeafEnds(Items(), i, last, e, dupsort);
      var c := x.Last();
      assert At(i, last);
      pair := Pair(leaf.key, c.item.key);
    }

    /** MDB_LAST_DUP. */
    method LastDup() returns (r: Reply)
      requires Valid() && (m.init && !m.Past() ==> Standing())
      modifies m, x
      ensures Valid()
      ensures old(!m.init) ==> r == BadCall
      ensures old(m.init) && !dupsort ==> r == Incompatible
      ensures old(m.init && m.Past()) && dupsort ==> r == Nothing
      ensures old(Standing()) && dupsort ==>
                var P, n := Pairs(Items()), old(Place());
                && n < |P|
                && exists e: nat :: n <= e < |P| && On(e) && r == Found(P[e]) && P[e].key == P[n].key
                                    && (e + 1 < |P| ==> P[e + 1].key != P[e].key)
      ensures old(Standing()) && !dupsort ==> On(old(Place()))
    {
      hide Flat, Shape, Separated, Links, Pre, Post, Pairs, Values, DbCursor.Place;
      if !m.init {
        return BadCall;
      }
      if !dupsort {
        return Incompatible;
      }
      if m.ki[m.snum - 1] >= |m.pg[m.snum - 1].items| {
        m.SetLeafIndex(|m.pg[m.snum - 1].items|);
        return Nothing;
      }
      var leaf;
      ghost var j, p;
      leaf, j, p := Current();
      OnePlace(p, Place());
      var pair;
      ghost var e;
      pair, e := LastOf(leaf, j, p);
      r := Found(pair);
    }

    /** MDB_GET_CURRENT. */
    method GetCurrent() returns (r: Reply)
      requires Valid() && (m.init && !m.Past() ==> Standing())
      modifies m, x
      ensures Valid()
      ensures old(!m.init) ==> r == BadCall
      ensures old(m.init && m.Past()) ==> r == Nothing
      ensures old(Standing()) ==> var p := old(Place()); p < |Pairs(Items())| && r == Found(Pairs(Items())[p]) && On(p)
    {
      hide Flat, Shape, Separated, Links, Pre, Post, Pairs, Values;
      var c := m.GetCurrent();
      if c.Invalid? {
        return BadCall;
      }
      if c.NotFound? {
        return Nothing;
      }
      ghost var leaf, j, p := Current();
      OnePlace(p, Place());
      LeafEnds(Items(), m.Pos(), j, p, dupsort);
      if c.item.dups.Single? {
        return Found(Pair(c.item.key, c.item.dups.data));
      }
      var d := x.GetCurrent();
      assert At(m.Pos(), j);
      r := if d.Success? then Found(Pair(c.item.key, d.item.key)) else Nothing;
    }
  }

  /** The cursor is on the first pair whose key is not below the given one. */
  ghost predicate LandsOn(c: DbCursor, r: Reply, key: Key, exactly: bool, p: nat)
    reads c, c.m, c.x
  {
    var P := Pairs(c.Items());
    && c.On(p) && p < |P| && r == Found(P[p])
    && (forall q :: 0 <= q < p ==> P[q].key < key)
    && P[p].key >= key && (exactly ==> P[p].key == key)
  }

  /** The rank of a key among the items, in terms of pairs. */
  lemma RankPlace(s: seq<Item>, key: Key, dupsort: bool)
    requires Sorted(s) && ItemsOk(s, dupsort)
    ensures var i, P := Rank(s, key), Pairs(s);
            && (i < |s| ==> |Values(s[i].dups)| > 0 && Locates(s, i, 0, Start(s, i)) && s[i].key >= key)
            && Start(s, i) <= |P| && (forall q :: 0 <= q < Start(s, i) ==> P[q].key < key)
            && (i == |s| ==> Start(s, i) == |P|)
            && (i == |s| || s[i].key != key ==> forall q :: 0 <= q < |P| ==> P[q].key != key)
  {
    var i := Rank(s, key);
    RankFrames(s, key);
    StartEnds(s);
    if i < |s| {
      ValuesExist(s[i], dupsort);
      Located(s, i, 0);
    }
  }

  lemma LastPair(s: seq<Item>, dupsort: bool)
    requires ItemsOk(s, dupsort) && s != []
    ensures var v := |Values(s[|s| - 1].dups)|; v > 0 && |Pairs(s)| > 0 && Locates(s, |s| - 1, v - 1, |Pairs(s)| - 1)
  {
    hide Pairs, Values, Flat, PairsOf, Shape, Separated;
    ValuesExist(s[|s| - 1], dupsort);
    Located(s, |s| - 1, |Values(s[|s| - 1].dups)| - 1);
    StartNext(s, |s| - 1);
    StartEnds(s);
  }

  lemma ValuesAre(d: Dups)
    requires !d.Single?
    ensures |Values(d)| == |Flat(SubTree(d))|
            && forall k :: 0 <= k < |Values(d)| ==> Values(d)[k] == Flat(SubTree(d))[k].key
  {
    hide Flat;
  }

  /** What lies after value j of item i. */
  lemma LeafEnds(s: seq<Item>, i: nat, j: nat, p: nat, dupsort: bool)
    requires Locates(s, i, j, p) && ItemsOk(s, dupsort) && Sorted(s)
    ensures j + 1 < |Values(s[i].dups)| ==> Locates(s, i, j + 1, p + 1) && Pairs(s)[p + 1].key == Pairs(s)[p].key
    ensures j + 1 == |Values(s[i].dups)| && i + 1 == |s| ==> p + 1 == |Pairs(s)|
    ensures j + 1 == |Values(s[i].dups)| && i + 1 < |s| ==>
              Locates(s, i + 1, 0, p + 1) && Pairs(s)[p + 1].key != Pairs(s)[p].key
    ensures s[i].dups.Single? ==> Values(s[i].dups) == [s[i].dups.data]
    ensures !dupsort ==> s[i].dups.Single?
    ensures !s[i].dups.Single? ==> |Values(s[i].dups)| == |Flat(SubTree(s[i].dups))|
    ensures !s[i].dups.Single? ==> forall k :: 0 <= k < |Values(s[i].dups)| ==>
              Values(s[i].dups)[k] == Flat(SubTree(s[i].dups))[k].key
  {
    hide Pairs, PairsOf, Flat, Shape, Separated;
    if j + 1 < |Values(s[i].dups)| {
      Located(s, i, j + 1);
    } else {
      NextItem(s, i, j, p, dupsort);
    }
  }

  /** The first pair is the first value of the first item. */
  lemma FirstPair(s: seq<Item>, dupsort: bool)
    requires ItemsOk(s, dupsort)
    ensures if s == [] then Pairs(s) == [] else Locates(s, 0, 0, 0)
  {
    if s != [] {
      ValuesExist(s[0], dupsort);
      Located(s, 0, 0);
      StartEnds(s);
    }
  }
}
