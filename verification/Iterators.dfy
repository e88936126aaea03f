/** The iterators of the Rust cursor: which pairs each of them yields. */
module Iterators {
  import opened Options
  import opened Tree
  import opened TreeCursor
  import opened PairSeq
  import opened DbCursors

  /** The cursor operations that iterators use. */
  datatype Op = GetFirst | GetLast | GetNext | GetNextDup | GetPrev | GetCurrent

  // -------------------------------------------------------- on sequences

  /** The pairs of s that share the key of the first one. */
  function Run(s: seq<Pair>): (r: seq<Pair>)
    ensures |r| <= |s| && r == s[..|r|]
  {
    if |s| < 2 || s[1].key != s[0].key then s[..if |s| == 0 then 0 else 1] else [s[0]] + Run(s[1..])
  }

  /** Where a relative move goes from pair n. */
  function Step(s: seq<Pair>, n: nat, dupsort: bool, op: Op): (m: Option<nat>)
    requires n < |s|
    ensures m.Some? ==> m.value < |s|
  {
    if op == GetPrev then (if n > 0 then Some(n - 1) else None)
    else if n + 1 < |s| && (op == GetNextDup && dupsort ==> s[n + 1].key == s[n].key) then Some(n + 1)
    else None
  }

  /** All that repeating a relative move yields from pair n on, n included. */
  function Yield(s: seq<Pair>, n: nat, dupsort: bool, op: Op): seq<Pair>
    requires n < |s|
  {
    if op == GetPrev then Reverse(s[..n + 1])
    else if op == GetNextDup && dupsort then Run(s[n..])
    else s[n..]
  }

  lemma YieldStep(s: seq<Pair>, n: nat, dupsort: bool, op: Op)
    requires n < |s|
    ensures var m := Step(s, n, dupsort, op);
            Yield(s, n, dupsort, op) == [s[n]] + if m.Some? then Yield(s, m.value, dupsort, op) else []
  {
    if op == GetPrev {
      var t := Reverse(s[..n]);
      assert Reverse(s[..n + 1]) == [s[n]] + t;
      assert n == 0 ==> t == [];
    } else {
      assert s[n..] == [s[n]] + s[n + 1..];
      assert s[n..][1..] == s[n + 1..];
    }
  }

  class Iter {
    const cursor: DbCursor
    var op: Op
    const nextOp: Op

    constructor (cursor: DbCursor, op: Op, nextOp: Op)
      ensures this.cursor == cursor && this.op == op && this.nextOp == nextOp
    {
      this.cursor, this.op, this.nextOp := cursor, op, nextOp;
    }

    ghost function All(): seq<Pair> { Pairs(cursor.Items()) }

    /** The states in which an operation may be asked for. */
    ghost predicate May(op: Op)
      reads cursor, cursor.m, cursor.x
    {
      && cursor.Valid() && (op == GetCurrent && cursor.m.init && !cursor.m.Past() ==> cursor.Standing())
      && (op in {GetNext, GetNextDup} && cursor.m.init ==> cursor.Standing())
      && (op == GetPrev ==> cursor.Standing())
    }

    /** An iterator as the functions below make it, and not yet exhausted. */
    ghost predicate Live()
      reads this, cursor, cursor.m, cursor.x
    {
      May(op) && nextOp in {GetNext, GetNextDup, GetPrev}
    }

    /** The pair an operation lands on, if any. */
    ghost function Target(op: Op): (m: Option<nat>)
      reads cursor, cursor.m, cursor.x
      ensures m.Some? ==> m.value < |All()|
    {
      if op == GetFirst || (op in {GetNext, GetNextDup} && !cursor.m.init) then (if All() == [] then None else Some(0))
      else if op == GetLast then (if All() == [] then None else Some(|All()| - 1))
      else if !cursor.Standing() then None
      else if cursor.Place() >= |All()| then None
      else if op == GetCurrent then Some(cursor.Place())
      else Step(All(), cursor.Place(), cursor.dupsort, op)
    }

    /** What the iterator is still to yield. */
    ghost function Remaining(): seq<Pair>
      reads this, cursor, cursor.m, cursor.x
    {
      var m := Target(op);
      if m.Some? then Yield(All(), m.value, cursor.dupsort, nextOp) else []
    }

    lemma TargetEnds()
      ensures Target(GetFirst) == (if All() == [] then None else Some(0))
      ensures Target(GetLast) == if All() == [] then None else Some(|All()| - 1)
    {
    }

    lemma TargetHere()
      ensures Target(GetCurrent) == if !cursor.Standing() || cursor.Place() >= |All()| then None
                                    else Some(cursor.Place())
    {
    }

    lemma TargetMove(op: Op)
      requires op in {GetNext, GetNextDup, GetPrev} && May(op)
      ensures op != GetPrev && !cursor.m.init ==> Target(op) == if All() == [] then None else Some(0)
      ensures cursor.Standing() && cursor.m.init ==>
        Target(op) == if cursor.Place() >= |All()| then None else Step(All(), cursor.Place(), cursor.dupsort, op)
    {
      hide Flat, Shape, Separated, Links, Pre, Post, Pairs, Values, Step;
    }

    lemma StandsOn()
      requires cursor.Standing()
      ensures cursor.m.init && cursor.Valid() && cursor.Place() < |All()|
    {
      PlaceInside(cursor);
    }

    /** mdb_cursor_get, for a move on from a pair. */
    method Move(op: Op) returns (r: Reply)
      requires op in {GetNext, GetNextDup, GetPrev} && May(op)
      modifies cursor, cursor.m, cursor.x
      ensures cursor.x == old(cursor.x) || fresh(cursor.x)
      ensures cursor.Valid()
      ensures old(Target(op)) == None ==> !r.Found?
      ensures var m := old(Target(op)); m.Some? ==> r == Found(All()[m.value]) && cursor.On(m.value)
    {
      hide Flat, Shape, Separated, Links, Pre, Post, Pairs, Values, Target, DbCursor.Standing, DbCursor.Place,
           DbCursor.Valid, DbCursor.Items, DbCursor.On;
      TargetMove(op);
      if cursor.Standing() {
        StandsOn();
      }
      if op == GetPrev {
        r := cursor.Prev(None);
      } else {
        r := cursor.Next(op == GetNextDup);
      }
    }

    /** mdb_cursor_get. */
    method Get(op: Op) returns (r: Reply)
      requires May(op)
      modifies cursor, cursor.m, cursor.x
      ensures cursor.x == old(cursor.x) || fresh(cursor.x)
      ensures cursor.Valid()
      ensures old(Target(op)) == None ==> !r.Found?
      ensures var m := old(Target(op)); m.Some? ==> r == Found(All()[m.value]) && cursor.On(m.value)
    {
      hide Flat, Shape, Separated, Links, Pre, Post, Pairs, Values, Target, DbCursor.Standing, DbCursor.Place,
           DbCursor.Valid, DbCursor.Items, DbCursor.On;
      TargetEnds();
      match op
      case GetFirst => r := cursor.First();
      case GetLast => r := cursor.Last();
      case GetCurrent => TargetHere(); r := cursor.GetCurrent();
      case _ => r := Move(op);
    }

    /** Iter::next. */
    method Next() returns (r: Option<Pair>)
      requires Live()
      modifies this`op, cursor, cursor.m, cursor.x
      ensures cursor.x == old(cursor.x) || fresh(cursor.x)
      ensures cursor.Valid()
      ensures r.None? ==> old(Remaining()) == []
      ensures r.Some? ==> Live() && old(Remaining()) == [r.value] + Remaining()
    {
      hide Flat, Shape, Separated, Links, Pre, Post, Pairs, Values, Step, Yield;
      var now := op;
      op := nextOp;
      ghost var m := Target(now);
      var reply := Get(now);
      if !reply.Found? {
        return None;
      }
      YieldStep(All(), m.value, cursor.dupsort, nextOp);
      cursor.OnePlace(m.value, cursor.Place());
      r := Some(reply.pair);
    }
  }

  /** How the pairs of a database lie around a key. */
  lemma Around(c: DbCursor, key: Key) returns (a: nat, b: nat)
    requires c.Valid()
    ensures Framed(Pairs(c.Items()), key, a, b)
    ensures !c.dupsort ==> b <= a + 1
  {
    hide Flat, Shape, Separated, Links, Pre, Post, Framed, Pairs;
    var s := c.Items();
    RankFrames(s, key);
    var p := Rank(s, key);
    a, b := Start(s, p), Start(s, if p < |s| && s[p].key == key then p + 1 else p);
    if p < |s| {
      StartNext(s, p);
      if !c.dupsort { assert s[p].dups.Single?; }
    }
  }

  /** The first pair of a frame is where MDB_SET and MDB_SET_RANGE lead. */
  lemma FrameStart(s: seq<Pair>, key: Key, a: nat, b: nat, p: nat)
    requires Framed(s, key, a, b) && p <= |s|
    requires (forall q :: 0 <= q < p ==> s[q].key < key) && (p < |s| ==> s[p].key >= key)
    ensures p == a && (p < |s| && s[p].key == key ==> a < b)
  {
    if a < |s| { assert s[a].key >= key; }
  }

  /** The last pair of a frame is where MDB_LAST_DUP leads. */
  lemma FrameEnd(s: seq<Pair>, key: Key, a: nat, b: nat, e: nat)
    requires Framed(s, key, a, b) && e < |s| && s[e].key == key && (e + 1 < |s| ==> s[e + 1].key != key)
    ensures e + 1 == b
  {
  }

  lemma {:induction false} RunIsFrame(s: seq<Pair>, key: Key, b: nat)
    requires Framed(s, key, 0, b) && b > 0
    ensures Run(s) == s[..b]
  {
    if b > 1 {
      assert Framed(s[1..], key, 0, b - 1);
      RunIsFrame(s[1..], key, b - 1);
      assert s[..b] == [s[0]] + s[1..][..b - 1];
    }
  }

  /** Cursor::into_iter_start. */
  method IntoIterStart(c: DbCursor) returns (it: Iter)
    requires c.Valid()
    ensures it.cursor == c && it.Live() && it.Remaining() == Pairs(c.Items())
  {
    it := new Iter(c, GetFirst, GetNext);
  }

  lemma WholePrefix(s: seq<Pair>)
    ensures s[..|s|] == s
  {
  }

  lemma OneMore(a: seq<Pair>, p: Pair, b: seq<Pair>)
    ensures a + ([p] + b) == a + [p] + b
  {
  }

  /** Cursor::into_iter_rev. */
  method IntoIterRev(c: DbCursor) returns (it: Iter)
    requires c.Valid()
    ensures it.cursor == c && it.Live() && it.Remaining() == Reverse(Pairs(c.Items()))
  {
    hide Pairs, Reverse, Run;
    hide DbCursor.Standing, DbCursor.Place, DbCursor.Valid, DbCursor.Items, Iter.Target;
    WholePrefix(Pairs(c.Items()));
    it := new Iter(c, GetLast, GetPrev);
    it.TargetEnds();
  }

  /** Cursor::into_iter_from. */
  method IntoIterFrom(c: DbCursor, key: Key) returns (it: Iter)
    requires c.Valid()
    modifies c, c.m, c.x
    ensures c.x == old(c.x) || fresh(c.x)
    ensures it.cursor == c && it.Live() && it.Remaining() == WithKeyFrom(Pairs(c.Items()), key)
  {
    hide Flat, Shape, Separated, Links, Pre, Post, Pairs, Values, WithKeyFrom, WithKeyUpTo, WithKey, Framed;
    ghost var P := Pairs(c.Items());
    ghost var a, b := Around(c, key);
    FramedFilters(P, key, a, b);
    var r := c.Set(key, false);
    ghost var p := Landing(c, r, key, false);
    FrameStart(P, key, a, b, p);
    it := new Iter(c, GetCurrent, GetNext);
  }

  /** The pair index that mdb_cursor_set went to, or the end. */
  lemma Landing(c: DbCursor, r: Reply, key: Key, exactly: bool) returns (p: nat)
    requires c.Valid() && !r.BadCall? && !r.Incompatible?
    requires r.Found? ==> exists p: nat :: LandsOn(c, r, key, exactly, p)
    requires r.Nothing? ==> forall q :: 0 <= q < |Pairs(c.Items())| ==>
                if exactly then Pairs(c.Items())[q].key != key else Pairs(c.Items())[q].key < key
    ensures r.Found? ==> LandsOn(c, r, key, exactly, p) && c.Standing() && c.Place() == p
    ensures r.Nothing? ==> p == |Pairs(c.Items())|
  {
    if r.Found? {
      p :| LandsOn(c, r, key, exactly, p);
      c.OnePlace(p, c.Place());
    } else {
      p := |Pairs(c.Items())|;
    }
  }

  lemma PlaceInside(c: DbCursor)
    requires c.Standing()
    ensures c.Valid() && c.Place() < |Pairs(c.Items())|
  {
    hide Flat, Shape, Separated, Links, Pre, Post, Pairs, Values;
    var p: nat :| c.On(p);
    c.OnePlace(p, c.Place());
  }

  /** An iterator that begins with the item its cursor is on. */
  method FromHere(c: DbCursor, nextOp: Op) returns (it: Iter)
    requires c.Valid() && c.Standing() && nextOp in {GetNext, GetNextDup, GetPrev}
    ensures it.cursor == c && it.Live() && c.Place() < |Pairs(c.Items())|
    ensures it.Remaining() == Yield(Pairs(c.Items()), c.Place(), c.dupsort, nextOp)
  {
    hide Flat, Shape, Separated, Links, Pre, Post, Pairs, Values, Yield, Sorted, ItemsOk;
    hide DbCursor.Standing, DbCursor.Place, DbCursor.Valid, DbCursor.Items;
    PlaceInside(c);
    it := new Iter(c, GetCurrent, nextOp);
  }

  /** Cursor::into_iter_from_rev. */
  method IntoIterFromRev(c: DbCursor, key: Key) returns (it: Iter)
    requires c.Valid()
    modifies c, c.m, c.x
    ensures c.x == old(c.x) || fresh(c.x)
    ensures it.cursor == c && it.Live() && it.Remaining() == Reverse(WithKeyUpTo(Pairs(c.Items()), key))
  {
    hide Flat, Shape, Separated, Links, Pre, Post, Pairs, Values, WithKeyFrom, WithKeyUpTo, WithKey, Framed, Reverse;
    hide DbCursor.Standing, DbCursor.Place, DbCursor.Valid, DbCursor.Items, Iter.Live, Iter.Remaining;
    ghost var P := Pairs(c.Items());
    ghost var a, b := Around(c, key);
    FramedFilters(P, key, a, b);
    FrameBounds(P, key, a, b);
    var r := c.Set(key, true);
    ghost var p := Landing(c, r, key, true);
    if r.Found? {
      FrameStart(P, key, a, b, p);
      ToLastDup(c, key, a, b);
      it := FromHere(c, GetPrev);
    } else {
      it := BelowKey(c, key, a);
    }
  }

  /** On DUPSORT data, from the first value of the key to its last. */
  method ToLastDup(c: DbCursor, key: Key, ghost a: nat, ghost b: nat)
    requires c.Valid() && c.Standing() && c.Place() == a < b && Framed(Pairs(c.Items()), key, a, b)
    requires !c.dupsort ==> b <= a + 1
    modifies c, c.m, c.x
    ensures c.x == old(c.x)
    ensures c.Standing() && c.Place() == b - 1
  {
    hide Flat, Shape, Separated, Links, Pre, Post, Pairs, Values, Framed;
    ghost var P := Pairs(c.Items());
    FrameBounds(P, key, a, b);
    var r := c.LastDup();
    if c.dupsort {
      ghost var e: nat :| a <= e < |P| && c.On(e) && P[e].key == P[a].key && (e + 1 < |P| ==> P[e + 1].key != P[e].key);
      FrameEnd(P, key, a, b, e);
      c.OnePlace(e, c.Place());
    } else {
      c.OnePlace(a, c.Place());
    }
  }

  /** The key is absent: the walk starts below it. */
  method BelowKey(c: DbCursor, key: Key, ghost a: nat) returns (it: Iter)
    requires c.Valid() && Framed(Pairs(c.Items()), key, a, a)
    modifies c, c.m, c.x
    ensures c.x == old(c.x) || fresh(c.x)
    ensures it.cursor == c && it.Live() && a <= |Pairs(c.Items())| && it.Remaining() == Reverse(Pairs(c.Items())[..a])
  {
    hide Flat, Shape, Separated, Links, Pre, Post, Pairs, Values, Framed, Reverse;
    hide DbCursor.Standing, DbCursor.Place, DbCursor.Valid, DbCursor.Items, Iter.Target;
    ghost var P := Pairs(c.Items());
    FrameBounds(P, key, a, a);
    var r := c.Set(key, false);
    ghost var p := Landing(c, r, key, false);
    FrameStart(P, key, a, a, p);
    if r.Found? {
      it := new Iter(c, GetPrev, GetPrev);
      it.StandsOn();
      it.TargetMove(GetPrev);
    } else {
      WholePrefix(P);
      it := new Iter(c, GetLast, GetPrev);
      it.TargetEnds();
    }
  }

  lemma FrameBounds(s: seq<Pair>, key: Key, a: nat, b: nat)
    requires Framed(s, key, a, b)
    ensures a <= b <= |s| && (a < b ==> s[a].key == key) && (a == b ==> forall i :: 0 <= i < |s| ==> s[i].key != key)
  {
  }

  /** Cursor::into_iter_dup_of.  Without DUPSORT, MDB_NEXT_DUP moves like
      MDB_NEXT, so the iterator runs on to the end of the database. */
  method IntoIterDupOf(c: DbCursor, key: Key) returns (it: Iter)
    requires c.Valid()
    modifies c, c.m, c.x
    ensures c.x == old(c.x) || fresh(c.x)
    ensures it.cursor == c && it.Live()
    ensures var P := Pairs(c.Items());
            it.Remaining() == if c.dupsort || WithKey(P, key) == [] then WithKey(P, key) else WithKeyFrom(P, key)
  {
    hide Flat, Shape, Separated, Links, Pre, Post, Pairs, Values, WithKeyFrom, WithKeyUpTo, WithKey, Framed;
    ghost var P := Pairs(c.Items());
    ghost var a, b := Around(c, key);
    FramedFilters(P, key, a, b);
    FrameBounds(P, key, a, b);
    var r := c.Set(key, true);
    ghost var p := Landing(c, r, key, true);
    if r.Found? {
      FrameStart(P, key, a, b, p);
      FrameTail(P, key, a, b);
      it := FromHere(c, GetNextDup);
    } else {
      it := AtEnd(c);
    }
  }

  /** The key is absent: an iterator that yields nothing. */
  method AtEnd(c: DbCursor) returns (it: Iter)
    requires c.Valid()
    modifies c, c.m, c.x
    ensures c.x == old(c.x) || fresh(c.x)
    ensures it.cursor == c && it.Live() && it.Remaining() == []
  {
    hide Flat, Shape, Separated, Links, Pre, Post, Pairs, Values, Reverse, Run;
    ghost var P := Pairs(c.Items());
    var r := c.Last();
    if P != [] {
      c.OnePlace(|P| - 1, c.Place());
    }
    it := new Iter(c, GetNext, GetNext);
  }

  lemma FrameTail(s: seq<Pair>, key: Key, a: nat, b: nat)
    requires Framed(s, key, a, b) && a < b
    ensures Run(s[a..]) == s[a..b]
  {
    assert Framed(s[a..], key, 0, b - a);
    RunIsFrame(s[a..], key, b - a);
  }

  /** Polls an iterator until it returns None. */
  method Collect(it: Iter) returns (out: seq<Pair>)
    requires it.Live()
    modifies it`op, it.cursor, it.cursor.m, it.cursor.x
    ensures out == old(it.Remaining())
  {
    hide Iter.Live, Iter.Remaining;
    out := [];
    ghost var rest := it.Remaining();
    var more := true;
    while more
      invariant it.cursor.x == old(it.cursor.x) || fresh(it.cursor.x)
      invariant more ==> it.Live() && rest == it.Remaining()
      invariant old(it.Remaining()) == out + rest
      invariant !more ==> rest == []
      decreases |rest|, more
    {
      var r := it.Next();
      if r.None? {
        more := false;
      } else {
        OneMore(out, r.value, it.Remaining());
        out := out + [r.value];
        rest := it.Remaining();
      }
    }
  }

  // ------------------------------------- from a fresh cursor on any tree

  function AllPairs(root: Option<Tree>): seq<Pair> { Pairs(if root.None? then [] else Flat(root.value)) }

  /** A database a cursor can be opened on. */
  ghost predicate Database(root: Option<Tree>, dupsort: bool) {
    Fits(root) && (root.Some? ==> ItemsOk(Flat(root.value), dupsort))
  }

  method Forward(root: Option<Tree>, dupsort: bool) returns (out: seq<Pair>)
    requires Database(root, dupsort)
    ensures out == AllPairs(root)
  {
    hide Flat, Shape, Separated, Links, Pre, Post, Values, Fits, ItemsOk, Pairs;
    var c := new DbCursor(root, dupsort);
    var it := IntoIterStart(c);
    out := Collect(it);
  }

  method Backward(root: Option<Tree>, dupsort: bool) returns (out: seq<Pair>)
    requires Database(root, dupsort)
    ensures out == Reverse(AllPairs(root))
  {
    hide Flat, Shape, Separated, Links, Pre, Post, Values, Fits, ItemsOk, Pairs, Reverse;
    var c := new DbCursor(root, dupsort);
    var it := IntoIterRev(c);
    out := Collect(it);
  }

  method FromKey(root: Option<Tree>, dupsort: bool, key: Key) returns (out: seq<Pair>)
    requires Database(root, dupsort)
    ensures out == WithKeyFrom(AllPairs(root), key)
  {
    hide Flat, Shape, Separated, Links, Pre, Post, Values, Fits, ItemsOk, Pairs, WithKeyFrom;
    var c := new DbCursor(root, dupsort);
    var it := IntoIterFrom(c, key);
    out := Collect(it);
  }

  method FromKeyBackward(root: Option<Tree>, dupsort: bool, key: Key) returns (out: seq<Pair>)
    requires Database(root, dupsort)
    ensures out == Reverse(WithKeyUpTo(AllPairs(root), key))
  {
    hide Flat, Shape, Separated, Links, Pre, Post, Values, Fits, ItemsOk, Pairs, WithKeyUpTo, Reverse;
    var c := new DbCursor(root, dupsort);
    var it := IntoIterFromRev(c, key);
    out := Collect(it);
  }

  /** into_iter_dup_of yields exactly the values of the key if and only if the
      database has duplicates, or lacks the key, or has no greater key. */
  method DupsOf(root: Option<Tree>, dupsort: bool, key: Key) returns (out: seq<Pair>)
    requires Database(root, dupsort)
    ensures out == WithKey(AllPairs(root), key) <==>
              dupsort || (forall i :: 0 <= i < |AllPairs(root)| ==> AllPairs(root)[i].key != key)
                      || (forall i :: 0 <= i < |AllPairs(root)| ==> AllPairs(root)[i].key <= key)
  {
    hide Flat, Shape, Separated, Links, Pre, Post, Values, Fits, ItemsOk, Pairs, WithKey, WithKeyFrom;
    var c := new DbCursor(root, dupsort);
    ghost var a, b := Around(c, key);
    var it := IntoIterDupOf(c, key);
    KeyOnly(AllPairs(root), key, a, b);
    out := Collect(it);
  }

  lemma KeyOnly(s: seq<Pair>, key: Key, a: nat, b: nat)
    requires Framed(s, key, a, b)
    ensures WithKey(s, key) == [] <==> forall i :: 0 <= i < |s| ==> s[i].key != key
    ensures WithKey(s, key) != [] ==>
              (WithKeyFrom(s, key) == WithKey(s, key) <==> forall i :: 0 <= i < |s| ==> s[i].key <= key)
  {
    FramedFilters(s, key, a, b);
    if a < b {
      assert s[a].key == key && s[a..b] != [];
      if b < |s| {
        assert s[b].key > key && |s[a..]| > |s[a..b]|;
      }
    }
  }

  lemma TwoItems()
    ensures var t := Leaf([Item(1, Single(10)), Item(2, Single(20))]);
            var P := Pairs(Flat(t));
            && Fits(Some(t)) && ItemsOk(Flat(t), false)
            && WithKey(P, 1) != [] && WithKeyFrom(P, 1) == [Pair(1, 10), Pair(2, 20)]
  {
    var s := [Item(1, Single(10)), Item(2, Single(20))];
    assert s[1..] == [Item(2, Single(20))];
    assert Pairs(s) == [Pair(1, 10), Pair(2, 20)];
    FramedFilters(Pairs(s), 1, 0, 1);
  }

  /** Two plain items, and the values of the first key: both are yielded. */
  method DupOfRunsOn() returns (out: seq<Pair>)
    ensures out == [Pair(1, 10), Pair(2, 20)]
  {
    hide Flat, Shape, Separated, Links, Pre, Post, Values, Fits, ItemsOk, Pairs, WithKey, WithKeyFrom;
    hide Iter.Live, Iter.Remaining, DbCursor.Standing;
    var root := Some(Leaf([Item(1, Single(10)), Item(2, Single(20))]));
    TwoItems();
    var c := new DbCursor(root, false);
    var it := IntoIterDupOf(c, 1);
    out := Collect(it);
  }
}
