/** Stepping a read-write cursor, and deleting during the walk (src/cursor.rs). */
module Walk {
  import opened Sequences
  import opened Options
  import opened Levels
  import opened Separators
  import opened Tracking
  import opened Positions
  import opened Touching
  import opened Deletion

  datatype DelResult = Deleted | BadCursor | NoItem

  /** The items of the database; one without a tree has none. */
  ghost function Contents(db: Database): seq<int>
    reads db
  {
    if db.depth == 0 || |db.lv| == 0 then [] else db.Items()
  }

  /** Either there is no tree and no cursor has a place, or all is in order. */
  ghost predicate Sound(db: Database, places: seq<nat>)
    reads db
  {
    && |places| == |db.cursors| && db.WellFormed() && db.Spare() && db.Intact() && db.Sized()
    && (db.depth == 0 ==> forall i :: 0 <= i < |db.cursors| ==> !db.cursors[i].init)
    && (db.depth > 0 ==> db.Ok({}) && db.InOrder() && Placed(db.pages, db.lv, db.cursors, places))
  }

  /** Every row of a tree holds something. */
  lemma {:induction false} RowsHold(pages: Pages, root: Id, lv: seq<seq<int>>, l: nat)
    requires Rows(pages, root, lv) && MinKeys(pages, lv, {}) && l < |lv|
    ensures lv[l] != []
  {
    hide Nodes;
    if l > 0 {
      RowsHold(pages, root, lv, l - 1);
      PageKeys(pages, lv, l - 1, 0);
      JoinedAt(pages, lv[l - 1], 0);
    }
  }

  /** Where the next step leads: after a deletion, or past a page, to the very
      index the cursor has. */
  function Coming(c: Stack, inside: bool, q: nat): nat { if !c.init then 0 else if c.del || !inside then q else q + 1 }

  /** What C_EOF and C_DEL mean between calls. */
  ghost predicate FlagsOk(c: Stack, inside: bool, q: nat, total: nat) {
    && (c.eof ==> q + 1 >= total && !(c.del && inside))
    && (c.del && !inside ==> c.eof)
  }

  /** mdb_cursor_first. */
  method First(db: Database, me: nat, ghost places: seq<nat>) returns (r: Option<int>)
    requires Sound(db, places) && me < |db.cursors|
    modifies db`cursors
    ensures |db.cursors| == |old(db.cursors)|
            && forall i :: 0 <= i < |db.cursors| && i != me ==> db.cursors[i] == old(db.cursors)[i]
    ensures Contents(db) == [] <==> db.depth == 0
    ensures db.depth == 0 ==> r == None && db.cursors == old(db.cursors)
    ensures db.depth > 0 ==>
      var c := db.cursors[me];
      && r == Some(Contents(db)[0]) && At(db.pages, db.lv, c, 0) && |c.pg| == |c.ki| > 0
      && c.init && !c.eof && c.del == old(db.cursors)[me].del && Inside(db.pages, c)
  {
    hide Joined, Nodes, Distinct, Traces, TracesTo, MinKeys, At, Unused, Database.Sized, RightKeys, Inside;
    if db.depth == 0 {
      return None;
    }
    var root := db.root;
    var mc := db.cursors[me].(pg := seq(db.depth, _ => root), ki := seq(db.depth, _ => 0));
    var top := 0;
    ghost var ix: seq<nat> := seq(db.depth + 1, _ => 0);
    RowsHold(db.pages, db.root, db.lv, db.depth);
    AtRoot(db.pages, db.root, db.lv, mc, ix);
    while top + 1 < db.depth
      invariant 0 <= top < db.depth && |ix| == db.depth + 1 && |mc.pg| == |mc.ki| == db.depth
      invariant TracesTo(db.pages, db.lv, mc, ix, top) && ix[top] == 0 && mc.ki[top] == 0
      invariant db.cursors == old(db.cursors) && mc.del == db.cursors[me].del
    {
      TraceSizes(db.pages, db.lv, mc, ix, top);
      PageKeys(db.pages, db.lv, top, 0);
      StepDown(db.pages, db.root, db.lv, mc, ix, top);
      StartZero(db.pages, db.lv[top]);
      ix := ix[top + 1 := Start(db.pages, db.lv[top], ix[top]) + mc.ki[top]];
      mc := mc.(pg := mc.pg[top + 1 := Nodes(db.pages, mc.pg[top])[0]], ki := mc.ki[top + 1 := 0]);
      top := top + 1;
    }
    TraceSizes(db.pages, db.lv, mc, ix, top);
    PageKeys(db.pages, db.lv, top, 0);
    StartZero(db.pages, db.lv[top]);
    FullTrace(db.pages, db.lv, mc, ix);
    ix := ix[db.depth := Start(db.pages, db.lv[top], ix[top]) + mc.ki[top]];
    AtFirst(db.pages, db.root, db.lv, mc, ix);
    mc := mc.(init := true, eof := false);
    AtFirst(db.pages, db.root, db.lv, mc, ix);
    db.cursors := db.cursors[me := mc];
    r := Some(Nodes(db.pages, mc.pg[top])[0]);
  }

  lemma AtRoot(pages: Pages, root: Id, lv: seq<seq<int>>, c: Stack, ix: seq<nat>)
    requires Rows(pages, root, lv) && |c.pg| == |c.ki| == |lv| - 1 && |ix| == |lv| && c.pg[0] == root && ix[0] == 0
    ensures TracesTo(pages, lv, c, ix, 0)
  {
  }

  lemma AtFirst(pages: Pages, root: Id, lv: seq<seq<int>>, c: Stack, ix: seq<nat>)
    requires Rows(pages, root, lv) && Traces(pages, lv, c, ix) && ix[|lv| - 1] == 0 && c.ki[|c.ki| - 1] == 0
    requires |c.pg| == |c.ki| == |lv| - 1 && |ix| == |lv| && Nodes(pages, c.pg[|c.pg| - 1]) != []
    ensures forall i, e :: Traces(pages, lv, c.(init := i, eof := e), ix)
    ensures At(pages, lv, c, 0) && Inside(pages, c) && |lv[|lv| - 1]| > 0
            && Nodes(pages, c.pg[|c.pg| - 1])[0] == lv[|lv| - 1][0]
  {
    hide Joined, Nodes, Traces;
    TraceLink(pages, lv, c, ix, |lv| - 2);
    assert AtIx(pages, lv, c, 0, ix);
    AtItem(pages, root, lv, c, 0);
    forall i, e ensures Traces(pages, lv, c.(init := i, eof := e), ix) {
      FlagsAside(pages, lv, c, c.(init := i, eof := e), ix);
    }
  }

  lemma NextInPage(pages: Pages, lv: seq<seq<int>>, c: Stack, q: nat)
    requires At(pages, lv, c, q) && |c.pg| == |c.ki| > 0 && c.ki[|c.ki| - 1] + 1 < |Nodes(pages, c.pg[|c.pg| - 1])|
    ensures var c' := c.(ki := c.ki[|c.ki| - 1 := c.ki[|c.ki| - 1] + 1]); At(pages, lv, c', q + 1) && Inside(pages, c')
  {
    hide Joined, Nodes, Traces;
    var ix :| AtIx(pages, lv, c, q, ix);
    var D := |lv| - 1;
    TraceLink(pages, lv, c, ix, D - 1);
    PartTrace(pages, lv, c, ix, D - 1);
    var c' := c.(ki := c.ki[D - 1 := c.ki[D - 1] + 1]);
    IndexAside(pages, lv, c, ix, D - 1, c.ki[D - 1] + 1);
    FullTrace(pages, lv, c', ix);
    assert AtIx(pages, lv, c', q + 1, ix[D := Start(pages, lv[D - 1], ix[D - 1]) + c'.ki[D - 1]]);
  }

  /** To the first item of the next leaf. */
  method NextLeaf(db: Database, mc: Stack, ghost q: nat) returns (found: bool, mc': Stack)
    requires db.Ok({}) && At(db.pages, db.lv, mc, q) && |mc.pg| == |mc.ki| == db.depth
    requires mc.ki[db.depth - 1] + 1 >= |Nodes(db.pages, mc.pg[db.depth - 1])|
    ensures var n := if Inside(db.pages, mc) then q + 1 else q;
            if found then n < |db.Items()| && At(db.pages, db.lv, mc', n) && |mc'.pg| == |mc'.ki| == db.depth
                && Inside(db.pages, mc')
            else n == |db.Items()| && mc' == mc
    ensures mc'.init == mc.init && mc'.eof == mc.eof && mc'.del == mc.del
  {
    hide Joined, Nodes, Distinct, Traces, TracesTo, MinKeys;
    var top := db.depth - 1;
    ghost var ix :| AtIx(db.pages, db.lv, mc, q, ix);
    PartTrace(db.pages, db.lv, mc, ix, top);
    TraceLink(db.pages, db.lv, mc, ix, top);
    ghost var ix';
    found, mc', ix' := Sibling(db.pages, mc, top, db.root, db.lv, ix);
    if found {
      TraceSizes(db.pages, db.lv, mc', ix', top);
      FullTrace(db.pages, db.lv, mc', ix');
      PageKeys(db.pages, db.lv, top, ix'[top]);
      StartNext(db.pages, db.lv[top], ix[top]);
      ghost var n := if Inside(db.pages, mc) then q + 1 else q;
      assert AtIx(db.pages, db.lv, mc', n, ix'[db.depth := Start(db.pages, db.lv[top], ix'[top])]);
      AtItem(db.pages, db.root, db.lv, mc', n);
    } else {
      WholeRow(db.pages, db.lv, db.root, top);
    }
  }

  lemma SameFlags(pages: Pages, lv: seq<seq<int>>, c: Stack, c': Stack, q: nat)
    requires At(pages, lv, c, q) && c'.pg == c.pg && c'.ki == c.ki
    ensures At(pages, lv, c', q)
  {
    hide Joined, Nodes, Traces;
    var ix :| AtIx(pages, lv, c, q, ix);
    FlagsAside(pages, lv, c, c', ix);
    assert AtIx(pages, lv, c', q, ix);
  }

  /** The acting cursor between two calls. */
  ghost predicate Ready(db: Database, me: nat, q: nat)
    requires me < |db.cursors|
    reads db
  {
    var c := db.cursors[me];
    c.init ==> db.depth > 0 && |c.pg| == |c.ki| > 0 && FlagsOk(c, Inside(db.pages, c), q, |Contents(db)|)
  }

  ghost function Upcoming(db: Database, me: nat, q: nat): nat
    requires me < |db.cursors|
    reads db
  {
    var c := db.cursors[me];
    Coming(c, |c.pg| == |c.ki| > 0 && Inside(db.pages, c), q)
  }

  /** mdb_cursor_next on an initialised cursor. */
  method Step(db: Database, mc0: Stack, ghost q: nat) returns (r: Option<int>, mc: Stack)
    requires db.Ok({}) && mc0.init && At(db.pages, db.lv, mc0, q) && |mc0.pg| == |mc0.ki| == db.depth
    requires FlagsOk(mc0, Inside(db.pages, mc0), q, |db.Items()|)
    ensures var n := Coming(mc0, Inside(db.pages, mc0), q);
            && n <= |db.Items()| && mc.init && |mc.pg| == |mc.ki| == db.depth
            && if n < |db.Items()| then
                 r == Some(db.Items()[n]) && At(db.pages, db.lv, mc, n) && !mc.eof && Inside(db.pages, mc)
               else r == None && At(db.pages, db.lv, mc, q) && mc.eof
  {
    hide Joined, Nodes, Distinct, Traces, TracesTo, MinKeys, At, Rows, RightKeys, Unused, Database.Sized;
    mc := mc0;
    var top := db.depth - 1;
    AtItem(db.pages, db.root, db.lv, mc, q);
    var nkeys := |Nodes(db.pages, mc.pg[top])|;
    if mc.eof {
      if mc.ki[top] + 1 >= nkeys {
        return None, mc;
      }
      mc := mc.(eof := false);
    }
    ghost var n := Coming(mc0, Inside(db.pages, mc0), q);
    SameFlags(db.pages, db.lv, mc0, mc, q);
    if mc.del {
      mc := mc.(del := false);
      SameFlags(db.pages, db.lv, mc0, mc, q);
    } else if mc.ki[top] + 1 >= nkeys {
      var found;
      found, mc := NextLeaf(db, mc, q);
      if !found {
        mc := mc.(eof := true);
        SameFlags(db.pages, db.lv, mc0, mc, q);
        return None, mc;
      }
    } else {
      NextInPage(db.pages, db.lv, mc, q);
      mc := mc.(ki := mc.ki[top := mc.ki[top] + 1]);
    }
    AtItem(db.pages, db.root, db.lv, mc, n);
    r := Some(Nodes(db.pages, mc.pg[top])[mc.ki[top]]);
  }

  lemma ClearDel(pages: Pages, root: Id, lv: seq<seq<int>>, c: Stack, q: nat)
    requires Rows(pages, root, lv) && At(pages, lv, c, q)
    ensures |c.pg| == |c.ki| == |lv| - 1 >= 1 && At(pages, lv, c.(del := false), q)
    ensures Inside(pages, c.(del := false)) <==> q < |lv[|lv| - 1]|
  {
    hide Joined, Nodes, Traces, At, Inside;
    AtItem(pages, root, lv, c, q);
    SameFlags(pages, lv, c, c.(del := false), q);
    AtItem(pages, root, lv, c.(del := false), q);
  }

  /** The step, before C_DEL is cleared. */
  method StepOrFirst(db: Database, me: nat, ghost places: seq<nat>) returns (r: Option<int>, mc: Stack)
    requires Sound(db, places) && me < |db.cursors| && Ready(db, me, places[me])
    modifies db`cursors
    ensures |db.cursors| == |old(db.cursors)|
            && forall i :: 0 <= i < |db.cursors| && i != me ==> db.cursors[i] == old(db.cursors)[i]
    ensures var n := old(Upcoming(db, me, places[me]));
            && n <= |Contents(db)| && |mc.pg| == |mc.ki|
            && if n < |Contents(db)| then
                 db.depth > 0 && r == Some(Contents(db)[n]) && At(db.pages, db.lv, mc, n) && mc.init && !mc.eof
               else
                 && r == None && mc.init == old(db.cursors)[me].init
                 && (mc.init ==> db.depth > 0 && At(db.pages, db.lv, mc, places[me]) && mc.eof && n <= places[me] + 1)
  {
    hide Joined, Nodes, Distinct, Traces, TracesTo, MinKeys, At, Rows, RightKeys, Unused, Database.Sized;
    mc := db.cursors[me];
    if !mc.init {
      r := First(db, me, places);
      mc := db.cursors[me];
    } else {
      AtItem(db.pages, db.root, db.lv, mc, places[me]);
      r, mc := Step(db, mc, places[me]);
    }
  }

  /** MDB_NEXT on a database without duplicates. */
  method Next(db: Database, me: nat, ghost places: seq<nat>) returns (r: Option<int>)
    requires Sound(db, places) && me < |db.cursors| && Ready(db, me, places[me])
    modifies db`cursors
    ensures |db.cursors| == |old(db.cursors)|
            && forall i :: 0 <= i < |db.cursors| && i != me ==> db.cursors[i] == old(db.cursors)[i]
    ensures var n, c := old(Upcoming(db, me, places[me])), db.cursors[me];
            && n <= |Contents(db)| && !c.del && |c.pg| == |c.ki|
            && if n < |Contents(db)| then
                 && r == Some(Contents(db)[n]) && At(db.pages, db.lv, c, n) && |c.pg| > 0
                 && c.init && !c.eof && Inside(db.pages, c)
               else
                 && r == None && c.init == old(db.cursors)[me].init
                 && (c.init ==> At(db.pages, db.lv, c, places[me]) && c.eof && |c.pg| > 0 && n <= places[me] + 1)
  {
    hide Joined, Nodes, Distinct, Traces, TracesTo, MinKeys, At, Rows, RightKeys, Unused, Database.Sized, Inside,
         Upcoming, Ready;
    ghost var n := Upcoming(db, me, places[me]);
    var mc;
    r, mc := StepOrFirst(db, me, places);
    if mc.init {
      ClearDel(db.pages, db.root, db.lv, mc, if r.Some? then n else places[me]);
    }
    mc := mc.(del := false);
    db.cursors := db.cursors[me := mc];
  }

  ghost function Shifted(places: seq<nat>, p: nat): (r: seq<nat>)
    ensures |r| == |places| && forall i :: 0 <= i < |r| ==> r[i] == Shift(places[i], p)
  {
    seq(|places|, i requires 0 <= i < |places| => Shift(places[i], p))
  }

  /** mdb_cursor_del. */
  method Del(db: Database, me: nat, ghost places: seq<nat>) returns (res: DelResult, ghost places': seq<nat>)
    requires Sound(db, places) && me < |db.cursors|
    modifies db
    ensures CleanKept(old(db.pages), old(db.dirty), old(db.next), db.pages, db.dirty)
    ensures Sound(db, places') && |db.cursors| == |old(db.cursors)|
    ensures res.BadCursor? <==> !old(db.cursors)[me].init
    ensures res.NoItem? <==> old(db.cursors)[me].init && places[me] >= |old(Contents(db))|
    ensures !res.Deleted? ==> Contents(db) == old(Contents(db)) && db.cursors == old(db.cursors) && places' == places
    ensures res.Deleted? ==>
      var p := places[me];
      && p < |old(Contents(db))| && Contents(db) == Without(old(Contents(db)), p)
      && places' == Shifted(places, p)
      && (db.depth > 0 ==> forall i :: 0 <= i < |db.cursors| ==>
           Followed(old(db.cursors)[i], places[i], p, false, db.pages, db.lv, db.cursors[i]))
  {
    hide Joined, Nodes, Distinct, Traces, TracesTo, MinKeys, At, Rows, Unused, Database.Sized, RightKeys;
    places' := places;
    var c := db.cursors[me];
    if !c.init {
      return BadCursor, places;
    }
    AtItem(db.pages, db.root, db.lv, c, places[me]);
    if c.ki[|c.ki| - 1] >= |Nodes(db.pages, c.pg[|c.pg| - 1])| {
      return NoItem, places;
    }
    ghost var cs0 := db.cursors;
    TouchPath(db, me, places);
    ghost var cs1 := db.cursors;
    Del0(db, me, places);
    places' := Shifted(places, places[me]);
    res := Deleted;
    if db.depth > 0 {
      forall i | 0 <= i < |cs0|
        ensures Followed(cs0[i], places[i], places[me], false, db.pages, db.lv, db.cursors[i])
      {
        FollowedFlags(cs0[i], cs1[i], places[i], places[me], db.pages, db.lv, db.cursors[i]);
      }
    }
  }

  /** mdb_cursor_touch for a cursor on an item. */
  method TouchPath(db: Database, me: nat, ghost places: seq<nat>)
    requires db.Ok({}) && db.Spare() && me < |db.cursors| && db.cursors[me].init
             && Placed(db.pages, db.lv, db.cursors, places)
    requires db.Intact()
    modifies db
    ensures CleanKept(old(db.pages), old(db.dirty), old(db.next), db.pages, db.dirty)
    ensures db.Ok({}) && db.Spare() && Placed(db.pages, db.lv, db.cursors, places)
    ensures db.depth == old(db.depth) && db.Items() == old(db.Items()) && |db.cursors| == |old(db.cursors)|
    ensures db.Writable(db.cursors[me], db.depth)
    ensures forall i :: 0 <= i < |db.cursors| ==> FlagsKept(old(db.cursors)[i], db.cursors[i])
    ensures |old(db.cursors)[me].pg| == |old(db.cursors)[me].ki| == |db.cursors[me].pg| == |db.cursors[me].ki| ==
            db.depth
    ensures Inside(old(db.pages), old(db.cursors)[me]) ==> Inside(db.pages, db.cursors[me])
    ensures (old(db.InOrder()) ==> db.InOrder()) && forall id :: id in db.cursors[me].pg ==> id in db.dirty
  {
    hide Joined, Nodes, Distinct, Rows, Traces, MinKeys, Unused, RightKeys;
    ghost var ix :| AtIx(db.pages, db.lv, db.cursors[me], places[me], ix);
    CursorTouch(db, me, places, ix);
    assert AtIx(db.pages, db.lv, db.cursors[me], places[me], ix);
  }

  /** Only the flags of the cursor before the deletion matter. */
  lemma FollowedFlags(c0: Stack, c: Stack, q: nat, p: nat, pages: Pages, lv: seq<seq<int>>, c': Stack)
    requires |lv| > 0 && FlagsKept(c0, c) && Followed(c, q, p, false, pages, lv, c')
    ensures Followed(c0, q, p, false, pages, lv, c')
  {
    hide At;
  }

  function Unmatched(s: seq<int>, pred: int -> bool): seq<int> {
    if |s| == 0 then [] else (if pred(s[0]) then [] else [s[0]]) + Unmatched(s[1..], pred)
  }

  lemma {:induction false} UnmatchedOneMore(s: seq<int>, x: int, pred: int -> bool)
    ensures Unmatched(s + [x], pred) == Unmatched(s, pred) + if pred(x) then [] else [x]
  {
    if |s| > 0 {
      assert (s + [x])[1..] == s[1..] + [x];
      UnmatchedOneMore(s[1..], x, pred);
    }
  }

  /** The acting cursor after a deletion during a walk. */
  lemma AfterDel(db: Database, me: nat, c: Stack, p: nat)
    requires me < |db.cursors| && db.WellFormed() && c.init && !c.eof
    requires db.depth == 0 ==> !db.cursors[me].init
    requires db.depth > 0 ==> db.Ok({}) && Followed(c, p, p, false, db.pages, db.lv, db.cursors[me])
    ensures Ready(db, me, p) && (db.depth > 0 ==> Upcoming(db, me, p) == p)
  {
    hide Joined, Nodes, Distinct, Traces, TracesTo, MinKeys, At, Rows, RightKeys, Unused, Database.Sized;
    if db.depth > 0 {
      AtItem(db.pages, db.root, db.lv, db.cursors[me], p);
    }
  }

  /** The deletion that a walk makes, of the item it has just come to. */
  method DelDuringWalk(db: Database, me: nat, ghost places: seq<nat>, ghost x: int) returns (ghost places': seq<nat>)
    requires Sound(db, places) && me < |db.cursors| && db.cursors[me].init && !db.cursors[me].eof
    requires places[me] < |Contents(db)| && Contents(db)[places[me]] == x
    modifies db
    ensures |db.cursors| == |old(db.cursors)| && Sound(db, places') && Ready(db, me, places'[me])
    ensures places[me] < |old(Contents(db))| && Contents(db) == Without(old(Contents(db)), places[me])
    ensures db.depth > 0 ==> Upcoming(db, me, places'[me]) == places[me]
    ensures db.depth == 0 ==> Upcoming(db, me, places'[me]) == 0
  {
    hide Joined, Nodes, Distinct, Traces, TracesTo, MinKeys, At, Rows, Followed, Inside, RightKeys, Unused,
         Database.Sized;
    ghost var c := db.cursors[me];
    var res;
    res, places' := Del(db, me, places);
    AfterDel(db, me, c, places[me]);
  }

  /** A step of a walk, and the place it leads to. */
  method NextDuringWalk(db: Database, me: nat, ghost places: seq<nat>) returns (r: Option<int>, ghost places': seq<nat>)
    requires Sound(db, places) && me < |db.cursors| && Ready(db, me, places[me])
    modifies db`cursors
    ensures |db.cursors| == |old(db.cursors)| && Sound(db, places') && Ready(db, me, places'[me])
            && Contents(db) == old(Contents(db))
    ensures var n := old(Upcoming(db, me, places[me]));
            if n < |Contents(db)| then
              r == Some(Contents(db)[n]) && places'[me] == n && Upcoming(db, me, n) == n + 1
              && db.cursors[me].init && !db.cursors[me].eof
            else r == None
  {
    hide Joined, Nodes, Distinct, Traces, TracesTo, MinKeys, At, Rows, Followed, Inside, RightKeys, Unused,
         Database.Sized;
    ghost var n := Upcoming(db, me, places[me]);
    r := Next(db, me, places);
    places' := if r.Some? then places[me := n] else places;
  }

  lemma FreshReady(db: Database, me: nat, q: nat)
    requires me < |db.cursors| && !db.cursors[me].init
    ensures Ready(db, me, q) && Upcoming(db, me, q) == 0
  {
  }

  /** The loop "next; if the predicate holds, del" from a fresh cursor visits
      every item once, in order, and leaves those that do not match. */
  method WalkAndDelete(db: Database, me: nat, pred: int -> bool, ghost places: seq<nat>)
    returns (visited: seq<int>, ghost places': seq<nat>)
    requires Sound(db, places) && me < |db.cursors| && !db.cursors[me].init
    modifies db
    ensures CleanKept(old(db.pages), old(db.dirty), old(db.next), db.pages, db.dirty)
    ensures Sound(db, places') && |db.cursors| == |old(db.cursors)|
    ensures visited == old(Contents(db))
    ensures Contents(db) == Unmatched(old(Contents(db)), pred)
  {
    hide Nodes, Rows, Unmatched, Sound, Ready, Upcoming, Contents;
    visited, places' := [], places;
    UnmatchedNone(pred);
    SoundSize(db, places);
    ghost var pages0, loose0, next0, dirty0 := db.pages, db.loose, db.next, db.dirty;
    FreshReady(db, me, places[me]);
    ghost var rest := Contents(db);
    var more := true;
    while more
      invariant |db.cursors| == |old(db.cursors)| == |places'| && Sound(db, places') && Ready(db, me, places'[me])
      invariant visited + rest == old(Contents(db))
      invariant Contents(db) == Unmatched(visited, pred) + rest
      invariant more ==> Upcoming(db, me, places'[me]) == |Unmatched(visited, pred)|
      invariant !more ==> rest == []
      decreases |rest|, more
    {
      ghost var kept := Unmatched(visited, pred);
      var r;
      r, places' := NextDuringWalk(db, me, places');
      SoundSize(db, places');
      if r.None? {
        more := false;
      } else {
        UnmatchedOneMore(visited, r.value, pred);
        Regroup(kept, rest);
        Regroup(visited, rest);
        visited, rest := visited + [r.value], rest[1..];
        if pred(r.value) {
          places' := DelDuringWalk(db, me, places', r.value);
          SoundSize(db, places');
        }
      }
    }
    SoundSize(db, places');
    ApartKeeps(db.base, db.first, pages0, loose0, next0, dirty0, db.pages, db.loose, db.next, db.dirty);
  }

  lemma Regroup(kept: seq<int>, rest: seq<int>)
    requires rest != []
    ensures (kept + rest)[|kept|] == rest[0] && kept + rest == kept + [rest[0]] + rest[1..]
    ensures Without(kept + rest, |kept|) == kept + rest[1..] == kept + [] + rest[1..]
  {
  }

  lemma SoundSize(db: Database, places: seq<nat>)
    requires Sound(db, places)
    ensures db.Intact() && |places| == |db.cursors| && (db.depth == 0 ==> Contents(db) == [])
  {
  }

  lemma UnmatchedNone(pred: int -> bool)
    ensures Unmatched([], pred) == []
  {
  }
}
