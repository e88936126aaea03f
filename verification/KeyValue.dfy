/** mdb_get, mdb_put and mdb_del: the tree as a map, whatever cursors are open. */
module KeyValue {
  import opened Sequences
  import opened Options
  import opened Levels
  import opened Separators
  import opened KeyedItems
  import opened Tracking
  import opened Positions
  import opened Insertion
  import opened Searching
  import Putting
  import Deletion
  import Walk

  /** mdb_cursor_init. */
  function NewCursor(): Stack { Stack([], [], false, false, false) }

  /** Some item has the key. */
  ghost predicate Holds(db: Database, K: int)
    reads db
  {
    exists y :: y in Walk.Contents(db) && db.key(y) == K
  }

  /** A write transaction on the tree that the last commit left; no cursor is
      open yet. */
  method Begin(key: int -> int, sizes: Sizes, pages: Pages, root: Id, depth: nat, keys: Keys, first: Id,
               ghost lv: seq<seq<int>>) returns (db: Database)
    requires Proportioned(sizes) && Unused(lv, [], first)
    requires depth > 0 ==>
               |lv| == depth + 1 && Tree(pages, root, lv) && MinKeys(pages, lv, {}) && RightKeys(pages, lv, keys, key)
    ensures fresh(db) && db.key == key && db.base == pages && db.first == first && db.dirty == {}
    ensures Walk.Sound(db, []) && Walk.Contents(db) == if depth == 0 || |lv| == 0 then [] else lv[|lv| - 1]
  {
    hide Unused, Apart;
    db := new Database(key, sizes, pages, root, depth, keys, first, lv);
  }

  /** What mdb_dbi_open makes: a database without a root. */
  method Create(key: int -> int, first: Id, sizes: Sizes) returns (db: Database)
    requires Proportioned(sizes)
    ensures fresh(db) && db.key == key && Walk.Sound(db, []) && Walk.Contents(db) == []
  {
    db := Begin(key, sizes, map[], -1, 0, map[], first, []);
  }

  /** In every state of a transaction the tree of the last commit is what it was:
      a reader, or a restart after a crash, finds all of its pages unchanged. */
  lemma CommitStands(db: Database, places: seq<nat>, root: Id, lv: seq<seq<int>>)
    requires Walk.Sound(db, places) && Rows(db.base, root, lv) && Unused(lv, [], db.first)
    ensures Rows(db.pages, root, lv)
    ensures forall l, i :: 0 <= l < |lv| - 1 && 0 <= i < |lv[l]| ==>
              Nodes(db.pages, lv[l][i]) == Nodes(db.base, lv[l][i]) && lv[l][i] !in db.dirty
  {
    hide Joined, Nodes;
    forall l | 0 <= l < |lv| - 1 ensures SameOn(db.base, db.pages, lv[l]) {
      assert forall i :: 0 <= i < |lv[l]| ==> lv[l][i] < db.first;
    }
    RowsSame(db.base, db.pages, root, lv);
  }

  lemma RowsSame(pages: Pages, pages': Pages, root: Id, lv: seq<seq<int>>)
    requires Rows(pages, root, lv) && forall l :: 0 <= l < |lv| - 1 ==> SameOn(pages, pages', lv[l])
    ensures Rows(pages', root, lv)
  {
    hide Joined, Nodes, SameOn;
    forall l | 0 <= l < |lv| - 1 ensures lv[l + 1] == Joined(pages', lv[l]) {
      JoinedSame(pages, pages', lv[l]);
    }
  }

  /** The first change of a transaction leaves the tree it started from as it was. */
  lemma RowsClean(pages: Pages, root: Id, lv: seq<seq<int>>, loose: seq<Id>, next: Id, pages': Pages, dirty': set<Id>)
    requires Rows(pages, root, lv) && Unused(lv, loose, next) && CleanKept(pages, {}, next, pages', dirty')
    ensures Rows(pages', root, lv)
  {
    hide Joined, Nodes;
    forall l | 0 <= l < |lv| - 1 ensures SameOn(pages, pages', lv[l]) {
      assert forall i :: 0 <= i < |lv[l]| ==> lv[l][i] < next;
    }
    RowsSame(pages, pages', root, lv);
  }

  /** What one change leaves of the pages that were there before it. */
  lemma CleanLaw(db: Database, places: seq<nat>, pages: Pages, root: Id, depth: nat, lv: seq<seq<int>>, loose: seq<Id>,
                 next: Id, dirty: set<Id>)
    requires Walk.Sound(db, places) && Apart(db.base, db.first, pages, loose, next, dirty)
    requires Unused(lv, loose, next) && (depth > 0 ==> Rows(pages, root, lv))
    ensures CleanKept(pages, dirty, next, db.pages, db.dirty)
    ensures dirty == {} && depth > 0 ==> Rows(db.pages, root, lv)
  {
    hide Joined, Nodes, Distinct, MinKeys, At, RightKeys, Database.Sized, Unused, CleanKept;
    ApartKeeps(db.base, db.first, pages, loose, next, dirty, db.pages, db.loose, db.next, db.dirty);
    if dirty == {} && depth > 0 {
      RowsClean(pages, root, lv, loose, next, db.pages, db.dirty);
    }
  }

  lemma SoundTree(db: Database, places: seq<nat>)
    requires Walk.Sound(db, places)
    ensures |places| == |db.cursors| && db.WellFormed() && db.Spare() && db.Intact() && db.Sized()
    ensures db.depth > 0 ==>
              db.Ok({}) && db.InOrder() && Placed(db.pages, db.lv, db.cursors, places)
              && Walk.Contents(db) == db.Items()
    ensures db.depth == 0 ==> Walk.Contents(db) == [] && forall i :: 0 <= i < |db.cursors| ==> !db.cursors[i].init
  {
    hide Joined, Nodes, Distinct, Rows, MinKeys, At, RightKeys, Unused, Database.Sized;
  }

  /** mdb_get. */
  method Get(db: Database, K: int, ghost places: seq<nat>) returns (r: Option<int>)
    requires Walk.Sound(db, places)
    ensures r.Some? <==> Holds(db, K)
    ensures r.Some? ==> r.value in Walk.Contents(db) && db.key(r.value) == K
  {
    hide Joined, Nodes, Distinct, Rows, MinKeys, At, RightKeys, Unused, Database.Sized, Walk.Sound, Slot, Traces,
         MayCome, Parts;
    SoundTree(db, places);
    if db.depth == 0 {
      return None;
    }
    var exact, mc;
    ghost var p, mix;
    exact, mc, p, mix := Find(db, NewCursor(), K);
    if !exact {
      return None;
    }
    r := Some(Nodes(db.pages, mc.pg[db.depth - 1])[mc.ki[db.depth - 1]]);
    OnItem(db, mc, p, mix);
  }

  lemma OnItem(db: Database, mc: Stack, p: nat, mix: seq<nat>)
    requires db.Ok({}) && AtIx(db.pages, db.lv, mc, p, mix) && Inside(db.pages, mc)
    ensures At(db.pages, db.lv, mc, p) && |mc.pg| == |mc.ki| == db.depth && p < |db.Items()|
    ensures Nodes(db.pages, mc.pg[db.depth - 1])[mc.ki[db.depth - 1]] == db.Items()[p]
  {
    hide Joined, Nodes, Distinct, Rows, Traces;
    AtItem(db.pages, db.root, db.lv, mc, p);
  }

  /** The items with x among them, in place of any with its key. */
  ghost predicate Stored(items: seq<int>, x: int, key: int -> int, items': seq<int>) {
    forall y :: y in items' <==> y == x || (y in items && key(y) != key(x))
  }

  /** The items but any with the key. */
  ghost predicate Dropped(items: seq<int>, K: int, key: int -> int, items': seq<int>) {
    forall y :: y in items' <==> y in items && key(y) != K
  }

  lemma OtherKeys(key: int -> int, items: seq<int>, p: nat, q: nat)
    requires Sorted(ItemKeys(key, items)) && p < |items| && q < |items| && p != q
    ensures key(items[p]) != key(items[q])
  {
    assert ItemKeys(key, items)[p] != ItemKeys(key, items)[q];
  }

  lemma PutStores(key: int -> int, items: seq<int>, p: nat, x: int, replace: bool)
    requires if replace then p < |items| && key(items[p]) == key(x) else p <= |items|
    requires Sorted(ItemKeys(key, items)) && (!replace ==> forall y :: y in items ==> key(y) != key(x))
    ensures Stored(items, x, key, PutInto(items, p, x, replace))
  {
    hide Sorted;
    var items' := PutInto(items, p, x, replace);
    forall y ensures y in items' <==> y == x || (y in items && key(y) != key(x)) {
      if y in items' {
        var q :| 0 <= q < |items'| && items'[q] == y;
        if q != p {
          var q0 := if replace || q < p then q else q - 1;
          assert items[q0] == y;
          if replace {
            OtherKeys(key, items, p, q0);
          }
        }
      }
      if y in items && key(y) != key(x) {
        var q :| 0 <= q < |items| && items[q] == y;
        assert items'[if replace || q < p then q else q + 1] == y;
      }
      assert items'[p] == x;
    }
  }

  lemma WithoutDrops(key: int -> int, items: seq<int>, p: nat)
    requires Sorted(ItemKeys(key, items)) && p < |items|
    ensures Dropped(items, key(items[p]), key, Without(items, p))
  {
    hide Sorted;
    var items' := Without(items, p);
    forall y ensures y in items' <==> y in items && key(y) != key(items[p]) {
      if y in items' {
        var q :| 0 <= q < |items'| && items'[q] == y;
        OtherKeys(key, items, p, if q < p then q else q + 1);
      }
      if y in items && key(y) != key(items[p]) {
        var q :| 0 <= q < |items| && items[q] == y;
        assert items'[if q < p then q else q - 1] == y;
      }
    }
  }

  /** An open cursor on an item is on it still, or on the one that replaced it. */
  ghost predicate SameItem(items: seq<int>, q: nat, x: int, key: int -> int, items': seq<int>, q': nat) {
    && (q < |items| <==> q' < |items'|)
    && (q < |items| && q' < |items'| ==> items'[q'] == items[q] || (items'[q'] == x && key(items[q]) == key(x)))
  }

  lemma AfterSame(items: seq<int>, p: nat, x: int, replace: bool, key: int -> int, q: nat)
    requires if replace then p < |items| && key(items[p]) == key(x) else p <= |items|
    ensures SameItem(items, q, x, key, PutInto(items, p, x, replace), After(q, p, replace))
  {
  }

  lemma SelfSame(items: seq<int>, q: nat, x: int, key: int -> int)
    ensures SameItem(items, q, x, key, items, q)
  {
  }

  lemma ComesTo(db: Database, mix: seq<nat>, p: nat, x: int, replace: bool)
    requires db.Ok({}) && db.InOrder() && MayCome(db.pages, db.lv, mix, db.keys, db.key, p, x, replace)
    ensures if replace then p < |db.Items()| && db.key(db.Items()[p]) == db.key(x) else p <= |db.Items()|
    ensures Sorted(ItemKeys(db.key, db.Items()))
  {
    hide Joined, Nodes, Distinct, Rows, MinKeys, KeyedTo, LeafBelongs;
  }

  lemma MakeSound(db: Database, places: seq<nat>)
    requires db.Ok({}) && db.Spare() && db.Intact() && db.InOrder() && db.Sized()
             && Placed(db.pages, db.lv, db.cursors, places)
    requires forall i :: 0 <= i < |db.cursors| ==> |db.cursors[i].pg| == |db.cursors[i].ki|
    ensures Walk.Sound(db, places) && Walk.Contents(db) == db.Items()
  {
    hide Joined, Nodes, Distinct, Rows, MinKeys, At, RightKeys, Unused, Database.Sized;
  }

  ghost function AllAfter(places: seq<nat>, p: nat, replace: bool): (r: seq<nat>)
    ensures |r| == |places| && forall i :: 0 <= i < |r| ==> r[i] == After(places[i], p, replace)
  {
    seq(|places|, i requires 0 <= i < |places| => After(places[i], p, replace))
  }

  /** The new cursor comes first in the list of open ones. */
  lemma TrackedPlaces(pages: Pages, lv: seq<seq<int>>, cursors: seq<Stack>, places: seq<nat>, mc: Stack, p: nat)
    requires Placed(pages, lv, cursors, places)
    ensures Placed(pages, lv, ([mc] + cursors)[0 := mc.(init := false)], [p] + places)
    ensures (mc.init ==> At(pages, lv, mc, p)) ==> Placed(pages, lv, [mc] + cursors, [p] + places)
  {
    hide At;
  }

  /** The other cursors once the new one is gone. */
  lemma Untracked(cs0: seq<Stack>, places: seq<nat>, mc: Stack, p: nat, replace: bool, pages: Pages, lv: seq<seq<int>>,
                  cs: seq<Stack>)
    requires |places| == |cs0| && Carried([mc] + cs0, [p] + places, p, replace, 0, pages, lv, cs)
    ensures |cs| == |cs0| + 1 && Placed(pages, lv, cs[1..], AllAfter(places, p, replace))
    ensures forall i :: 0 <= i < |cs0| ==> var c, c' := cs0[i], cs[1..][i];
            |c'.pg| == |c'.ki| && c'.init == c.init && c'.eof == c.eof && c'.del == c.del
  {
    hide At;
    forall i | 0 <= i < |cs0|
      ensures var c, c' := cs0[i], cs[1..][i];
              && |c'.pg| == |c'.ki| && c'.init == c.init && c'.eof == c.eof && c'.del == c.del
              && (c'.init ==> At(pages, lv, c', After(places[i], p, replace)))
    {
      assert ([mc] + cs0)[i + 1] == cs0[i] && ([p] + places)[i + 1] == places[i] && cs[1..][i] == cs[i + 1];
    }
  }

  /** The first item of an empty database: a new root leaf. */
  method PutFirst(db: Database, x: int, ghost places: seq<nat>)
    requires Walk.Sound(db, places) && db.depth == 0
    modifies db
    ensures CleanKept(old(db.pages), old(db.dirty), old(db.next), db.pages, db.dirty)
    ensures Walk.Sound(db, places) && db.depth == 1 && Walk.Contents(db) == [x] && db.cursors == old(db.cursors)
  {
    hide Joined, Nodes, Distinct, Rows, MinKeys, RightKeys, Apart, CleanKept, Database.Sized;
    ghost var pages0, loose0, next0, dirty0 := db.pages, db.loose, db.next, db.dirty;
    var np := db.NewPage();
    ApartEdit(db.base, db.first, db.pages, db.loose, db.next, db.dirty, np, [x]);
    PageGets(db.pages, np, [x]);
    db.pages := db.pages[np := [x]];
    db.root, db.depth := np, 1;
    db.lv := [[np], [x]];
    OneLeaf(db.pages, np, x, db.keys, db.key);
    ApartKeeps(db.base, db.first, pages0, loose0, next0, dirty0, db.pages, db.loose, db.next, db.dirty);
  }

  lemma PageGets(pages: Pages, np: Id, nodes: seq<int>)
    ensures Nodes(pages[np := nodes], np) == nodes
  {
  }

  lemma OneLeaf(pages: Pages, np: Id, x: int, keys: Keys, key: int -> int)
    requires Nodes(pages, np) == [x]
    ensures Tree(pages, np, [[np], [x]]) && MinKeys(pages, [[np], [x]], {}) && RightKeys(pages, [[np], [x]], keys, key)
  {
    JoinedOne(pages, np);
  }

  lemma JoinedOne(pages: Pages, np: Id)
    ensures Joined(pages, [np]) == Nodes(pages, np)
  {
    hide Nodes;
    JoinedFirst(pages, [np]);
    NoPages(pages);
    assert [np][1..] == [];
  }

  /** The cursor of mdb_put is tracked while its item is put. */
  method PutAt(db: Database, x: int, replace: bool, mc: Stack, ghost p: nat, ghost mix: seq<nat>,
               ghost places: seq<nat>) returns (ghost places': seq<nat>)
    requires Walk.Sound(db, places) && db.depth > 0 && mc.init && |mc.pg| == |mc.ki| == db.depth
    requires Slot(db.pages, db.lv, mc, p, mix) && (replace ==> Inside(db.pages, mc))
    requires MayCome(db.pages, db.lv, mix, db.keys, db.key, p, x, replace)
    modifies db
    ensures Walk.Sound(db, places') && |db.cursors| == |old(db.cursors)| == |places|
            && places' == AllAfter(places, p, replace)
    ensures var items := old(Walk.Contents(db));
            (if replace then p < |items| else p <= |items|) && Walk.Contents(db) == PutInto(items, p, x, replace)
    ensures forall i :: 0 <= i < |db.cursors| ==>
      var c, c' := old(db.cursors)[i], db.cursors[i]; c'.init == c.init && c'.eof == c.eof && c'.del == c.del
  {
    hide Joined, Nodes, Distinct, Rows, MinKeys, At, RightKeys, Unused, Database.Sized, Walk.Sound, Slot, Traces,
         MayCome, Carried, Apart, CleanKept, Inside, PutInto;
    SoundTree(db, places);
    ghost var cs0 := db.cursors;
    TrackedPlaces(db.pages, db.lv, cs0, places, mc, p);
    db.cursors := [mc] + db.cursors;
    Putting.Put(db, 0, x, replace, [p] + places, mix);
    Untracked(cs0, places, mc, p, replace, db.pages, db.lv, db.cursors);
    db.cursors := db.cursors[1..];
    places' := AllAfter(places, p, replace);
    MakeSound(db, places');
  }

  /** mdb_put; with MDB_NOOVERWRITE an item with the key stays. */
  method Put(db: Database, x: int, noOverwrite: bool, ghost places: seq<nat>)
    returns (stored: bool, ghost places': seq<nat>)
    requires Walk.Sound(db, places)
    modifies db
    ensures CleanKept(old(db.pages), old(db.dirty), old(db.next), db.pages, db.dirty)
    ensures old(db.dirty == {} && db.depth > 0) ==> Rows(db.pages, old(db.root), old(db.lv))
    ensures Walk.Sound(db, places') && |db.cursors| == |old(db.cursors)| == |places| == |places'|
    ensures stored <==> !(noOverwrite && old(Holds(db, db.key(x))))
    ensures !stored ==>
              Walk.Contents(db) == old(Walk.Contents(db)) && db.cursors == old(db.cursors) && places' == places
    ensures stored ==> Stored(old(Walk.Contents(db)), x, db.key, Walk.Contents(db))
    ensures forall i :: 0 <= i < |db.cursors| ==>
      var c, c' := old(db.cursors)[i], db.cursors[i];
      && c'.init == c.init && c'.eof == c.eof && c'.del == c.del
      && (c.init ==> SameItem(old(Walk.Contents(db)), places[i], x, db.key, Walk.Contents(db), places'[i]))
  {
    hide Joined, Nodes, Distinct, Rows, MinKeys, At, RightKeys, Unused, Database.Sized, Walk.Sound, Slot, Traces,
         MayCome, Parts, Stored, SameItem, Apart, CleanKept, Inside, PutInto, AllAfter, AtIx, After;
    SoundTree(db, places);
    ghost var pages0, root0, depth0, lv0 := db.pages, db.root, db.depth, db.lv;
    ghost var loose0, next0, dirty0 := db.loose, db.next, db.dirty;
    ghost var items := Walk.Contents(db);
    if db.depth == 0 {
      PutFirst(db, x, places);
      CleanLaw(db, places, pages0, root0, depth0, lv0, loose0, next0, dirty0);
      PutStores(db.key, [], 0, x, false);
      assert PutInto([], 0, x, false) == [x];
      return true, places;
    }
    var exact, mc;
    ghost var p, mix;
    exact, mc, p, mix := Find(db, NewCursor(), db.key(x));
    if exact && noOverwrite {
      CleanLaw(db, places, pages0, root0, depth0, lv0, loose0, next0, dirty0);
      forall q ensures SameItem(items, q, x, db.key, items, q) {
        SelfSame(items, q, x, db.key);
      }
      return false, places;
    }
    ComesTo(db, mix, p, x, exact);
    PutStores(db.key, items, p, x, exact);
    forall q ensures SameItem(items, q, x, db.key, PutInto(items, p, x, exact), After(q, p, exact)) {
      AfterSame(items, p, x, exact, db.key, q);
    }
    places' := PutAt(db, x, exact, mc, p, mix, places);
    CleanLaw(db, places', pages0, root0, depth0, lv0, loose0, next0, dirty0);
    stored := true;
  }

  /** The open cursors once the one of mdb_del is gone. */
  lemma UntrackedDel(db: Database, cs: seq<Stack>, places: seq<nat>)
    requires |cs| > 0 && |places| == |cs| && db.cursors == cs[1..] && db.Spare() && db.Intact() && db.Sized()
    requires forall i :: 0 <= i < |cs| ==> |cs[i].pg| == |cs[i].ki|
    requires db.depth == 0 ==> forall i :: 0 <= i < |cs| ==> !cs[i].init
    requires db.depth > 0 ==> db.Ok({}) && db.InOrder() && Placed(db.pages, db.lv, cs, places)
    ensures Walk.Sound(db, places[1..])
  {
    hide Joined, Nodes, Distinct, Rows, MinKeys, At, RightKeys, Unused, Database.Sized;
  }

  lemma ShiftedTail(p: nat, places: seq<nat>)
    ensures Walk.Shifted([p] + places, p)[1..] == Walk.Shifted(places, p)
  {
  }

  /** What became of the cursors but the first one. */
  lemma FollowedTail(mc: Stack, cs0: seq<Stack>, places: seq<nat>, p: nat, pages: Pages, lv: seq<seq<int>>,
                     cs1: seq<Stack>)
    requires |lv| > 0 && |places| == |cs0| && |cs1| == |cs0| + 1
    requires forall i :: 0 <= i < |cs1| ==>
               Deletion.Followed(([mc] + cs0)[i], ([p] + places)[i], p, false, pages, lv, cs1[i])
    ensures forall i :: 0 <= i < |cs0| ==> Deletion.Followed(cs0[i], places[i], p, false, pages, lv, cs1[1..][i])
  {
    hide Deletion.Followed;
    forall i | 0 <= i < |cs0| ensures Deletion.Followed(cs0[i], places[i], p, false, pages, lv, cs1[1..][i]) {
      assert ([mc] + cs0)[i + 1] == cs0[i] && ([p] + places)[i + 1] == places[i] && cs1[1..][i] == cs1[i + 1];
    }
  }

  /** The cursor of mdb_del is tracked while its item is deleted. */
  method DeleteAt(db: Database, mc: Stack, ghost p: nat, ghost mix: seq<nat>, ghost places: seq<nat>)
    returns (ghost places': seq<nat>)
    requires Walk.Sound(db, places) && db.depth > 0 && p < |Walk.Contents(db)|
    requires mc.init && AtIx(db.pages, db.lv, mc, p, mix) && Inside(db.pages, mc)
    modifies db
    ensures CleanKept(old(db.pages), old(db.dirty), old(db.next), db.pages, db.dirty)
    ensures Walk.Sound(db, places') && |db.cursors| == |old(db.cursors)| == |places|
            && places' == Walk.Shifted(places, p)
    ensures p < |old(Walk.Contents(db))| && Walk.Contents(db) == Without(old(Walk.Contents(db)), p)
    ensures db.depth > 0 ==> forall i :: 0 <= i < |db.cursors| ==>
      Deletion.Followed(old(db.cursors)[i], places[i], p, false, db.pages, db.lv, db.cursors[i])
  {
    hide Joined, Nodes, Distinct, Rows, MinKeys, At, RightKeys, Unused, Database.Sized, Walk.Sound, Traces,
         Deletion.Followed, Walk.Shifted;
    SoundTree(db, places);
    OnItem(db, mc, p, mix);
    ghost var cs0 := db.cursors;
    TrackedPlaces(db.pages, db.lv, cs0, places, mc, p);
    db.cursors := [mc] + db.cursors;
    MakeSound(db, [p] + places);
    var res;
    res, places' := Walk.Del(db, 0, [p] + places);
    SoundTree(db, places');
    ghost var cs1 := db.cursors;
    db.cursors := db.cursors[1..];
    UntrackedDel(db, cs1, places');
    if db.depth > 0 {
      FollowedTail(mc, cs0, places, p, db.pages, db.lv, cs1);
    }
    ShiftedTail(p, places);
    places' := places'[1..];
  }

  /** mdb_del: the item with the key goes, and cursors on it get C_DEL. */
  method Delete(db: Database, K: int, ghost places: seq<nat>)
    returns (found: bool, ghost places': seq<nat>, ghost p: nat)
    requires Walk.Sound(db, places)
    modifies db
    ensures CleanKept(old(db.pages), old(db.dirty), old(db.next), db.pages, db.dirty)
    ensures old(db.dirty == {} && db.depth > 0) ==> Rows(db.pages, old(db.root), old(db.lv))
    ensures Walk.Sound(db, places') && |db.cursors| == |old(db.cursors)| == |places| == |places'|
    ensures found <==> old(Holds(db, K))
    ensures Dropped(old(Walk.Contents(db)), K, db.key, Walk.Contents(db))
    ensures !found ==> Walk.Contents(db) == old(Walk.Contents(db)) && db.cursors == old(db.cursors) && places' == places
    ensures found ==>
              p < |old(Walk.Contents(db))| && db.key(old(Walk.Contents(db))[p]) == K
              && places' == Walk.Shifted(places, p)
    ensures found && db.depth > 0 ==> forall i :: 0 <= i < |db.cursors| ==>
      Deletion.Followed(old(db.cursors)[i], places[i], p, false, db.pages, db.lv, db.cursors[i])
  {
    hide Joined, Nodes, Distinct, Rows, MinKeys, At, RightKeys, Unused, Database.Sized, Walk.Sound, Slot, Traces,
         MayCome, Parts, Dropped, Deletion.Followed, AtIx, Apart, CleanKept;
    SoundTree(db, places);
    ghost var pages0, root0, depth0, lv0 := db.pages, db.root, db.depth, db.lv;
    ghost var loose0, next0, dirty0 := db.loose, db.next, db.dirty;
    ghost var items := Walk.Contents(db);
    p := 0;
    if db.depth == 0 {
      NoneDropped(items, K, db.key);
      CleanLaw(db, places, pages0, root0, depth0, lv0, loose0, next0, dirty0);
      return false, places, p;
    }
    var exact, mc;
    ghost var mix;
    exact, mc, p, mix := Find(db, NewCursor(), K);
    if !exact {
      CleanLaw(db, places, pages0, root0, depth0, lv0, loose0, next0, dirty0);
      NoneDropped(items, K, db.key);
      return false, places, p;
    }
    ItemsSorted(db);
    WithoutDrops(db.key, items, p);
    places' := DeleteAt(db, mc, p, mix, places);
    CleanLaw(db, places', pages0, root0, depth0, lv0, loose0, next0, dirty0);
    found := true;
  }

  lemma ItemsSorted(db: Database)
    requires db.Ok({}) && db.InOrder()
    ensures Sorted(ItemKeys(db.key, db.Items()))
  {
    hide KeyedTo, Rows, MinKeys, Distinct;
  }

  lemma NoneDropped(items: seq<int>, K: int, key: int -> int)
    requires forall y :: y in items ==> key(y) != K
    ensures Dropped(items, K, key, items)
  {
  }
}
