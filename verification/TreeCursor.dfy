/** Cursor movement over one tree: the stack of pages and indices of an
    MDB_cursor, for databases and sub-databases without duplicates. */
module TreeCursor {
  import opened Options
  import opened Tree

  const CURSOR_STACK: nat := 32

  /** What a cursor call returns. */
  datatype Code = Success(item: Item) | NotFound | Invalid

  /** Pushing the page that the path leads to. */
  lemma PushPath(root: Tree, pg: seq<Tree>, ki: seq<nat>, L: nat, k: nat)
    requires 0 < L < |pg| && Path(root, pg, ki, L - 1) && pg[L - 1].Branch? && ki[L - 1] < |pg[L - 1].kids|
    ensures var pg', ki' := pg[L := pg[L - 1].kids[ki[L - 1]]], ki[L := k];
            && Path(root, pg', ki', L)
            && Pre(pg', ki', L) == Pre(pg, ki, L - 1) + FlatKids(pg[L - 1].kids[..ki[L - 1]])
            && Post(pg', ki', L) == FlatKids(pg[L - 1].kids[ki[L - 1] + 1..]) + Post(pg, ki, L - 1)
  {
    var pg', ki' := pg[L := pg[L - 1].kids[ki[L - 1]]], ki[L := k];
    PrePostLocal(pg, ki, pg', ki', L - 1);
  }

  /** Changing the index in the page at L leaves the path to it alone. */
  lemma SetIndex(root: Tree, pg: seq<Tree>, ki: seq<nat>, L: nat, k: nat)
    requires Path(root, pg, ki, L)
    ensures var ki' := ki[L := k];
            Path(root, pg, ki', L) && Pre(pg, ki', L) == Pre(pg, ki, L) && Post(pg, ki', L) == Post(pg, ki, L)
  {
    PrePostLocal(pg, ki, pg, ki[L := k], L);
  }

  lemma Prefix(root: Tree, pg: seq<Tree>, ki: seq<nat>, L: nat)
    requires L > 0 && Path(root, pg, ki, L)
    ensures |pg| == |ki| > L && Path(root, pg, ki, L - 1) && pg[L - 1].Branch? && ki[L - 1] < |pg[L - 1].kids|
            && pg[L] == pg[L - 1].kids[ki[L - 1]]
  {
  }

  /** The cursor went from one page at L to the next, or to the one before. */
  ghost predicate Moved(root: Tree, pg: seq<Tree>, ki: seq<nat>, pg': seq<Tree>, ki': seq<nat>, L: nat, right: bool)
    requires Path(root, pg, ki, L)
  {
    && |pg'| == |pg| && Path(root, pg', ki', L)
    && (right ==> ki'[L] == 0 && Pre(pg', ki', L) == Pre(pg, ki, L) + Flat(pg[L]))
    && (!right ==> ki'[L] == NumKeys(pg'[L]) - 1 && Pre(pg', ki', L) + Flat(pg'[L]) == Pre(pg, ki, L))
  }

  lemma MovedPath(root: Tree, pg: seq<Tree>, ki: seq<nat>, pg': seq<Tree>, ki': seq<nat>, L: nat, right: bool)
    requires Path(root, pg, ki, L) && Moved(root, pg, ki, pg', ki', L, right)
    ensures |pg'| == |ki'| == |pg| > L && Path(root, pg', ki', L) && (right ==> ki'[L] == 0)
  {
  }

  lemma RootAlone(pg: seq<Tree>, ki: seq<nat>)
    requires |pg| == |ki| > 0
    ensures Pre(pg, ki, 0) == Post(pg, ki, 0) == []
  {
  }

  /** The parent holds another child on that side. */
  lemma StepRight(root: Tree, pg: seq<Tree>, ki: seq<nat>, L: nat)
    requires L > 0 && Path(root, pg, ki, L) && ki[L - 1] + 1 < |pg[L - 1].kids|
    ensures var c := ki[L - 1] + 1; Moved(root, pg, ki, pg[L := pg[L - 1].kids[c]], ki[L - 1 := c][L := 0], L, true)
  {
    hide Flat, FlatKids;
    var c := ki[L - 1] + 1;
    FlatKidsAt(pg[L - 1].kids, c - 1);
    SetIndex(root, pg, ki, L - 1, c);
    PushPath(root, pg, ki[L - 1 := c], L, 0);
  }

  lemma StepLeft(root: Tree, pg: seq<Tree>, ki: seq<nat>, L: nat)
    requires L > 0 && Path(root, pg, ki, L) && ki[L - 1] > 0 && Shape(root)
    ensures var c := ki[L - 1] - 1; var mp := pg[L - 1].kids[c];
            && NumKeys(mp) > 0
            && Moved(root, pg, ki, pg[L := mp], ki[L - 1 := c][L := 0][L := NumKeys(mp) - 1], L, false)
  {
    hide Shape, Links, Flat, FlatKids;
    Prefix(root, pg, ki, L);
    var c := ki[L - 1] - 1;
    var mp := pg[L - 1].kids[c];
    FlatKidsAt(pg[L - 1].kids, c);
    SetIndex(root, pg, ki, L - 1, c);
    PushPath(root, pg, ki[L - 1 := c], L, 0);
    PageAt(root, pg[L := mp], ki[L - 1 := c][L := 0], L);
    SetIndex(root, pg[L := mp], ki[L - 1 := c][L := 0], L, NumKeys(mp) - 1);
  }

  /** The parent had to move itself. */
  lemma Carry(root: Tree, pg: seq<Tree>, ki: seq<nat>, pg1: seq<Tree>, ki1: seq<nat>, L: nat, right: bool)
    requires L > 0 && Path(root, pg, ki, L) && Shape(root)
    requires if right then ki[L - 1] + 1 == |pg[L - 1].kids| else ki[L - 1] == 0
    requires Moved(root, pg, ki, pg1, ki1, L - 1, right)
    ensures pg1[L - 1].Branch? && ki1[L - 1] < |pg1[L - 1].kids|
    ensures var mp := pg1[L - 1].kids[ki1[L - 1]];
            && NumKeys(mp) > 0
            && Moved(root, pg, ki, pg1[L := mp], if right then ki1[L := 0]
                                                 else ki1[L := 0][L := NumKeys(mp) - 1], L, right)
  {
    hide Shape, Links, Pre, Flat, FlatKids;
    Prefix(root, pg, ki, L);
    MovedPath(root, pg, ki, pg1, ki1, L - 1, right);
    PageAt(root, pg1, ki1, L - 1);
    PathShape(root, pg, ki, L);
    PathShape(root, pg1, ki1, L - 1);
    var mp := pg1[L - 1].kids[ki1[L - 1]];
    PushPath(root, pg1, ki1, L, 0);
    PageAt(root, pg1[L := mp], ki1[L := 0], L);
    if right {
      CarryRight(root, pg, ki, pg1, ki1, L);
    } else {
      CarryLeft(root, pg, ki, pg1, ki1, L);
      SetIndex(root, pg1[L := mp], ki1[L := 0], L, NumKeys(mp) - 1);
    }
  }

  lemma CarryRight(root: Tree, pg: seq<Tree>, ki: seq<nat>, pg1: seq<Tree>, ki1: seq<nat>, L: nat)
    requires L > 0 && Path(root, pg, ki, L) && ki[L - 1] + 1 == |pg[L - 1].kids|
    requires Path(root, pg1, ki1, L - 1) && |pg1| == |pg| && ki1[L - 1] == 0 && pg1[L - 1].Branch?
             && |pg1[L - 1].kids| > 0
    requires Pre(pg1, ki1, L - 1) == Pre(pg, ki, L - 1) + Flat(pg[L - 1])
    ensures var pg', ki' := pg1[L := pg1[L - 1].kids[0]], ki1[L := 0];
            Path(root, pg', ki', L) && Pre(pg', ki', L) == Pre(pg, ki, L) + Flat(pg[L])
  {
    hide Flat, FlatKids, Pre;
    PreBelow(pg, ki, L);
    EdgeChild(pg[L - 1].kids, ki[L - 1]);
    FlatKidsAt(pg[L - 1].kids, ki[L - 1]);
    FlatBranch(pg[L - 1]);
    EdgeChild(pg1[L - 1].kids, 0);
    PushPath(root, pg1, ki1, L, 0);
  }

  lemma FlatBranch(t: Tree)
    requires t.Branch?
    ensures Flat(t) == FlatKids(t.kids)
  {
  }

  lemma PreBelow(pg: seq<Tree>, ki: seq<nat>, L: nat)
    requires Links(pg, ki, L) && L > 0
    ensures L < |pg| == |ki| && Links(pg, ki, L - 1) && pg[L - 1].Branch? && ki[L - 1] < |pg[L - 1].kids|
            && pg[L] == pg[L - 1].kids[ki[L - 1]]
    ensures Pre(pg, ki, L) == Pre(pg, ki, L - 1) + FlatKids(pg[L - 1].kids[..ki[L - 1]])
  {
    hide Flat, FlatKids;
  }

  lemma CarryLeft(root: Tree, pg: seq<Tree>, ki: seq<nat>, pg1: seq<Tree>, ki1: seq<nat>, L: nat)
    requires L > 0 && Path(root, pg, ki, L) && ki[L - 1] == 0
    requires Path(root, pg1, ki1, L - 1) && |pg1| == |pg| && pg1[L - 1].Branch? && ki1[L - 1] + 1 == |pg1[L - 1].kids|
    requires Pre(pg1, ki1, L - 1) + Flat(pg1[L - 1]) == Pre(pg, ki, L - 1)
    ensures var pg', ki' := pg1[L := pg1[L - 1].kids[ki1[L - 1]]], ki1[L := 0];
            Path(root, pg', ki', L) && Pre(pg', ki', L) + Flat(pg'[L]) == Pre(pg, ki, L)
  {
    hide Flat, FlatKids, Pre;
    PreBelow(pg, ki, L);
    var kids, c := pg1[L - 1].kids, ki1[L - 1];
    EdgeChild(pg[L - 1].kids, 0);
    EdgeChild(kids, c);
    FlatKidsAt(kids, c);
    FlatBranch(pg1[L - 1]);
    PushPath(root, pg1, ki1, L, 0);
  }

  lemma EdgeChild(kids: seq<Tree>, i: nat)
    requires i < |kids|
    ensures i == 0 ==> FlatKids(kids[..i]) == []
    ensures i + 1 == |kids| ==> FlatKids(kids[i + 1..]) == []
  {
  }

  /** No further page on that side. */
  lemma NoSibling(root: Tree, pg: seq<Tree>, ki: seq<nat>, L: nat)
    requires L > 0 && Path(root, pg, ki, L)
    ensures ki[L - 1] + 1 == |pg[L - 1].kids| && Post(pg, ki, L - 1) == [] ==> Post(pg, ki, L) == []
    ensures ki[L - 1] == 0 && Pre(pg, ki, L - 1) == [] ==> Pre(pg, ki, L) == []
  {
    EdgeChild(pg[L - 1].kids, ki[L - 1]);
  }

  /** The root a cursor may work on. */
  ghost predicate Fits(root: Option<Tree>) {
    root.Some? ==> SearchTree(root.value) && Height(root.value) < CURSOR_STACK
  }

  /** What the path says about the page at L. */
  lemma PageAt(root: Tree, pg: seq<Tree>, ki: seq<nat>, L: nat)
    requires Path(root, pg, ki, L) && Shape(root)
    ensures |pg| == |ki| > L && NumKeys(pg[L]) >= 1 && (pg[L].Branch? ==> NumKeys(pg[L]) >= 2)
    ensures pg[L].Branch? <==> L < Height(root)
    ensures L <= Height(root)
  {
    PathShape(root, pg, ki, L);
  }

  /** The smallest index from low0 on whose key is not below the given one. */
  ghost predicate LowerBound(keys: seq<Key>, low0: nat, key: Key, i: nat) {
    && low0 <= i <= |keys|
    && (forall j :: low0 <= j < i ==> keys[j] < key)
    && (forall j :: i <= j < |keys| ==> keys[j] >= key)
  }

  ghost predicate Ascending(keys: seq<Key>, low0: nat) { forall i, j :: low0 <= i < j < |keys| ==> keys[i] < keys[j] }

  /** mdb_node_search: binary search in a page, from index 1 in a branch. */
  method NodeSearch(keys: seq<Key>, low0: nat, key: Key) returns (i: nat, exact: bool)
    requires low0 == 0 || (low0 == 1 && |keys| >= 2)
    requires Ascending(keys, low0)
    ensures LowerBound(keys, low0, key, i)
    ensures exact <==> i < |keys| && keys[i] == key
  {
    i := 0;
    var low: int, high: int, rc: int := low0, |keys| - 1, 0;
    while low <= high
      invariant low0 <= low <= high + 1 <= |keys|
      invariant forall j :: low0 <= j < low ==> keys[j] < key
      invariant forall j :: high < j < |keys| ==> keys[j] > key
      invariant rc != 0 || (i == 0 && low == low0 && high == |keys| - 1)
      invariant rc > 0 ==> i + 1 == low
      invariant rc < 0 ==> i == high + 1 && 0 <= i < |keys|
      decreases high - low
    {
      i := (low + high) / 2;
      rc := key - keys[i];
      if rc == 0 {
        break;
      }
      if rc > 0 {
        low := i + 1;
      } else {
        high := i - 1;
      }
    }
    if rc > 0 {
      i := i + 1;
    }
    exact := rc == 0 && |keys| > 0;
  }

  /** Where a descent from the root is going. */
  datatype Goal = First | Last | Of(key: Key)

  /** The subtree at L holds the first item, the last one, or every item that
      can have the key. */
  ghost predicate Aimed(pg: seq<Tree>, ki: seq<nat>, L: nat, goal: Goal)
    requires Links(pg, ki, L)
  {
    match goal
    case First => Pre(pg, ki, L) == []
    case Last => Post(pg, ki, L) == []
    case Of(key) => AllBelow(Pre(pg, ki, L), key) && AllAbove(Post(pg, ki, L), key)
  }

  /** The child to descend into. */
  ghost predicate Routed(t: Tree, goal: Goal, c: nat)
    requires t.Branch?
  {
    && c < |t.kids| == |t.seps|
    && match goal
       case First => c == 0
       case Last => c + 1 == |t.kids|
       case Of(key) => (c > 0 ==> t.seps[c] <= key) && (c + 1 < |t.kids| ==> key < t.seps[c + 1])
  }

  lemma AimedChild(root: Tree, pg: seq<Tree>, ki: seq<nat>, L: nat, goal: Goal)
    requires Path(root, pg, ki, L + 1) && Aimed(pg, ki, L, goal)
    requires Separated(pg[L]) && Routed(pg[L], goal, ki[L])
    ensures Aimed(pg, ki, L + 1, goal)
  {
    hide Separated, FlatKids;
    EdgeChild(pg[L].kids, ki[L]);
    if goal.Of? {
      ChildRange(pg[L], ki[L], goal.key);
    }
  }

  lemma Descend(root: Tree, pg: seq<Tree>, ki: seq<nat>, L: nat, goal: Goal, c: nat)
    requires Path(root, pg, ki, L) && L + 1 < |pg| && SearchTree(root) && Aimed(pg, ki, L, goal)
    requires pg[L].Branch? && Routed(pg[L], goal, c)
    ensures var pg', ki' := pg[L + 1 := pg[L].kids[c]], ki[L := c][L + 1 := 0];
            Path(root, pg', ki', L + 1) && Aimed(pg', ki', L + 1, goal)
  {
    hide Pre, Post, Links, Separated, Shape, Sorted, FlatKids, Flat;
    PathShape(root, pg, ki, L);
    LinksLength(pg, ki, L);
    SetIndex(root, pg, ki, L, c);
    var pg', ki' := pg[L + 1 := pg[L].kids[c]], ki[L := c][L + 1 := 0];
    PushPath(root, pg, ki[L := c], L + 1, 0);
    PrePostLocal(pg, ki, pg', ki', L);
    AimedChild(root, pg', ki', L, goal);
  }

  lemma RootPath(root: Tree, pg: seq<Tree>, ki: seq<nat>, goal: Goal)
    requires |pg| == |ki| > 0
    ensures Path(root, pg[0 := root], ki, 0) && Aimed(pg[0 := root], ki, 0, goal)
  {
  }

  lemma PathRoot(root: Tree, pg: seq<Tree>, ki: seq<nat>, L: nat)
    requires Path(root, pg, ki, L)
    ensures |pg| == |ki| > L && pg[0 := root] == pg
  {
  }

  lemma ShorterPath(root: Tree, pg: seq<Tree>, ki: seq<nat>, L: nat, M: nat)
    requires Path(root, pg, ki, L) && M <= L
    ensures Path(root, pg, ki, M)
  {
  }

  lemma LinksLength(pg: seq<Tree>, ki: seq<nat>, L: nat)
    requires Links(pg, ki, L)
    ensures L < |pg| == |ki|
  {
  }

  /** The descent of mdb_page_search_root has come to the page at L.  stored says
      that the stack may still lead further, to the last leaf. */
  ghost predicate Heading(root: Tree, pg: seq<Tree>, ki: seq<nat>, L: nat, goal: Goal, stored: bool) {
    && SearchTree(root) && L <= Height(root) < CURSOR_STACK == |pg| == |ki|
    && Path(root, pg, ki, L) && Aimed(pg, ki, L, goal)
    && (stored ==> goal.Last? && (Path(root, pg, ki, Height(root)) || ki[L] == 0))
  }

  lemma HeadingStart(root: Tree, pg: seq<Tree>, ki: seq<nat>, goal: Goal, stored: bool)
    requires SearchTree(root) && Height(root) < CURSOR_STACK == |pg| == |ki|
    requires stored ==> goal.Last? && Path(root, pg, ki, Height(root))
    ensures Heading(root, pg[0 := root], ki, 0, goal, stored)
  {
    hide SearchTree, Aimed;
    RootPath(root, pg, ki, goal);
    if stored { PathRoot(root, pg, ki, Height(root)); }
  }

  lemma HeadingBranch(root: Tree, pg: seq<Tree>, ki: seq<nat>, L: nat, goal: Goal, stored: bool)
    requires Heading(root, pg, ki, L, goal, stored) && L < |pg| && pg[L].Branch?
    ensures L + 1 < CURSOR_STACK && Shape(pg[L]) && Separated(pg[L]) && |pg[L].kids| == NumKeys(pg[L]) >= 2
  {
    hide Pre, Post, Links, Shape, Separated, Sorted, FlatKids, Flat, Aimed;
    PathShape(root, pg, ki, L);
    PageAt(root, pg, ki, L);
  }

  lemma HeadingStay(root: Tree, pg: seq<Tree>, ki: seq<nat>, L: nat, goal: Goal)
    requires Heading(root, pg, ki, L, goal, true) && L < |pg| == |ki| && pg[L].Branch? && Routed(pg[L], goal, ki[L])
    ensures Heading(root, pg, ki, L + 1, goal, true)
  {
    hide Pre, Post, Links, Shape, Separated, Sorted, FlatKids, Flat, Aimed;
    PathShape(root, pg, ki, L);
    PageAt(root, pg, ki, L);
    ShorterPath(root, pg, ki, Height(root), L + 1);
    AimedChild(root, pg, ki, L, goal);
  }

  lemma HeadingDown(root: Tree, pg: seq<Tree>, ki: seq<nat>, L: nat, goal: Goal, stored: bool, c: nat)
    requires Heading(root, pg, ki, L, goal, stored) && L < |pg| == |ki| && pg[L].Branch? && Routed(pg[L], goal, c)
    ensures L + 1 < |pg| && Heading(root, pg[L + 1 := pg[L].kids[c]], ki[L := c][L + 1 := 0], L + 1, goal, stored)
  {
    hide Pre, Post, Links, Shape, Separated, Sorted, FlatKids, Flat, Aimed;
    PageAt(root, pg, ki, L);
    Descend(root, pg, ki, L, goal, c);
  }

  lemma HeadingLeaf(root: Tree, pg: seq<Tree>, ki: seq<nat>, L: nat, goal: Goal, stored: bool)
    requires Heading(root, pg, ki, L, goal, stored) && L < |pg| && pg[L].Leaf?
    ensures Path(root, pg, ki, L) && Aimed(pg, ki, L, goal) && L == Height(root) && |pg[L].items| > 0
  {
    hide Pre, Post, Links, Shape, Separated, Sorted, FlatKids, Flat, Aimed;
    PageAt(root, pg, ki, L);
  }

  /** The child that mdb_page_search_root derives from the search result. */
  lemma RouteOf(t: Tree, key: Key, i: nat)
    requires t.Branch? && Shape(t) && Separated(t) && LowerBound(t.seps, 1, key, i)
    ensures var exact := i < |t.seps| && t.seps[i] == key;
            Routed(t, Of(key), if i == |t.seps| then i - 1 else if exact then i else i - 1)
  {
    hide Separated;
    if i + 1 < |t.seps| {
      SepsAscend(t, i, i + 1);
    }
  }

  lemma SepsAscending(t: Tree)
    requires t.Branch? && Shape(t) && Separated(t)
    ensures Ascending(t.seps, 1) && |t.seps| == |t.kids| >= 2
  {
    forall i, j | 1 <= i < j < |t.seps| ensures t.seps[i] < t.seps[j] {
      SepsAscend(t, i, j);
    }
  }

  /** The child of a branch page that mdb_page_search_root follows. */
  method Route(mp: Tree, goal: Goal) returns (i: nat)
    requires mp.Branch? && Shape(mp) && Separated(mp)
    ensures Routed(mp, goal, i)
  {
    hide Shape, Separated;
    SepsAscending(mp);
    i := 0;
    if goal.Of? {
      var exact;
      i, exact := NodeSearch(mp.seps, 1, goal.key);
      RouteOf(mp, goal.key, i);
      if i == |mp.kids| {
        i := |mp.kids| - 1;
      } else if !exact {
        i := i - 1;
      }
    } else if goal.Last? {
      i := |mp.kids| - 1;
    }
  }

  function KeysOf(items: seq<Item>): (keys: seq<Key>)
    ensures |keys| == |items| && forall i :: 0 <= i < |items| ==> keys[i] == items[i].key
  {
    seq(|items|, i requires 0 <= i < |items| => items[i].key)
  }

  // ---------------------------------------------------------------- ranks

  /** How many items come before the key. */
  function Rank(s: seq<Item>, key: Key): (p: nat)
    ensures p <= |s| && (forall j :: 0 <= j < p ==> s[j].key < key) && (p < |s| ==> s[p].key >= key)
  {
    if |s| == 0 || s[0].key >= key then 0 else 1 + Rank(s[1..], key)
  }

  lemma RankIs(s: seq<Item>, key: Key, p: nat)
    requires p <= |s| && (forall j :: 0 <= j < p ==> s[j].key < key) && (p < |s| ==> s[p].key >= key)
    ensures Rank(s, key) == p
  {
  }

  /** Items on a page and around it, as one sequence. */
  lemma LeafItems(root: Tree, pg: seq<Tree>, ki: seq<nat>, L: nat, i: nat)
    requires Path(root, pg, ki, L) && pg[L].Leaf? && i < |pg[L].items|
    ensures var p := |Pre(pg, ki, L)| + i; p < |Flat(root)| && Flat(root)[p] == pg[L].items[i]
  {
    PathSplits(root, pg, ki, L);
  }

  lemma LeafTotal(root: Tree, pg: seq<Tree>, ki: seq<nat>, L: nat)
    requires Path(root, pg, ki, L) && pg[L].Leaf?
    ensures |Flat(root)| == |Pre(pg, ki, L)| + |pg[L].items| + |Post(pg, ki, L)|
  {
    PathSplits(root, pg, ki, L);
  }

  lemma PartAscending(b: seq<Item>, s: seq<Item>, p: seq<Item>)
    requires Sorted(b + s + p)
    ensures Ascending(KeysOf(s), 0)
  {
    var all := b + s + p;
    assert forall i :: 0 <= i < |s| ==> all[|b| + i] == s[i];
  }

  lemma RankOfParts(b: seq<Item>, s: seq<Item>, p: seq<Item>, key: Key, i: nat)
    requires AllBelow(b, key) && AllAbove(p, key) && LowerBound(KeysOf(s), 0, key, i)
    ensures Rank(b + s + p, key) == |b| + i
  {
    var all := b + s + p;
    forall j | 0 <= j < |b| + i ensures all[j].key < key {
      if j >= |b| {
        assert all[j] == s[j - |b|] && KeysOf(s)[j - |b|] < key;
      }
    }
    if |b| + i < |all| && i < |s| {
      assert all[|b| + i] == s[i] && KeysOf(s)[i] >= key;
    }
    RankIs(all, key, |b| + i);
  }

  lemma LeafAscending(root: Tree, pg: seq<Tree>, ki: seq<nat>, L: nat)
    requires Path(root, pg, ki, L) && pg[L].Leaf? && Sorted(Flat(root))
    ensures Ascending(KeysOf(pg[L].items), 0)
  {
    hide Pre, Post, Links, Sorted, Ascending;
    LinksLength(pg, ki, L);
    PathSplits(root, pg, ki, L);
    PartAscending(Pre(pg, ki, L), pg[L].items, Post(pg, ki, L));
  }

  /** The search in the right leaf finds the rank in the whole tree. */
  lemma RankInLeaf(root: Tree, pg: seq<Tree>, ki: seq<nat>, L: nat, key: Key, i: nat)
    requires Path(root, pg, ki, L) && pg[L].Leaf?
    requires Aimed(pg, ki, L, Of(key)) && LowerBound(KeysOf(pg[L].items), 0, key, i)
    ensures Rank(Flat(root), key) == |Pre(pg, ki, L)| + i
  {
    hide Pre, Post, Links, LowerBound, Rank;
    LinksLength(pg, ki, L);
    PathSplits(root, pg, ki, L);
    RankOfParts(Pre(pg, ki, L), pg[L].items, Post(pg, ki, L), key, i);
  }

  /** A page whose first item is not above the key and whose last is not below
      it is the page the key belongs to. */
  lemma BetweenIsAimed(root: Tree, pg: seq<Tree>, ki: seq<nat>, L: nat, key: Key)
    requires Path(root, pg, ki, L) && pg[L].Leaf? && |pg[L].items| > 0 && Sorted(Flat(root))
    ensures pg[L].items[0].key <= key ==> AllBelow(Pre(pg, ki, L), key)
    ensures pg[L].items[|pg[L].items| - 1].key >= key ==> AllAbove(Post(pg, ki, L), key)
  {
    hide Pre, Post, FlatKids;
    PathSplits(root, pg, ki, L);
    SortedParts(Flat(root), Pre(pg, ki, L), pg[L].items, Post(pg, ki, L));
  }

  lemma SortedParts(f: seq<Item>, b: seq<Item>, s: seq<Item>, p: seq<Item>)
    requires Sorted(f) && f == b + s + p && |s| > 0
    ensures forall j :: 0 <= j < |b| ==> b[j].key < s[0].key
    ensures forall j :: 0 <= j < |p| ==> p[j].key > s[|s| - 1].key
  {
    assert f[|b|] == s[0] && f[|b| + |s| - 1] == s[|s| - 1];
    forall j | 0 <= j < |b| ensures b[j].key < s[0].key {
      assert b[j] == f[j];
    }
    forall j | 0 <= j < |p| ensures p[j].key > s[|s| - 1].key {
      assert p[j] == f[|b| + |s| + j];
    }
  }

  /** No page of the path has a right neighbour. */
  lemma {:induction false} LastEverywhere(root: Tree, pg: seq<Tree>, ki: seq<nat>, L: nat)
    requires Path(root, pg, ki, L) && forall l :: 0 <= l < L ==> ki[l] >= NumKeys(pg[l]) - 1
    ensures Post(pg, ki, L) == []
  {
    if L > 0 {
      LastEverywhere(root, pg, ki, L - 1);
      EdgeChild(pg[L - 1].kids, ki[L - 1]);
    }
  }

  /** In an exact search the item at the rank has another key. */
  ghost predicate Absent(s: seq<Item>, key: Key) { var p := Rank(s, key); p < |s| ==> s[p].key != key }

  lemma AbsentFromLeaf(root: Tree, pg: seq<Tree>, ki: seq<nat>, L: nat, key: Key, i: nat)
    requires Path(root, pg, ki, L) && pg[L].Leaf?
    requires Aimed(pg, ki, L, Of(key)) && LowerBound(KeysOf(pg[L].items), 0, key, i)
    requires i < |pg[L].items| ==> pg[L].items[i].key != key
    ensures Absent(Flat(root), key)
  {
    hide Pre, Post, Links, LowerBound, Rank;
    LinksLength(pg, ki, L);
    PathSplits(root, pg, ki, L);
    RankInLeaf(root, pg, ki, L, key, i);
    assert LowerBound(KeysOf(pg[L].items), 0, key, i) ==> i <= |pg[L].items| by {
      LowerBoundBound(KeysOf(pg[L].items), 0, key, i);
    }
    var b, s, p := Pre(pg, ki, L), pg[L].items, Post(pg, ki, L);
    var q := Rank(Flat(root), key);
    if q < |Flat(root)| {
      if i < |s| {
        assert Flat(root)[q] == s[i];
      } else {
        assert Flat(root)[q] == p[0];
      }
    }
  }

  lemma LowerBoundBound(keys: seq<Key>, low0: nat, key: Key, i: nat)
    requires LowerBound(keys, low0, key, i)
    ensures i <= |keys|
  {
  }

  /** How the shortcuts of mdb_cursor_set leave: at the item, to a search in
      this page, without success, or to a search from the root. */
  datatype Jump = ToItem | ToPage | Missing | ToRoot

  class Cursor {
    const root: Option<Tree>
    var pg: seq<Tree>
    var ki: seq<nat>
    var snum: nat
    var init: bool
    var eof: bool

    /** A fresh cursor: mdb_cursor_init, or mdb_xcursor_init1 for a sub-tree. */
    constructor (root: Option<Tree>)
      requires Fits(root)
      ensures this.root == root && Valid() && !init
    {
      this.root := root;
      pg, ki := seq(CURSOR_STACK, _ => Leaf([])), seq(CURSOR_STACK, _ => 0);
      snum, init, eof := 0, false, false;
    }

    /** A cursor on the first value of a sub-page: mdb_xcursor_init1 without
        F_SUBDATA. */
    constructor InSubPage(page: Tree)
      requires Fits(Some(page)) && page.Leaf?
      ensures this.root == Some(page) && Valid() && init && !eof
    {
      this.root := Some(page);
      pg, ki := seq(CURSOR_STACK, i => if i == 0 then page else Leaf([])), seq(CURSOR_STACK, _ => 0);
      snum, init, eof := 1, true, false;
    }

    /** The stack is a path from the root. */
    ghost predicate OnPath()
      reads this
    {
      && |pg| == |ki| == CURSOR_STACK && root.Some? && Fits(root)
      && 1 <= snum && Path(root.value, pg, ki, snum - 1)
    }

    /** The path ends at a leaf. */
    ghost predicate AtLeaf()
      reads this
    {
      OnPath() && snum == Height(root.value) + 1 && pg[snum - 1].Leaf? && |pg[snum - 1].items| > 0
    }

    ghost predicate Valid()
      reads this
    {
      && |pg| == |ki| == CURSOR_STACK && Fits(root)
      && (init ==> AtLeaf() && ki[snum - 1] <= |pg[snum - 1].items|)
      && (init && eof ==> After() == [])
    }

    ghost function Items(): seq<Item> { if root.None? then [] else Flat(root.value) }

    lemma NoItems()
      requires Fits(root)
      ensures Items() == [] <==> root.None?
    {
      if root.Some? {
        NotEmpty(root.value);
      }
    }

    ghost function Before(): seq<Item>
      requires OnPath()
      reads this
    {
      Pre(pg, ki, snum - 1)
    }

    ghost function After(): seq<Item>
      requires OnPath()
      reads this
    {
      Post(pg, ki, snum - 1)
    }

    /** The cursor's place in the whole sequence of items. */
    ghost function Pos(): nat
      requires AtLeaf()
      reads this
    {
      |Before()| + ki[snum - 1]
    }

    /** The index is past the last item of its page. */
    ghost predicate Past()
      requires AtLeaf()
      reads this
    {
      ki[snum - 1] >= |pg[snum - 1].items|
    }

    /** The cursor stands on item p. */
    ghost predicate On(p: int)
      reads this
    {
      Valid() && init && !Past() && Pos() == p
    }

    /** Moves the page on top of the stack, of any level, to its neighbour. */
    method Sibling(right: bool) returns (found: bool)
      requires OnPath()
      modifies this`pg, this`ki, this`snum
      ensures OnPath() && snum == old(snum)
      ensures found ==> Moved(root.value, old(pg), old(ki), pg, ki, snum - 1, right)
      ensures !found ==> pg == old(pg) && ki == old(ki) && (if right then After() else Before()) == []
      decreases snum
    {
      hide Flat, FlatKids, Shape, SearchTree, Moved, Pre, Post, Links, Height;
      if snum < 2 {
        RootAlone(pg, ki);
        return false;
      }
      ghost var pg0, ki0, L := pg, ki, snum - 1;
      ShapeOf(root.value);
      Prefix(root.value, pg, ki, L);
      PageAt(root.value, pg, ki, L);
      snum := snum - 1;
      var edge := if right then ki[snum - 1] + 1 >= NumKeys(pg[snum - 1]) else ki[snum - 1] == 0;
      if edge {
        found := Sibling(right);
        if !found {
          NoSibling(root.value, pg, ki, L);
          snum := snum + 1;
          return;
        }
        MovedPath(root.value, pg0, ki0, pg, ki, L - 1, right);
        Carry(root.value, pg0, ki0, pg, ki, L, right);
      } else if right {
        StepRight(root.value, pg, ki, L);
        ki := ki[snum - 1 := ki[snum - 1] + 1];
      } else {
        StepLeft(root.value, pg, ki, L);
        ki := ki[snum - 1 := ki[snum - 1] - 1];
      }
      var mp := pg[snum - 1].kids[ki[snum - 1]];
      pg := pg[snum := mp];
      ki := ki[snum := 0];
      snum := snum + 1;
      if !right {
        ki := ki[snum - 1 := NumKeys(mp) - 1];
      }
      found := true;
      MovedPath(root.value, pg0, ki0, pg, ki, L, right);
    }

    /** mdb_page_search with mdb_page_search_root: the leaf the goal is in. */
    method PageSearch(goal: Goal) returns (found: bool)
      requires Valid()
      modifies this`pg, this`ki, this`snum, this`init, this`eof
      ensures found == root.Some?
      ensures !found ==> Valid() && !init
      ensures found ==> |pg| == |ki| == CURSOR_STACK && AtLeaf() && init && !eof && Aimed(pg, ki, snum - 1, goal)
    {
      hide Heading, Aimed, Path, Shape, Separated, Sorted, FlatKids, Flat;
      if root.None? {
        return false;
      }
      HeadingStart(root.value, pg, ki, goal, goal.Last? && init);
      pg := pg[0 := root.value];
      snum := 1;
      var mp := root.value;
      while mp.Branch?
        invariant 1 <= snum <= CURSOR_STACK == |pg| == |ki| && mp == pg[snum - 1]
        invariant Heading(root.value, pg, ki, snum - 1, goal, goal.Last? && init)
        decreases CURSOR_STACK - snum
      {
        HeadingBranch(root.value, pg, ki, snum - 1, goal, goal.Last? && init);
        var i := Route(mp, goal);
        if goal.Last? && init && ki[snum - 1] == i {
          HeadingStay(root.value, pg, ki, snum - 1, goal);
        } else {
          HeadingDown(root.value, pg, ki, snum - 1, goal, goal.Last? && init, i);
          ki := ki[snum - 1 := i];
          pg := pg[snum := mp.kids[i]];
          ki := ki[snum := 0];
        }
        snum := snum + 1;
        mp := pg[snum - 1];
      }
      HeadingLeaf(root.value, pg, ki, snum - 1, goal, goal.Last? && init);
      init, eof := true, false;
      found := true;
    }

    /** The item at the cursor. */
    method Here() returns (item: Item)
      requires Valid() && init && !Past()
      ensures item == pg[snum - 1].items[ki[snum - 1]]
      ensures Pos() < |Items()| && item == Items()[Pos()]
    {
      hide Pre, Post, Links, Shape, Separated, Sorted, Flat;
      LeafItems(root.value, pg, ki, snum - 1, ki[snum - 1]);
      item := pg[snum - 1].items[ki[snum - 1]];
    }

    /** Sets the index in the leaf. */
    method SetLeafIndex(i: nat)
      requires |pg| == |ki| == CURSOR_STACK && AtLeaf() && i <= |pg[snum - 1].items|
      modifies this`ki
      ensures |pg| == |ki| == CURSOR_STACK && AtLeaf() && ki[snum - 1] == i && Before() == old(Before())
              && After() == old(After())
      ensures old(eof ==> After() == []) && init ==> Valid()
    {
      hide Pre, Post, Links, Shape, Separated, Sorted, Flat;
      SetIndex(root.value, pg, ki, snum - 1, i);
      ki := ki[snum - 1 := i];
    }

    method First() returns (r: Code)
      requires Valid()
      modifies this`pg, this`ki, this`snum, this`init, this`eof
      ensures Valid()
      ensures Items() == [] ==> r == NotFound && !init
      ensures Items() != [] ==> r == Success(Items()[0]) && On(0) && !eof
    {
      hide Pre, Post, Links, Shape, Separated, Sorted, Flat;
      NoItems();
      if !init || snum > 1 {
        var found := PageSearch(Goal.First);
        if !found {
          return NotFound;
        }
      }
      RootAlone(pg, ki);
      init, eof := true, false;
      SetLeafIndex(0);
      var item := Here();
      r := Success(item);
    }

    method Last() returns (r: Code)
      requires Valid()
      modifies this`pg, this`ki, this`snum, this`init, this`eof
      ensures Valid()
      ensures Items() == [] ==> r == NotFound && !init
      ensures Items() != [] ==> r == Success(Items()[|Items()| - 1]) && On(|Items()| - 1) && eof
    {
      hide Pre, Post, Links, Shape, Separated, Sorted, Flat;
      NoItems();
      if !init || snum > 1 {
        var found := PageSearch(Goal.Last);
        if !found {
          return NotFound;
        }
      }
      RootAlone(pg, ki);
      LeafTotal(root.value, pg, ki, snum - 1);
      SetLeafIndex(|pg[snum - 1].items| - 1);
      init, eof := true, true;
      var item := Here();
      r := Success(item);
    }

    lemma PosBounded()
      requires Valid() && init
      ensures Pos() <= |Items()|
    {
      hide Pre, Post, Links, Shape, Separated, Sorted, Flat;
      LeafTotal(root.value, pg, ki, snum - 1);
    }

    /** Past the last item of the database already: the C_EOF test that opens
        mdb_cursor_next. */
    method StopAtEof() returns (stop: bool)
      requires Valid() && init
      modifies this`eof
      ensures Valid()
      ensures stop ==> eof && old(Pos()) + (if Past() then 0 else 1) == |Items()|
      ensures !stop ==> !eof
      ensures old(!eof) ==> !stop
    {
      hide Pre, Post, Links, Shape, Separated, Sorted, Flat;
      LeafTotal(root.value, pg, ki, snum - 1);
      if eof {
        if ki[snum - 1] >= |pg[snum - 1].items| - 1 {
          return true;
        }
        eof := false;
      }
      stop := false;
    }

    /** To the next item, past the C_EOF test. */
    method Advance() returns (found: bool)
      requires Valid() && init && !eof
      modifies this`pg, this`ki, this`snum, this`eof
      ensures Valid()
      ensures var n := old(Pos() + if Past() then 0 else 1);
              if n < |Items()| then found && On(n) && !eof
              else !found && eof && n == |Items()| && pg == old(pg) && ki == old(ki) && snum == old(snum)
    {
      hide Pre, Post, Links, Shape, Separated, Sorted, Flat;
      LeafTotal(root.value, pg, ki, snum - 1);
      if ki[snum - 1] + 1 >= |pg[snum - 1].items| {
        ghost var pg0, ki0 := pg, ki;
        found := Sibling(true);
        if !found {
          eof := true;
          return;
        }
        MovedPath(root.value, pg0, ki0, pg, ki, snum - 1, true);
        MovedRight(root.value, pg0, ki0, pg, ki, snum - 1);
        LeafAgain(root.value, pg, ki, snum - 1);
        LeafTotal(root.value, pg, ki, snum - 1);
      } else {
        SetLeafIndex(ki[snum - 1] + 1);
        found := true;
      }
    }

    method Next() returns (r: Code)
      requires Valid()
      modifies this`pg, this`ki, this`snum, this`init, this`eof
      ensures Valid()
      ensures var n := if old(!init) then 0 else old(Pos() + if Past() then 0 else 1);
              if n < |Items()| then r == Success(Items()[n]) && On(n)
              else r == NotFound && (init <==> old(init))
                   && (init ==> eof && pg == old(pg) && ki == old(ki) && snum == old(snum))
    {
      hide Pre, Post, Links, Shape, Separated, Sorted, Flat, Path;
      if !init {
        r := First();
        return;
      }
      var stop := StopAtEof();
      if stop {
        return NotFound;
      }
      var found := Advance();
      if !found {
        return NotFound;
      }
      var item := Here();
      r := Success(item);
    }

    /** To the previous item. */
    method Retreat() returns (found: bool)
      requires Valid() && init && !eof
      modifies this`pg, this`ki, this`snum
      ensures Valid() && !eof
      ensures var n := old(Pos());
              if n > 0 then found && On(n - 1) else !found && pg == old(pg) && ki == old(ki) && snum == old(snum)
    {
      hide Pre, Post, Links, Shape, Separated, Sorted, Flat;
      if ki[snum - 1] == 0 {
        ghost var pg0, ki0 := pg, ki;
        found := Sibling(false);
        if !found {
          return;
        }
        MovedPath(root.value, pg0, ki0, pg, ki, snum - 1, false);
        LeafAgain(root.value, pg, ki, snum - 1);
        MovedLeft(root.value, pg0, ki0, pg, ki, snum - 1);
        SetLeafIndex(|pg[snum - 1].items| - 1);
        found := true;
      } else {
        SetLeafIndex(ki[snum - 1] - 1);
        found := true;
      }
    }

    method Prev() returns (r: Code)
      requires Valid()
      modifies this`pg, this`ki, this`snum, this`init, this`eof
      ensures Valid()
      ensures var n := if old(!init) then |Items()| else old(Pos());
              if n > 0 then n <= |Items()| && r == Success(Items()[n - 1]) && On(n - 1)
              else r == NotFound && (init <==> old(init))
                   && (init ==> pg == old(pg) && ki == old(ki) && snum == old(snum))
    {
      hide Pre, Post, Links, Shape, Separated, Sorted, Flat, Path;
      if !init {
        r := Last();
        if r == NotFound {
          return;
        }
        SetLeafIndex(ki[snum - 1] + 1);
      }
      eof := false;
      var found := Retreat();
      if !found {
        return NotFound;
      }
      var item := Here();
      r := Success(item);
    }

    /** MDB_GET_CURRENT. */
    method GetCurrent() returns (r: Code)
      requires Valid()
      modifies this`ki
      ensures Valid() && pg == old(pg) && ki == old(ki)
      ensures !init ==> r == Invalid
      ensures init && Past() ==> r == NotFound
      ensures init && !Past() ==> Pos() < |Items()| && r == Success(Items()[Pos()])
    {
      hide Pre, Post, Links, Shape, Separated, Sorted, Flat, Path;
      if !init {
        return Invalid;
      }
      if ki[snum - 1] >= |pg[snum - 1].items| {
        assert ki[snum - 1 := |pg[snum - 1].items|] == ki;
        ki := ki[snum - 1 := |pg[snum - 1].items|];
        return NotFound;
      }
      var item := Here();
      r := Success(item);
    }

    /** The cursor stands on the item a search is to find. */
    ghost predicate Hit(key: Key, exactly: bool)
      reads this
    {
      && |pg| == |ki| == CURSOR_STACK && AtLeaf() && init && !Past()
      && Pos() == Rank(Items(), key)
      && (exactly ==> pg[snum - 1].items[ki[snum - 1]].key == key)
    }

    /** There is no such item, and a range search has gone past the last one. */
    ghost predicate Missed(key: Key, exactly: bool)
      reads this
    {
      && Valid()
      && (exactly ==> Absent(Items(), key))
      && (!exactly ==> Rank(Items(), key) == |Items()| && (init ==> Past() && After() == []))
    }

    /** Index i is the lower bound of the key in the right leaf. */
    lemma InLeaf(key: Key, i: nat)
      requires AtLeaf() && Aimed(pg, ki, snum - 1, Of(key)) && LowerBound(KeysOf(pg[snum - 1].items), 0, key, i)
      ensures Rank(Items(), key) == |Before()| + i
      ensures (i < |pg[snum - 1].items| && pg[snum - 1].items[i].key == key) || Absent(Items(), key)
    {
      hide Pre, Post, Links, Shape, Separated, Sorted, Flat, LowerBound, Aimed, Rank, Absent;
      RankInLeaf(root.value, pg, ki, snum - 1, key, i);
      if i >= |pg[snum - 1].items| || pg[snum - 1].items[i].key != key {
        AbsentFromLeaf(root.value, pg, ki, snum - 1, key, i);
      }
    }

    /** A key between the first and the last key of the page belongs there. */
    lemma LeafBounds(key: Key)
      requires AtLeaf()
      ensures var items := pg[snum - 1].items;
              && (items[0].key <= key <= items[|items| - 1].key ==> Aimed(pg, ki, snum - 1, Of(key)))
              && items[0].key <= items[|items| - 1].key
              && forall i :: 0 <= i < |items| && items[i].key == key ==> LowerBound(KeysOf(items), 0, key, i)
    {
      hide Pre, Post, Links, Shape, Separated, Flat;
      var items := pg[snum - 1].items;
      BetweenIsAimed(root.value, pg, ki, snum - 1, key);
      LeafAscending(root.value, pg, ki, snum - 1);
      assert KeysOf(items)[0] == items[0].key && KeysOf(items)[|items| - 1] == items[|items| - 1].key;
    }

    lemma PastLeaf(key: Key)
      requires AtLeaf() && After() == [] && pg[snum - 1].items[|pg[snum - 1].items| - 1].key < key
      ensures Aimed(pg, ki, snum - 1, Of(key)) && LowerBound(KeysOf(pg[snum - 1].items), 0, key, |pg[snum - 1].items|)
    {
      hide Pre, Post, Links, Shape, Separated, Flat;
      var items := pg[snum - 1].items;
      LeafBounds(items[|items| - 1].key);
      LeafAscending(root.value, pg, ki, snum - 1);
    }

    lemma AloneLeaf(key: Key)
      requires AtLeaf() && snum == 1 && key < pg[0].items[0].key
      ensures Aimed(pg, ki, 0, Of(key)) && LowerBound(KeysOf(pg[0].items), 0, key, 0)
    {
      hide Pre, Post, Links, Shape, Separated, Flat;
      RootAlone(pg, ki);
      LeafAscending(root.value, pg, ki, 0);
    }

    /** Does any page above have a right neighbour? */
    method HasRight() returns (has: bool)
      requires Valid() && init
      ensures if has then snum > 1 else After() == []
    {
      var i := 0;
      while i < snum - 1 && ki[i] >= NumKeys(pg[i]) - 1
        invariant 0 <= i <= snum - 1
        invariant forall l :: 0 <= l < i ==> ki[l] >= NumKeys(pg[l]) - 1
      {
        i := i + 1;
      }
      if i == snum - 1 {
        LastEverywhere(root.value, pg, ki, snum - 1);
      }
      has := i != snum - 1;
    }

    /** mdb_cursor_set on an initialised cursor, before any search. */
    method OnThisPage(key: Key, exactly: bool) returns (jump: Jump)
      requires Valid() && init
      modifies this`ki, this`eof
      ensures jump.ToItem? ==> Hit(key, exactly)
      ensures jump.ToPage? ==> Valid() && !eof && Aimed(pg, ki, snum - 1, Of(key))
      ensures jump.Missing? ==> Missed(key, exactly)
      ensures jump.ToRoot? ==> Valid()
    {
      hide Pre, Post, Links, Shape, Separated, Sorted, Flat, LowerBound, Aimed, Rank, Absent;
      var items := pg[snum - 1].items;
      var nkeys := |items|;
      LeafBounds(key);
      if key == items[0].key {
        InLeaf(key, 0);
        SetLeafIndex(0);
        return ToItem;
      }
      if key > items[0].key {
        if nkeys > 1 {
          if key == items[nkeys - 1].key {
            InLeaf(key, nkeys - 1);
            SetLeafIndex(nkeys - 1);
            return ToItem;
          }
          if key < items[nkeys - 1].key {
            if ki[snum - 1] < nkeys && items[ki[snum - 1]].key == key {
              InLeaf(key, ki[snum - 1]);
              return ToItem;
            }
            eof := false;
            return ToPage;
          }
        }
        var right := HasRight();
        if !right {
          LeafTotal(root.value, pg, ki, snum - 1);
          PastLeaf(key);
          InLeaf(key, nkeys);
          SetLeafIndex(nkeys);
          return Missing;
        }
      }
      if snum == 1 {
        AloneLeaf(key);
        InLeaf(key, 0);
        SetLeafIndex(0);
        return if exactly then Missing else ToItem;
      }
      jump := ToRoot;
    }

    /** The search in the leaf, and the step to its sibling. */
    method SearchPage(key: Key, exactly: bool) returns (found: bool)
      requires |pg| == |ki| == CURSOR_STACK && AtLeaf() && init && !eof && Aimed(pg, ki, snum - 1, Of(key))
      modifies this`pg, this`ki, this`snum, this`eof
      ensures found ==> Hit(key, exactly)
      ensures !found ==> Missed(key, exactly)
    {
      hide Pre, Post, Links, Shape, Separated, Sorted, Flat, LowerBound, Ascending, Aimed, Rank, Absent;
      var items := pg[snum - 1].items;
      LeafAscending(root.value, pg, ki, snum - 1);
      var i, exact := NodeSearch(KeysOf(items), 0, key);
      LowerBoundBound(KeysOf(items), 0, key, i);
      InLeaf(key, i);
      SetLeafIndex(i);
      if exactly && !exact {
        return false;
      }
      if i == |items| {
        LeafTotal(root.value, pg, ki, snum - 1);
        found := Advance();
        return;
      }
      found := true;
    }

    method Set(key: Key, exactly: bool) returns (r: Code)
      requires Valid()
      modifies this`pg, this`ki, this`snum, this`init, this`eof
      ensures Valid()
      ensures var p := Rank(Items(), key);
              if p < |Items()| && (exactly ==> Items()[p].key == key) then r == Success(Items()[p]) && On(p) && !eof
              else r == NotFound && (!exactly && init ==> Past() && After() == [])
    {
      hide Pre, Post, Links, Shape, Separated, Sorted, Flat, LowerBound, Aimed, Rank;
      var jump := ToRoot;
      if init {
        jump := OnThisPage(key, exactly);
        if jump.Missing? {
          return NotFound;
        }
      }
      if jump.ToRoot? {
        var found := PageSearch(Of(key));
        if !found {
          return NotFound;
        }
      }
      if !jump.ToItem? {
        var found := SearchPage(key, exactly);
        if !found {
          return NotFound;
        }
      }
      init, eof := true, false;
      var item := Here();
      r := Success(item);
    }
  }

  lemma MovedRight(root: Tree, pg: seq<Tree>, ki: seq<nat>, pg': seq<Tree>, ki': seq<nat>, L: nat)
    requires Path(root, pg, ki, L) && Moved(root, pg, ki, pg', ki', L, true) && pg[L].Leaf?
    ensures ki'[L] == 0 && |Pre(pg', ki', L)| == |Pre(pg, ki, L)| + |pg[L].items|
  {
  }

  lemma MovedLeft(root: Tree, pg: seq<Tree>, ki: seq<nat>, pg': seq<Tree>, ki': seq<nat>, L: nat)
    requires Path(root, pg, ki, L) && Moved(root, pg, ki, pg', ki', L, false) && pg'[L].Leaf?
    ensures |Pre(pg', ki', L)| + |pg'[L].items| == |Pre(pg, ki, L)|
  {
  }

  lemma LeafAgain(root: Tree, pg: seq<Tree>, ki: seq<nat>, L: nat)
    requires Path(root, pg, ki, L) && Shape(root) && L == Height(root)
    ensures pg[L].Leaf? && |pg[L].items| > 0
  {
    PageAt(root, pg, ki, L);
  }

  lemma ShapeOf(t: Tree)
    requires SearchTree(t)
    ensures Shape(t)
  {
  }
}
