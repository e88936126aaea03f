/** B+trees of any depth as values, and paths into them. */
module Tree {
  /*
   Keys are compared only through the database's comparison function, which is a
   total order, so a key is represented by its rank in that order.  The values
   of an item with sorted duplicates (F_DUPDATA) are the keys of its sub-tree.
   */

  import opened Options

  type Key = int

  /** A single value, or several kept in a sub-page inside the node or in a
      tree of their own. */
  datatype Dups = Single(data: int) | SubPage(values: seq<Item>) | SubDb(tree: Tree)

  datatype Item = Item(key: Key, dups: Dups)

  /** Separator 0 of a branch page is never looked at. */
  datatype Tree = Leaf(items: seq<Item>) | Branch(seps: seq<Key>, kids: seq<Tree>)

  function Flat(t: Tree): seq<Item>
    decreases t, 1
  {
    match t
    case Leaf(items) => items
    case Branch(_, kids) => FlatKids(kids)
  }

  function FlatKids(kids: seq<Tree>): seq<Item>
    decreases kids, 0
  {
    if |kids| == 0 then [] else Flat(kids[0]) + FlatKids(kids[1..])
  }

  function Height(t: Tree): nat {
    match t
    case Leaf(_) => 0
    case Branch(_, kids) => if |kids| == 0 then 0 else 1 + Height(kids[0])
  }

  function NumKeys(t: Tree): nat {
    match t
    case Leaf(items) => |items|
    case Branch(_, kids) => |kids|
  }

  /** Leaves hold at least one item, branches at least two children, and all
      leaves are equally deep. */
  ghost predicate Shape(t: Tree) {
    match t
    case Leaf(items) => |items| >= 1
    case Branch(seps, kids) =>
      && |seps| == |kids| >= 2
      && forall i :: 0 <= i < |kids| ==> Shape(kids[i]) && Height(kids[i]) == Height(kids[0])
  }

  /** Separator i is above everything to its left and not above anything from
      child i on. */
  ghost predicate Separated(t: Tree) {
    match t
    case Leaf(_) => true
    case Branch(seps, kids) =>
      && |seps| == |kids|
      && (forall i :: 0 <= i < |kids| ==> Separated(kids[i]))
      && (forall i :: 1 <= i < |kids| ==>
            AllBelow(FlatKids(kids[..i]), seps[i]) && AllFrom(FlatKids(kids[i..]), seps[i]))
  }

  ghost predicate AllBelow(s: seq<Item>, k: Key) { forall i :: 0 <= i < |s| ==> s[i].key < k }

  ghost predicate AllFrom(s: seq<Item>, k: Key) { forall i :: 0 <= i < |s| ==> s[i].key >= k }

  ghost predicate AllAbove(s: seq<Item>, k: Key) { forall i :: 0 <= i < |s| ==> s[i].key > k }

  ghost predicate Sorted(s: seq<Item>) { forall i, j :: 0 <= i < j < |s| ==> s[i].key < s[j].key }

  /** A plain search tree. */
  ghost predicate SearchTree(t: Tree) { Shape(t) && Separated(t) && Sorted(Flat(t)) }

  // ------------------------------------------------------------- children

  lemma {:induction false} FlatKidsSplit(kids: seq<Tree>, i: nat)
    requires i <= |kids|
    ensures FlatKids(kids) == FlatKids(kids[..i]) + FlatKids(kids[i..])
  {
    if i == 0 {
      assert kids[0..] == kids && kids[..0] == [];
    } else {
      FlatKidsSplit(kids[1..], i - 1);
      assert kids[1..][..i - 1] == kids[..i][1..];
      assert kids[1..][i - 1..] == kids[i..];
    }
  }

  lemma FlatKidsAt(kids: seq<Tree>, i: nat)
    requires i < |kids|
    ensures FlatKids(kids) == FlatKids(kids[..i]) + Flat(kids[i]) + FlatKids(kids[i + 1..])
    ensures FlatKids(kids[i..]) == Flat(kids[i]) + FlatKids(kids[i + 1..])
    ensures FlatKids(kids[..i + 1]) == FlatKids(kids[..i]) + Flat(kids[i])
  {
    hide Flat, FlatKids;
    FlatKidsSplit(kids, i);
    assert kids[i..][1..] == kids[i + 1..];
    FlatKidsFirst(kids[i..]);
    Regroup3(FlatKids(kids[..i]), Flat(kids[i]), FlatKids(kids[i + 1..]));
    FlatKidsSplit(kids[..i + 1], i);
    assert kids[..i + 1][..i] == kids[..i] && kids[..i + 1][i..] == [kids[i]];
    FlatKidsFirst([kids[i]]);
  }

  lemma FlatKidsFirst(kids: seq<Tree>)
    requires kids != []
    ensures FlatKids(kids) == Flat(kids[0]) + FlatKids(kids[1..])
    ensures |kids| == 1 ==> FlatKids(kids) == Flat(kids[0])
  {
  }

  lemma {:induction false} NotEmpty(t: Tree)
    requires Shape(t)
    ensures |Flat(t)| > 0
    decreases t
  {
    if t.Branch? {
      NotEmpty(t.kids[0]);
    }
  }

  lemma SepsAscend(t: Tree, i: nat, j: nat)
    requires t.Branch? && Shape(t) && Separated(t) && 1 <= i < j < |t.kids|
    ensures t.seps[i] < t.seps[j]
  {
    NotEmpty(t.kids[i]);
    FlatKidsAt(t.kids, i);
    var x := Flat(t.kids[i])[0];
    assert FlatKids(t.kids[i..])[0] == x;
    FlatKidsSplit(t.kids[..j], i + 1);
    assert t.kids[..j][..i + 1] == t.kids[..i + 1];
    var p := |FlatKids(t.kids[..i])|;
    assert FlatKids(t.kids[..i + 1])[p] == x;
    assert FlatKids(t.kids[..j])[p] == x;
  }

  /** The child a key is routed to holds every item that can equal the key. */
  lemma ChildRange(t: Tree, c: nat, key: Key)
    requires t.Branch? && Separated(t) && c < |t.kids|
    requires c > 0 ==> t.seps[c] <= key
    requires c + 1 < |t.kids| ==> key < t.seps[c + 1]
    ensures AllBelow(FlatKids(t.kids[..c]), key)
    ensures AllAbove(FlatKids(t.kids[c + 1..]), key)
  {
    if c == 0 { assert t.kids[..0] == []; }
    if c + 1 == |t.kids| { assert t.kids[c + 1..] == []; }
  }

  // ----------------------------------------------------------------- paths

  /** Each page from 0 to L is the child of the one above that its index names. */
  ghost predicate Links(pg: seq<Tree>, ki: seq<nat>, L: nat) {
    && L < |pg| == |ki|
    && forall l :: 0 <= l < L ==> pg[l].Branch? && ki[l] < |pg[l].kids| && pg[l + 1] == pg[l].kids[ki[l]]
  }

  /** pg[0..L] is the chain of pages reached from root by the indices ki. */
  ghost predicate Path(root: Tree, pg: seq<Tree>, ki: seq<nat>, L: nat) { Links(pg, ki, L) && pg[0] == root }

  /** The items before page pg[L], and after it. */
  ghost function Pre(pg: seq<Tree>, ki: seq<nat>, L: nat): seq<Item>
    requires Links(pg, ki, L)
  {
    if L == 0 then [] else Pre(pg, ki, L - 1) + FlatKids(pg[L - 1].kids[..ki[L - 1]])
  }

  ghost function Post(pg: seq<Tree>, ki: seq<nat>, L: nat): seq<Item>
    requires Links(pg, ki, L)
  {
    if L == 0 then [] else FlatKids(pg[L - 1].kids[ki[L - 1] + 1..]) + Post(pg, ki, L - 1)
  }

  lemma Regroup(a: seq<Item>, b: seq<Item>, c: seq<Item>, d: seq<Item>, e: seq<Item>)
    ensures a + (b + c + d) + e == (a + b) + c + (d + e)
  {
  }

  lemma Regroup3(a: seq<Item>, b: seq<Item>, c: seq<Item>)
    ensures a + (b + c) == a + b + c
  {
  }

  lemma {:induction false} PathSplits(root: Tree, pg: seq<Tree>, ki: seq<nat>, L: nat)
    requires Path(root, pg, ki, L)
    ensures Flat(root) == Pre(pg, ki, L) + Flat(pg[L]) + Post(pg, ki, L)
  {
    hide FlatKids;
    if L > 0 {
      PathSplits(root, pg, ki, L - 1);
      FlatKidsAt(pg[L - 1].kids, ki[L - 1]);
      var a, b, c, d, e := Pre(pg, ki, L - 1), FlatKids(pg[L - 1].kids[..ki[L - 1]]), Flat(pg[L]),
                           FlatKids(pg[L - 1].kids[ki[L - 1] + 1..]), Post(pg, ki, L - 1);
      Regroup(a, b, c, d, e);
    }
  }

  lemma {:induction false} PathShape(root: Tree, pg: seq<Tree>, ki: seq<nat>, L: nat)
    requires Path(root, pg, ki, L) && Shape(root)
    ensures Shape(pg[L]) && Height(pg[L]) + L == Height(root)
    ensures Separated(root) ==> Separated(pg[L])
  {
    if L > 0 {
      PathShape(root, pg, ki, L - 1);
    }
  }

  /** Pre and Post depend on the levels above L only. */
  lemma {:induction false} PrePostLocal(pg: seq<Tree>, ki: seq<nat>, pg': seq<Tree>, ki': seq<nat>, L: nat)
    requires Links(pg, ki, L) && |pg'| == |ki'| > L
    requires pg'[..L + 1] == pg[..L + 1] && ki'[..L] == ki[..L]
    ensures Links(pg', ki', L) && Pre(pg, ki, L) == Pre(pg', ki', L) && Post(pg, ki, L) == Post(pg', ki', L)
  {
    assert forall l :: 0 <= l <= L ==> pg'[l] == pg'[..L + 1][l] == pg[l];
    assert forall l :: 0 <= l < L ==> ki'[l] == ki'[..L][l] == ki[l];
    if L > 0 {
      assert pg'[..L] == pg'[..L + 1][..L] && ki'[..L - 1] == ki'[..L][..L - 1];
      PrePostLocal(pg, ki, pg', ki', L - 1);
    }
  }
}
