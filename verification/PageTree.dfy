/** What the compacting copy reads and writes. */
module PageTree {
  /*
   The source is a tree of pages.  The output is the list of pages in the order
   they are written; each knows its page number, and an overflow page stands for
   a run of several.
   */

  import opened Options

  /** A leaf node: with its data inline, in a run of overflow pages, or the
      record of a sub-database (F_SUBDATA), of sorted duplicates or not. */
  datatype Node =
    | Plain(key: int, data: int)
    | Big(key: int, pages: nat, content: int)
    | Sub(key: int, dups: bool, root: Option<Page>)

  datatype Page = Leaf(nodes: seq<Node>) | Branch(keys: seq<int>, kids: seq<Page>)

  datatype OutNode =
    | OutPlain(key: int, data: int)
    | OutBig(key: int, pages: nat, pgno: nat)
    | OutSub(key: int, dups: bool, root: Option<nat>)

  datatype OutPage =
    | OutLeaf(pgno: nat, nodes: seq<OutNode>)
    | OutBranch(pgno: nat, keys: seq<int>, kids: seq<nat>)
    | OutOver(pgno: nat, pages: nat, content: int)

  // ------------------------------------------------------------- numbers

  /** How many page numbers a tree takes. */
  function Count(p: Page): (n: nat)
    ensures n > 0
    decreases p, 1
  {
    match p
    case Leaf(nodes) => CountNodes(nodes) + 1
    case Branch(_, kids) => CountKids(kids) + 1
  }

  function CountKids(kids: seq<Page>): nat
    decreases kids, 0
  {
    if |kids| == 0 then 0 else Count(kids[0]) + CountKids(kids[1..])
  }

  function CountNode(n: Node): nat
    decreases n, 0
  {
    match n
    case Plain(_, _) => 0
    case Big(_, pages, _) => pages
    case Sub(_, _, root) => if root.None? then 0 else Count(root.value)
  }

  function CountNodes(nodes: seq<Node>): nat
    decreases nodes, 0
  {
    if |nodes| == 0 then 0 else CountNode(nodes[0]) + CountNodes(nodes[1..])
  }

  /** A run of overflow pages has at least one page, branches have a key for
      every child and a child at least, and a tree of duplicates only plain
      nodes. */
  ghost predicate Proper(p: Page, dup: bool)
    decreases p, 1
  {
    match p
    case Leaf(nodes) => forall i :: 0 <= i < |nodes| ==> ProperNode(nodes[i], dup)
    case Branch(keys, kids) => |keys| == |kids| > 0 && forall i :: 0 <= i < |kids| ==> Proper(kids[i], dup)
  }

  ghost predicate ProperNode(n: Node, dup: bool)
    decreases n, 0
  {
    match n
    case Plain(_, _) => true
    case Big(_, pages, _) => !dup && pages > 0
    case Sub(_, dups, root) => !dup && (root.Some? ==> Proper(root.value, dups))
  }

  // -------------------------------------------------- the copy, recursively

  /** The pages written for a tree when the next number is base. */
  function Emit(p: Page, base: nat): seq<OutPage>
    decreases p, 1
  {
    match p
    case Leaf(nodes) => EmitNodes(nodes, base) + [OutLeaf(base + CountNodes(nodes), OutNodes(nodes, base))]
    case Branch(keys, kids) => EmitKids(kids, base) + [OutBranch(base + CountKids(kids), keys, Roots(kids, base))]
  }

  function EmitKids(kids: seq<Page>, base: nat): seq<OutPage>
    decreases kids, 0
  {
    if |kids| == 0 then [] else Emit(kids[0], base) + EmitKids(kids[1..], base + Count(kids[0]))
  }

  function EmitNode(n: Node, base: nat): seq<OutPage>
    decreases n, 0
  {
    match n
    case Plain(_, _) => []
    case Big(_, pages, content) => [OutOver(base, pages, content)]
    case Sub(_, _, root) => if root.None? then [] else Emit(root.value, base)
  }

  function EmitNodes(nodes: seq<Node>, base: nat): seq<OutPage>
    decreases nodes, 0
  {
    if |nodes| == 0 then [] else EmitNode(nodes[0], base) + EmitNodes(nodes[1..], base + CountNode(nodes[0]))
  }

  /** The number of the root: it is written last. */
  function RootOf(p: Page, base: nat): nat { base + Count(p) - 1 }

  function Roots(kids: seq<Page>, base: nat): (r: seq<nat>)
    ensures |r| == |kids|
  {
    if |kids| == 0 then [] else [RootOf(kids[0], base)] + Roots(kids[1..], base + Count(kids[0]))
  }

  function ToOut(n: Node, base: nat): OutNode {
    match n
    case Plain(key, data) => OutPlain(key, data)
    case Big(key, pages, _) => OutBig(key, pages, base)
    case Sub(key, dups, root) => OutSub(key, dups, if root.None? then None else Some(RootOf(root.value, base)))
  }

  function OutNodes(nodes: seq<Node>, base: nat): (r: seq<OutNode>)
    ensures |r| == |nodes|
  {
    if |nodes| == 0 then [] else [ToOut(nodes[0], base)] + OutNodes(nodes[1..], base + CountNode(nodes[0]))
  }

  // ------------------------------------------- every number once, in order

  function Span(o: OutPage): nat { if o.OutOver? then o.pages else 1 }

  /** The pages take the numbers from a up to b, without gap or repeat. */
  ghost predicate Tiles(out: seq<OutPage>, a: nat, b: nat) {
    if |out| == 0 then a == b else out[0].pgno == a && Span(out[0]) > 0 && Tiles(out[1..], a + Span(out[0]), b)
  }

  lemma {:induction false} TilesJoin(x: seq<OutPage>, y: seq<OutPage>, a: nat, m: nat, b: nat)
    requires Tiles(x, a, m) && Tiles(y, m, b)
    ensures Tiles(x + y, a, b)
  {
    if |x| == 0 {
      assert x + y == y;
    } else {
      TilesJoin(x[1..], y, a + Span(x[0]), m, b);
      assert (x + y)[1..] == x[1..] + y;
    }
  }

  lemma {:induction false} EmitTiles(p: Page, base: nat, dup: bool)
    requires Proper(p, dup)
    ensures Tiles(Emit(p, base), base, base + Count(p))
    decreases p, 1
  {
    match p
    case Leaf(nodes) =>
      EmitNodesTile(nodes, base, dup);
      assert Tiles([OutLeaf(base + CountNodes(nodes), OutNodes(nodes, base))], base + CountNodes(nodes),
                   base + Count(p));
      TilesJoin(EmitNodes(nodes, base), [OutLeaf(base + CountNodes(nodes), OutNodes(nodes, base))], base,
                base + CountNodes(nodes), base + Count(p));
    case Branch(keys, kids) =>
      EmitKidsTile(kids, base, dup);
      assert Tiles([OutBranch(base + CountKids(kids), keys, Roots(kids, base))], base + CountKids(kids),
                   base + Count(p));
      TilesJoin(EmitKids(kids, base), [OutBranch(base + CountKids(kids), keys, Roots(kids, base))], base,
                base + CountKids(kids), base + Count(p));
  }

  lemma {:induction false} EmitKidsTile(kids: seq<Page>, base: nat, dup: bool)
    requires forall i :: 0 <= i < |kids| ==> Proper(kids[i], dup)
    ensures Tiles(EmitKids(kids, base), base, base + CountKids(kids))
    decreases kids, 0
  {
    if |kids| > 0 {
      EmitTiles(kids[0], base, dup);
      EmitKidsTile(kids[1..], base + Count(kids[0]), dup);
      TilesJoin(Emit(kids[0], base), EmitKids(kids[1..], base + Count(kids[0])), base, base + Count(kids[0]),
                base + CountKids(kids));
    }
  }

  lemma {:induction false} EmitNodesTile(nodes: seq<Node>, base: nat, dup: bool)
    requires Proper(Leaf(nodes), dup)
    ensures Tiles(EmitNodes(nodes, base), base, base + CountNodes(nodes))
    decreases nodes, 0
  {
    if |nodes| > 0 {
      var n := nodes[0];
      if n.Sub? && n.root.Some? {
        EmitTiles(n.root.value, base, n.dups);
      }
      assert Tiles(EmitNode(n, base), base, base + CountNode(n));
      EmitNodesTile(nodes[1..], base + CountNode(n), dup);
      TilesJoin(EmitNode(n, base), EmitNodes(nodes[1..], base + CountNode(n)), base, base + CountNode(n),
                base + CountNodes(nodes));
    }
  }

  // ------------------------------------------------- the output as a tree

  /** The database file: which page begins at a number. */
  type File = map<nat, OutPage>

  ghost predicate Holds(file: File, out: seq<OutPage>) { forall o :: o in out ==> o.pgno in file && file[o.pgno] == o }

  /** The page at this number is the root of a copy of the tree: the same
      keys, data, overflow runs and sub-databases in the same places. */
  ghost predicate CopyOf(file: File, pgno: nat, p: Page)
    decreases p, 1
  {
    && pgno in file
    && match p
       case Leaf(nodes) =>
         && file[pgno].OutLeaf? && |file[pgno].nodes| == |nodes|
         && forall i :: 0 <= i < |nodes| ==> NodeCopy(file, file[pgno].nodes[i], nodes[i])
       case Branch(keys, kids) =>
         && file[pgno].OutBranch? && file[pgno].keys == keys && |file[pgno].kids| == |kids|
         && forall i :: 0 <= i < |kids| ==> CopyOf(file, file[pgno].kids[i], kids[i])
  }

  ghost predicate NodeCopy(file: File, o: OutNode, n: Node)
    decreases n, 0
  {
    match n
    case Plain(key, data) => o == OutPlain(key, data)
    case Big(key, pages, content) =>
      o.OutBig? && o.key == key && o.pages == pages && o.pgno in file && file[o.pgno] == OutOver(o.pgno, pages, content)
    case Sub(key, dups, root) =>
      && o.OutSub? && o.key == key && o.dups == dups
      && (root.Some? <==> o.root.Some?)
      && (root.Some? ==> CopyOf(file, o.root.value, root.value))
  }

  lemma HoldsParts(file: File, x: seq<OutPage>, y: seq<OutPage>)
    requires Holds(file, x + y)
    ensures Holds(file, x) && Holds(file, y)
  {
    assert forall o :: o in x ==> o in x + y;
    assert forall o :: o in y ==> o in x + y;
  }

  /** A file that holds what was written holds a copy of the tree. */
  lemma {:induction false} EmitCopies(file: File, p: Page, base: nat)
    requires Holds(file, Emit(p, base))
    ensures CopyOf(file, RootOf(p, base), p)
    decreases p, 1
  {
    match p
    case Leaf(nodes) =>
      var last := OutLeaf(base + CountNodes(nodes), OutNodes(nodes, base));
      HoldsParts(file, EmitNodes(nodes, base), [last]);
      assert last in [last];
      EmitNodesCopy(file, nodes, base);
    case Branch(keys, kids) =>
      var last := OutBranch(base + CountKids(kids), keys, Roots(kids, base));
      HoldsParts(file, EmitKids(kids, base), [last]);
      assert last in [last];
      EmitKidsCopy(file, kids, base);
  }

  lemma {:induction false} EmitKidsCopy(file: File, kids: seq<Page>, base: nat)
    requires Holds(file, EmitKids(kids, base))
    ensures forall i :: 0 <= i < |kids| ==> CopyOf(file, Roots(kids, base)[i], kids[i])
    decreases kids, 0
  {
    if |kids| > 0 {
      HoldsParts(file, Emit(kids[0], base), EmitKids(kids[1..], base + Count(kids[0])));
      EmitCopies(file, kids[0], base);
      EmitKidsCopy(file, kids[1..], base + Count(kids[0]));
    }
  }

  lemma {:induction false} EmitNodesCopy(file: File, nodes: seq<Node>, base: nat)
    requires Holds(file, EmitNodes(nodes, base))
    ensures forall i :: 0 <= i < |nodes| ==> NodeCopy(file, OutNodes(nodes, base)[i], nodes[i])
    decreases nodes, 0
  {
    if |nodes| > 0 {
      var n := nodes[0];
      HoldsParts(file, EmitNode(n, base), EmitNodes(nodes[1..], base + CountNode(n)));
      EmitNodeCopies(file, n, base);
      EmitNodesCopy(file, nodes[1..], base + CountNode(n));
    }
  }

  lemma {:induction false} EmitNodeCopies(file: File, n: Node, base: nat)
    requires Holds(file, EmitNode(n, base))
    ensures NodeCopy(file, ToOut(n, base), n)
    decreases n, 0
  {
    if n.Sub? && n.root.Some? {
      EmitCopies(file, n.root.value, base);
    } else if n.Big? {
      assert OutOver(base, n.pages, n.content) in EmitNode(n, base);
    }
  }

  lemma {:induction false} TilesFrom(out: seq<OutPage>, a: nat, b: nat)
    requires Tiles(out, a, b)
    ensures a <= b && forall i :: 0 <= i < |out| ==> a <= out[i].pgno < out[i].pgno + Span(out[i]) <= b
    ensures forall i, j :: 0 <= i < j < |out| ==> out[i].pgno + Span(out[i]) <= out[j].pgno
  {
    if |out| > 0 {
      TilesFrom(out[1..], a + Span(out[0]), b);
    }
  }

  /** The file that the pages make up. */
  function ToFile(out: seq<OutPage>): File {
    if |out| == 0 then map[] else map[out[0].pgno := out[0]] + ToFile(out[1..])
  }

  /** Pages that tile their numbers do not overwrite one another. */
  lemma {:induction false} FileHolds(out: seq<OutPage>, a: nat, b: nat)
    requires Tiles(out, a, b)
    ensures Holds(ToFile(out), out) && forall n :: n in ToFile(out) ==> a <= n < b
  {
    if |out| > 0 {
      FileHolds(out[1..], a + Span(out[0]), b);
      TilesFrom(out[1..], a + Span(out[0]), b);
      assert forall o :: o in out ==> o == out[0] || o in out[1..];
    }
  }
}
