/** The walk of the compacting copy: mdb_env_cwalk and mdb_env_copyfd1. */
module CompactCopy {
  import opened Options
  import opened PageTree

  // ------------------------------------------------------ prefixes of lists

  lemma {:induction false} KidsSplit(kids: seq<Page>, i: nat, base: nat)
    requires i <= |kids|
    ensures CountKids(kids) == CountKids(kids[..i]) + CountKids(kids[i..])
    ensures EmitKids(kids, base) == EmitKids(kids[..i], base) + EmitKids(kids[i..], base + CountKids(kids[..i]))
    ensures Roots(kids, base) == Roots(kids[..i], base) + Roots(kids[i..], base + CountKids(kids[..i]))
  {
    hide CountKids, EmitKids, Roots;
    if i == 0 {
      assert kids[..0] == [] && kids[0..] == kids;
      NoKids(base);
    } else {
      KidsSplit(kids[1..], i - 1, base + Count(kids[0]));
      assert kids[1..][..i - 1] == kids[..i][1..] && kids[1..][i - 1..] == kids[i..] && kids[..i][0] == kids[0];
      FirstKid(kids, base);
      FirstKid(kids[..i], base);
      var b1 := base + Count(kids[0]);
      Assoc(Emit(kids[0], base), EmitKids(kids[..i][1..], b1), EmitKids(kids[i..], base + CountKids(kids[..i])));
      Assoc([RootOf(kids[0], base)], Roots(kids[..i][1..], b1), Roots(kids[i..], base + CountKids(kids[..i])));
    }
  }

  lemma Assoc<T>(a: seq<T>, b: seq<T>, c: seq<T>)
    ensures a + (b + c) == a + b + c
  {
  }

  lemma NoKids(base: nat)
    ensures CountKids([]) == 0 && EmitKids([], base) == [] && Roots([], base) == []
  {
  }

  lemma FirstKid(kids: seq<Page>, base: nat)
    requires kids != []
    ensures CountKids(kids) == Count(kids[0]) + CountKids(kids[1..])
    ensures EmitKids(kids, base) == Emit(kids[0], base) + EmitKids(kids[1..], base + Count(kids[0]))
    ensures Roots(kids, base) == [RootOf(kids[0], base)] + Roots(kids[1..], base + Count(kids[0]))
  {
    hide Count, Emit, RootOf;
  }

  lemma FirstNode(nodes: seq<Node>, base: nat)
    requires nodes != []
    ensures CountNodes(nodes) == CountNode(nodes[0]) + CountNodes(nodes[1..])
    ensures EmitNodes(nodes, base) == EmitNode(nodes[0], base) + EmitNodes(nodes[1..], base + CountNode(nodes[0]))
    ensures OutNodes(nodes, base) == [ToOut(nodes[0], base)] + OutNodes(nodes[1..], base + CountNode(nodes[0]))
  {
    hide CountNode, EmitNode, ToOut;
  }

  lemma KidsNext(kids: seq<Page>, i: nat, base: nat)
    requires i < |kids|
    ensures CountKids(kids[..i + 1]) == CountKids(kids[..i]) + Count(kids[i]) <= CountKids(kids)
    ensures EmitKids(kids[..i + 1], base) == EmitKids(kids[..i], base) + Emit(kids[i], base + CountKids(kids[..i]))
    ensures Roots(kids, base)[i] == RootOf(kids[i], base + CountKids(kids[..i]))
  {
    hide Emit, Count;
    var part := kids[..i + 1];
    KidsSplit(part, i, base);
    assert part[..i] == kids[..i] && part[i..] == [kids[i]];
    OneKid(kids[i], base + CountKids(kids[..i]));
    KidsSplit(kids, i + 1, base);
    KidsSplit(kids, i, base);
    assert kids[i..][0] == kids[i];
  }

  lemma OneKid(kid: Page, base: nat)
    ensures CountKids([kid]) == Count(kid) && EmitKids([kid], base) == Emit(kid, base)
  {
  }

  lemma {:induction false} NodesSplit(nodes: seq<Node>, i: nat, base: nat)
    requires i <= |nodes|
    ensures CountNodes(nodes) == CountNodes(nodes[..i]) + CountNodes(nodes[i..])
    ensures EmitNodes(nodes, base) == EmitNodes(nodes[..i], base) + EmitNodes(nodes[i..], base + CountNodes(nodes[..i]))
    ensures OutNodes(nodes, base) == OutNodes(nodes[..i], base) + OutNodes(nodes[i..], base + CountNodes(nodes[..i]))
  {
    hide CountNodes, EmitNodes, OutNodes;
    if i == 0 {
      assert nodes[..0] == [] && nodes[0..] == nodes;
      NoNodes(base);
    } else {
      NodesSplit(nodes[1..], i - 1, base + CountNode(nodes[0]));
      assert nodes[1..][..i - 1] == nodes[..i][1..] && nodes[1..][i - 1..] == nodes[i..] && nodes[..i][0] == nodes[0];
      FirstNode(nodes, base);
      FirstNode(nodes[..i], base);
      var b1 := base + CountNode(nodes[0]);
      Assoc(EmitNode(nodes[0], base), EmitNodes(nodes[..i][1..], b1),
            EmitNodes(nodes[i..], base + CountNodes(nodes[..i])));
      Assoc([ToOut(nodes[0], base)], OutNodes(nodes[..i][1..], b1),
            OutNodes(nodes[i..], base + CountNodes(nodes[..i])));
    }
  }

  lemma NodesNext(nodes: seq<Node>, i: nat, base: nat)
    requires i < |nodes|
    ensures CountNodes(nodes[..i + 1]) == CountNodes(nodes[..i]) + CountNode(nodes[i]) <= CountNodes(nodes)
    ensures EmitNodes(nodes[..i + 1], base) == EmitNodes(nodes[..i], base)
            + EmitNode(nodes[i], base + CountNodes(nodes[..i]))
    ensures OutNodes(nodes[..i + 1], base) == OutNodes(nodes[..i], base)
            + [ToOut(nodes[i], base + CountNodes(nodes[..i]))]
  {
    hide EmitNode, CountNode, ToOut;
    var part := nodes[..i + 1];
    NodesSplit(part, i, base);
    assert part[..i] == nodes[..i] && part[i..] == [nodes[i]];
    OneNode(nodes[i], base + CountNodes(nodes[..i]));
    NodesSplit(nodes, i + 1, base);
  }

  lemma OneNode(n: Node, base: nat)
    ensures CountNodes([n]) == CountNode(n) && EmitNodes([n], base) == EmitNode(n, base)
            && OutNodes([n], base) == [ToOut(n, base)]
  {
    assert EmitNodes([n][1..], base + CountNode(n)) == [];
  }

  // ------------------------------------------------------------- the stack

  /** A child pointer in the private copy of a branch page. */
  datatype Link = Old(page: Page) | New(pgno: nat)

  /** A page on the stack of the walk: a leaf as it is in the source, or a
      writable copy of a branch with the index it is at. */
  datatype Frame = OnLeaf(nodes: seq<Node>) | OnBranch(keys: seq<int>, links: seq<Link>, ki: nat)

  /** The children of a branch page that come before the one being walked. */
  function Passed(f: Frame, p: Page): seq<Page> {
    if p.Branch? && f.OnBranch? && f.ki <= |p.kids| then p.kids[..f.ki] else []
  }

  /** The first number for page l of the path, when the walk began with b0. */
  ghost function BaseAt(stack: seq<Frame>, path: seq<Page>, l: nat, b0: nat): nat
    requires l < |stack| == |path|
  {
    if l == 0 then b0 else BaseAt(stack, path, l - 1, b0) + CountKids(Passed(stack[l - 1], path[l - 1]))
  }

  /** What has been written before page l of the path is begun. */
  ghost function DoneAt(stack: seq<Frame>, path: seq<Page>, l: nat, b0: nat): seq<OutPage>
    requires l < |stack| == |path|
  {
    if l == 0 then []
    else DoneAt(stack, path, l - 1, b0) + EmitKids(Passed(stack[l - 1], path[l - 1]), BaseAt(stack, path, l - 1, b0))
  }

  lemma {:induction false} StackLocal(s1: seq<Frame>, p1: seq<Page>, s2: seq<Frame>, p2: seq<Page>, l: nat, b0: nat)
    requires l < |s1| == |p1| && l < |s2| == |p2|
    requires forall i :: 0 <= i < l ==> s1[i] == s2[i] && p1[i] == p2[i]
    ensures BaseAt(s1, p1, l, b0) == BaseAt(s2, p2, l, b0) && DoneAt(s1, p1, l, b0) == DoneAt(s2, p2, l, b0)
  {
    if l > 0 {
      StackLocal(s1, p1, s2, p2, l - 1, b0);
    }
  }

  /** The first `done` children have been written. */
  ghost predicate LinksOk(links: seq<Link>, kids: seq<Page>, done: nat, base: nat) {
    && |links| == |kids|
    && forall i :: 0 <= i < |links| ==> links[i] == if i < done then New(Roots(kids, base)[i]) else Old(kids[i])
  }

  /** The page on top: a leaf to be written, or a branch whose child at ki has
      just been written. */
  ghost predicate TopOk(f: Frame, p: Page, base: nat) {
    match f
    case OnLeaf(nodes) => p == Leaf(nodes)
    case OnBranch(keys, links, ki) =>
      p.Branch? && keys == p.keys && ki < |p.kids| && LinksOk(links, p.kids, ki + 1, base)
  }

  /** A page below the top: its child at ki is the next page of the path. */
  ghost predicate InnerOk(f: Frame, p: Page, child: Page, base: nat) {
    && f.OnBranch? && p.Branch? && f.keys == p.keys && f.ki < |p.kids| && p.kids[f.ki] == child
    && LinksOk(f.links, p.kids, f.ki, base)
  }

  ghost predicate Inners(stack: seq<Frame>, path: seq<Page>, n: nat, b0: nat)
    requires n < |stack| == |path|
  {
    forall l :: 0 <= l < n ==> InnerOk(stack[l], path[l], path[l + 1], BaseAt(stack, path, l, b0))
  }

  ghost predicate StackOk(stack: seq<Frame>, path: seq<Page>, t: Page, b0: nat) {
    && |stack| == |path| >= 1 && path[0] == t
    && Inners(stack, path, |stack| - 1, b0)
    && TopOk(stack[|stack| - 1], path[|stack| - 1], BaseAt(stack, path, |stack| - 1, b0))
  }

  /** The children of the top page that have been written. */
  function Walked(f: Frame, p: Page): seq<Page> {
    if p.Branch? && f.OnBranch? && f.ki < |p.kids| then p.kids[..f.ki + 1] else []
  }

  /** What has been written, and the next number, by the state of the stack. */
  ghost function Written(stack: seq<Frame>, path: seq<Page>, b0: nat): seq<OutPage>
    requires |stack| == |path| >= 1
  {
    var top := |stack| - 1;
    DoneAt(stack, path, top, b0) + EmitKids(Walked(stack[top], path[top]), BaseAt(stack, path, top, b0))
  }

  ghost function NextNo(stack: seq<Frame>, path: seq<Page>, b0: nat): nat
    requires |stack| == |path| >= 1
  {
    var top := |stack| - 1;
    BaseAt(stack, path, top, b0) + CountKids(Walked(stack[top], path[top]))
  }

  lemma BaseStep(stack: seq<Frame>, path: seq<Page>, l: nat, b0: nat)
    requires 0 < l < |stack| == |path|
    ensures BaseAt(stack, path, l, b0) == BaseAt(stack, path, l - 1, b0) + CountKids(Passed(stack[l - 1], path[l - 1]))
    ensures DoneAt(stack, path, l, b0) ==
            DoneAt(stack, path, l - 1, b0) + EmitKids(Passed(stack[l - 1], path[l - 1]), BaseAt(stack, path, l - 1, b0))
  {
  }

  /** Two stacks that agree below n. */
  ghost predicate Agree(s1: seq<Frame>, p1: seq<Page>, s2: seq<Frame>, p2: seq<Page>, n: nat) {
    && n < |s1| == |p1| && n < |s2| == |p2|
    && (forall i :: 0 <= i < n ==> s1[i] == s2[i]) && (forall i :: 0 <= i <= n ==> p1[i] == p2[i])
  }

  lemma InnersKept(s1: seq<Frame>, p1: seq<Page>, s2: seq<Frame>, p2: seq<Page>, n: nat, b0: nat)
    requires Agree(s1, p1, s2, p2, n) && Inners(s1, p1, n, b0)
    ensures Inners(s2, p2, n, b0)
    ensures BaseAt(s1, p1, n, b0) == BaseAt(s2, p2, n, b0) && DoneAt(s1, p1, n, b0) == DoneAt(s2, p2, n, b0)
  {
    hide InnerOk, BaseAt, DoneAt;
    StackLocal(s1, p1, s2, p2, n, b0);
    forall l | 0 <= l < n ensures InnerOk(s2[l], p2[l], p2[l + 1], BaseAt(s2, p2, l, b0)) {
      StackLocal(s1, p1, s2, p2, l, b0);
      assert InnerOk(s1[l], p1[l], p1[l + 1], BaseAt(s1, p1, l, b0));
    }
  }

  lemma InnersMore(s: seq<Frame>, p: seq<Page>, n: nat, b0: nat)
    requires n + 1 < |s| == |p| && Inners(s, p, n, b0) && InnerOk(s[n], p[n], p[n + 1], BaseAt(s, p, n, b0))
    ensures Inners(s, p, n + 1, b0)
  {
  }

  lemma InnersLess(s: seq<Frame>, p: seq<Page>, n: nat, b0: nat)
    requires 0 < n < |s| == |p| && Inners(s, p, n, b0)
    ensures Inners(s, p, n - 1, b0) && InnerOk(s[n - 1], p[n - 1], p[n], BaseAt(s, p, n - 1, b0))
  {
    assert InnerOk(s[n - 1], p[n - 1], p[n - 1 + 1], BaseAt(s, p, n - 1, b0));
  }

  /** The page on top has been written and its number put into the parent. */
  lemma Climb(stack: seq<Frame>, path: seq<Page>, t: Page, b0: nat)
    requires StackOk(stack, path, t, b0) && |stack| > 1
    ensures var top := |stack| - 1;
            var f, b := stack[top - 1], BaseAt(stack, path, top, b0);
            && f.OnBranch? && f.ki < |f.links|
            && var stack' := stack[..top][top - 1 := f.(links := f.links[f.ki := New(RootOf(path[top], b))])];
            && StackOk(stack', path[..top], t, b0)
            && Written(stack', path[..top], b0) == DoneAt(stack, path, top, b0) + Emit(path[top], b)
            && NextNo(stack', path[..top], b0) == b + Count(path[top])
  {
    hide Emit, Count, EmitKids, CountKids, Roots, BaseAt, DoneAt, Inners;
    var top := |stack| - 1;
    var f, p, b := stack[top - 1], path[top - 1], BaseAt(stack, path, top - 1, b0);
    InnersLess(stack, path, top, b0);
    var stack', path' :=
        stack[..top][top - 1 := f.(links := f.links[f.ki := New(RootOf(path[top], BaseAt(stack, path, top, b0)))])],
        path[..top];
    BaseStep(stack, path, top, b0);
    KidsNext(p.kids, f.ki, b);
    RootsLength(p.kids, b);
    InnersKept(stack, path, stack', path', top - 1, b0);
  }

  lemma RootsLength(kids: seq<Page>, base: nat)
    ensures |Roots(kids, base)| == |kids|
  {
  }

  /** Below here everything is in order, and `page` comes next. */
  ghost predicate OpenOk(stack: seq<Frame>, path: seq<Page>, page: Page, t: Page, b0: nat, base: nat,
                         done: seq<OutPage>) {
    && |stack| == |path|
    && var s, p := stack + [OnLeaf([])], path + [page];
    && p[0] == t && Inners(s, p, |stack|, b0)
    && BaseAt(s, p, |stack|, b0) == base && DoneAt(s, p, |stack|, b0) == done
  }

  /** On to the next child of the branch on top. */
  lemma OpenNext(stack: seq<Frame>, path: seq<Page>, t: Page, b0: nat)
    requires StackOk(stack, path, t, b0)
    requires var f := stack[|stack| - 1]; f.OnBranch? && f.ki + 1 < |f.links|
    ensures var top := |stack| - 1;
            var f := stack[top];
            && f.links[f.ki + 1].Old? && path[top].Branch? && f.ki + 1 < |path[top].kids|
            && f.links[f.ki + 1].page == path[top].kids[f.ki + 1]
            && OpenOk(stack[top := f.(ki := f.ki + 1)], path, f.links[f.ki + 1].page, t, b0, NextNo(stack, path, b0),
                      Written(stack, path, b0))
  {
    hide Emit, Count, EmitKids, CountKids, Roots, BaseAt, DoneAt, Inners;
    var top := |stack| - 1;
    var f, p := stack[top], path[top];
    var page := p.kids[f.ki + 1];
    var s, q := stack[top := f.(ki := f.ki + 1)] + [OnLeaf([])], path + [page];
    InnersKept(stack, path, s, q, top, b0);
    RootsLength(p.kids, BaseAt(stack, path, top, b0));
    InnersMore(s, q, top, b0);
    BaseStep(s, q, top + 1, b0);
  }

  function Olds(kids: seq<Page>): (links: seq<Link>)
    ensures |links| == |kids| && forall i :: 0 <= i < |kids| ==> links[i] == Old(kids[i])
  {
    seq(|kids|, i requires 0 <= i < |kids| => Old(kids[i]))
  }

  /** One level down, to the first child of a branch page. */
  lemma OpenDown(stack: seq<Frame>, path: seq<Page>, page: Page, t: Page, b0: nat, base: nat, done: seq<OutPage>)
    requires OpenOk(stack, path, page, t, b0, base, done) && page.Branch? && |page.kids| > 0
    ensures OpenOk(stack + [OnBranch(page.keys, Olds(page.kids), 0)], path + [page], page.kids[0], t, b0, base, done)
  {
    hide Emit, Count, Roots, BaseAt, DoneAt, Inners;
    var f := OnBranch(page.keys, Olds(page.kids), 0);
    var s0, q0 := stack + [OnLeaf([])], path + [page];
    var s, q := stack + [f] + [OnLeaf([])], path + [page] + [page.kids[0]];
    var n := |stack|;
    InnersKept(s0, q0, s, q, n, b0);
    InnersMore(s, q, n, b0);
    BaseStep(s, q, n + 1, b0);
    assert Passed(f, page) == [];
    assert done + [] == done;
  }

  lemma OpenLeaf(stack: seq<Frame>, path: seq<Page>, page: Page, t: Page, b0: nat, base: nat, done: seq<OutPage>)
    requires OpenOk(stack, path, page, t, b0, base, done) && page.Leaf?
    ensures var s, q := stack + [OnLeaf(page.nodes)], path + [page];
            StackOk(s, q, t, b0) && NextNo(s, q, b0) == base && Written(s, q, b0) == done
  {
    hide Emit, Count, Roots, BaseAt, DoneAt, Inners;
    var s0, q0 := stack + [OnLeaf([])], path + [page];
    var s, q := stack + [OnLeaf(page.nodes)], path + [page];
    InnersKept(s0, q0, s, q, |stack|, b0);
    assert done + [] == done;
  }

  /** The pages of the path are proper, and their numbers stay within the tree's. */
  lemma {:induction false} WithinTree(stack: seq<Frame>, path: seq<Page>, l: nat, t: Page, b0: nat, dup: bool)
    requires l < |stack| == |path| && path[0] == t && Inners(stack, path, l, b0) && Proper(t, dup)
    ensures BaseAt(stack, path, l, b0) + Count(path[l]) <= b0 + Count(t) && Proper(path[l], dup)
  {
    hide EmitKids, Roots;
    if l > 0 {
      InnersLess(stack, path, l, b0);
      WithinTree(stack, path, l - 1, t, b0, dup);
      KidsNext(path[l - 1].kids, stack[l - 1].ki, BaseAt(stack, path, l - 1, b0));
    }
  }

  /** The numbers in a branch page all of whose children have been written. */
  function Numbers(links: seq<Link>): (r: seq<nat>)
    requires forall i :: 0 <= i < |links| ==> links[i].New?
    ensures |r| == |links| && forall i :: 0 <= i < |r| ==> r[i] == links[i].pgno
  {
    seq(|links|, i requires 0 <= i < |links| => links[i].pgno)
  }

  /** Writing the page on top completes its tree. */
  lemma TopWritten(stack: seq<Frame>, path: seq<Page>, t: Page, b0: nat)
    requires StackOk(stack, path, t, b0)
    ensures var top := |stack| - 1;
            var b := BaseAt(stack, path, top, b0);
            match stack[top]
            case OnLeaf(nodes) =>
              && NextNo(stack, path, b0) == b && Count(path[top]) == CountNodes(nodes) + 1
              && Written(stack, path, b0) + EmitNodes(nodes, b) + [OutLeaf(b + CountNodes(nodes), OutNodes(nodes, b))]
                 == DoneAt(stack, path, top, b0) + Emit(path[top], b)
            case OnBranch(keys, links, ki) => ki < |links| && (ki + 1 == |links| ==>
              && (forall i :: 0 <= i < |links| ==> links[i].New?)
              && Count(path[top]) == NextNo(stack, path, b0) - b + 1
              && Written(stack, path, b0) + [OutBranch(NextNo(stack, path, b0), keys, Numbers(links))]
                 == DoneAt(stack, path, top, b0) + Emit(path[top], b))
  {
    hide BaseAt, DoneAt, Inners, EmitKids, EmitNodes, Roots, OutNodes, CountNodes, CountKids;
    var top := |stack| - 1;
    var b := BaseAt(stack, path, top, b0);
    var p := path[top];
    match stack[top]
    case OnLeaf(nodes) =>
      NothingWalked(b);
    case OnBranch(keys, links, ki) =>
      RootsLength(p.kids, b);
      if ki + 1 == |links| {
        assert p.kids[..ki + 1] == p.kids;
        assert Numbers(links) == Roots(p.kids, b);
      }
  }

  lemma NothingWalked(b: nat)
    ensures CountKids([]) == 0 && EmitKids([], b) == []
  {
  }

  class Copier {
    var out: seq<OutPage>
    var next: nat

    /** An output that begins after the two meta pages. */
    constructor ()
      ensures out == [] && next == 2
    {
      out, next := [], 2;
    }

    /** The nodes of a leaf: overflow runs are written, and sub-databases
        walked, as they are met.  Leaves of sorted duplicates are not looked
        into. */
    method CopyNodes(nodes: seq<Node>, dup: bool) returns (res: seq<OutNode>)
      requires Proper(Leaf(nodes), dup)
      modifies this
      ensures out == old(out) + EmitNodes(nodes, old(next)) && next == old(next) + CountNodes(nodes)
      ensures res == OutNodes(nodes, old(next))
      decreases CountNodes(nodes), 2
    {
      hide EmitNodes, CountNodes, OutNodes, EmitNode, CountNode, ToOut;
      if dup {
        AllPlain(nodes, next);
        return Plains(nodes);
      }
      res := [];
      var i := 0;
      NoNodes(next);
      while i < |nodes|
        invariant 0 <= i <= |nodes|
        invariant out == old(out) + EmitNodes(nodes[..i], old(next)) && next == old(next) + CountNodes(nodes[..i])
        invariant res == OutNodes(nodes[..i], old(next))
        decreases |nodes| - i
      {
        NodesNext(nodes, i, old(next));
        NodesSplit(nodes, i, old(next));
        var o := CopyNode(nodes[i], dup);
        res := res + [o];
        i := i + 1;
      }
      assert nodes[..|nodes|] == nodes;
    }

    method CopyNode(ni: Node, dup: bool) returns (o: OutNode)
      requires ProperNode(ni, dup)
      modifies this
      ensures out == old(out) + EmitNode(ni, old(next)) && next == old(next) + CountNode(ni)
              && o == ToOut(ni, old(next))
      decreases CountNode(ni), 1
    {
      hide Emit, Count, Proper;
      match ni
      case Plain(key, data) =>
        o := OutPlain(key, data);
      case Big(key, pages, content) =>
        o := OutBig(key, pages, next);
        out := out + [OutOver(next, pages, content)];
        next := next + pages;
      case Sub(key, dups, root) =>
        if root.None? {
          o := OutSub(key, dups, None);
        } else {
          var sub := CWalk(root.value, dups);
          o := OutSub(key, dups, Some(sub));
        }
    }

    /** mdb_env_cwalk on a tree that is not empty. */
    method CWalk(t: Page, dup: bool) returns (root: nat)
      requires Proper(t, dup)
      modifies this
      ensures out == old(out) + Emit(t, old(next)) && next == old(next) + Count(t)
      ensures root == RootOf(t, old(next))
      decreases Count(t), 0
    {
      hide Emit, Count, EmitKids, CountKids, EmitNodes, CountNodes, Roots, OutNodes, BaseAt, DoneAt, Inners, Proper,
           TopOk, Written, NextNo;
      ghost var b0, out0 := next, out;
      StartOpen(t, b0);
      var stack: seq<Frame>;
      ghost var path: seq<Page>;
      stack, path := Descend([], [], t, t, dup, b0, b0, []);
      root := 0;
      var more := true;
      while more
        invariant more ==>
                    StackOk(stack, path, t, b0) && out == out0 + Written(stack, path, b0)
                    && next == NextNo(stack, path, b0)
        invariant !more ==> out == out0 + Emit(t, b0) && next == b0 + Count(t) && root == RootOf(t, b0)
        decreases more, if more then b0 + Count(t) - next else 0, more && stack[|stack| - 1].OnBranch?
      {
        var top := |stack| - 1;
        ghost var b := BaseAt(stack, path, top, b0);
        WithinTree(stack, path, top, t, b0, dup);
        TopWritten(stack, path, t, b0);
        TopProper(stack, path, t, b0, dup);
        var f := stack[top];
        if f.OnBranch? && f.ki + 1 < |f.links| {
          OpenNext(stack, path, t, b0);
          ProperKid(path[top], f.ki + 1, dup);
          stack, path := Descend(stack[top := f.(ki := f.ki + 1)], path, f.links[f.ki + 1].page, t, dup, b0, next,
                                 Written(stack, path, b0));
        } else {
          var mo: OutPage;
          if f.OnLeaf? {
            var res := CopyNodes(f.nodes, dup);
            mo := OutLeaf(next, res);
          } else {
            mo := OutBranch(next, f.keys, Numbers(f.links));
          }
          out := out + [mo];
          next := next + 1;
          if top > 0 {
            Climb(stack, path, t, b0);
            var g := stack[top - 1];
            stack := stack[..top][top - 1 := g.(links := g.links[g.ki := New(mo.pgno)])];
            path := path[..top];
          } else {
            BottomPage(stack, path, b0);
            assert [] + Emit(t, b0) == Emit(t, b0);
            root := mo.pgno;
            more := false;
          }
        }
      }
    }
  }

  /** mdb_page_search_root to the first leaf, and the loop at `again`. */
  method Descend(stack0: seq<Frame>, ghost path0: seq<Page>, page0: Page, ghost t: Page, ghost dup: bool, ghost b0: nat,
                 ghost base: nat, ghost done: seq<OutPage>) returns (stack: seq<Frame>, ghost path: seq<Page>)
    requires OpenOk(stack0, path0, page0, t, b0, base, done) && Proper(page0, dup)
    ensures StackOk(stack, path, t, b0) && NextNo(stack, path, b0) == base && Written(stack, path, b0) == done
    ensures stack[|stack| - 1].OnLeaf?
  {
    hide OpenOk, StackOk, Written, NextNo, Emit, EmitKids;
    stack, path := stack0, path0;
    var page := page0;
    while page.Branch?
      invariant OpenOk(stack, path, page, t, b0, base, done) && Proper(page, dup)
      decreases page
    {
      OpenDown(stack, path, page, t, b0, base, done);
      stack, path := stack + [OnBranch(page.keys, Olds(page.kids), 0)], path + [page];
      page := page.kids[0];
    }
    OpenLeaf(stack, path, page, t, b0, base, done);
    stack, path := stack + [OnLeaf(page.nodes)], path + [page];
    StackSize(stack, path, t, b0);
  }

  lemma StackSize(stack: seq<Frame>, path: seq<Page>, t: Page, b0: nat)
    requires StackOk(stack, path, t, b0)
    ensures |stack| == |path| >= 1
  {
  }

  lemma StartOpen(t: Page, b0: nat)
    ensures OpenOk([], [], t, t, b0, b0, [])
  {
  }

  lemma NoNodes(base: nat)
    ensures CountNodes([]) == 0 && EmitNodes([], base) == [] && OutNodes([], base) == []
  {
  }

  lemma ProperKid(p: Page, i: nat, dup: bool)
    requires Proper(p, dup) && p.Branch? && i < |p.kids|
    ensures Proper(p.kids[i], dup)
  {
  }

  lemma TopProper(stack: seq<Frame>, path: seq<Page>, t: Page, b0: nat, dup: bool)
    requires StackOk(stack, path, t, b0) && Proper(path[|stack| - 1], dup)
    ensures var f := stack[|stack| - 1];
            f.OnLeaf? ==> Proper(Leaf(f.nodes), dup) && CountNodes(f.nodes) < Count(path[|stack| - 1])
  {
  }

  /** At the bottom of the stack the page is the tree itself. */
  lemma BottomPage(stack: seq<Frame>, path: seq<Page>, b0: nat)
    requires |stack| == |path| == 1
    ensures BaseAt(stack, path, 0, b0) == b0 && DoneAt(stack, path, 0, b0) == []
  {
  }

  function Plains(nodes: seq<Node>): (r: seq<OutNode>)
    requires forall i :: 0 <= i < |nodes| ==> nodes[i].Plain?
    ensures |r| == |nodes| && forall i :: 0 <= i < |nodes| ==> r[i] == OutPlain(nodes[i].key, nodes[i].data)
  {
    seq(|nodes|, i requires 0 <= i < |nodes| => OutPlain(nodes[i].key, nodes[i].data))
  }

  lemma {:induction false} AllPlain(nodes: seq<Node>, base: nat)
    requires Proper(Leaf(nodes), true)
    ensures forall i :: 0 <= i < |nodes| ==> nodes[i].Plain?
    ensures EmitNodes(nodes, base) == [] && CountNodes(nodes) == 0 && OutNodes(nodes, base) == Plains(nodes)
  {
    forall i | 0 <= i < |nodes| ensures nodes[i].Plain? {
      assert ProperNode(nodes[i], true);
    }
    if |nodes| > 0 {
      AllPlain(nodes[1..], base);
    }
  }

  // ---------------------------------------------------------- the whole copy

  datatype CopyResult = Success | Incompatible

  /** The main database of the snapshot to be copied, its next page number, and
      how many pages the freeDB and its records account for. */
  datatype Source = Source(root: Option<Page>, nextPgno: nat, freecount: nat)

  /** Every page but the two meta pages is in the tree of the main database, or
      is free, or belongs to the freeDB. */
  ghost predicate Conserved(src: Source) {
    src.root.Some? ==> src.nextPgno == 2 + Count(src.root.value) + src.freecount
  }

  /** mdb_env_copyfd1: the root is predicted before the walk, and the copy is
      refused when the walk ends elsewhere. */
  method CopyFd1(src: Source) returns (res: CopyResult, metaRoot: Option<int>, out: seq<OutPage>, next: nat)
    requires src.root.Some? ==> Proper(src.root.value, false)
    ensures res == Success <==> Conserved(src)
    ensures Tiles(out, 2, next)
    ensures res == Success && src.root.None? ==> metaRoot == None && out == []
    ensures res == Success && src.root.Some? ==>
      && metaRoot == Some(next - 1)
      && next == src.nextPgno - src.freecount
      && CopyOf(ToFile(out), next - 1, src.root.value)
  {
    var my := new Copier();
    metaRoot := None;
    res := Success;
    if src.root.Some? {
      var t := src.root.value;
      var newRoot: int := src.nextPgno - 1 - src.freecount;
      metaRoot := Some(newRoot);
      var root := my.CWalk(t, false);
      assert my.out == Emit(t, 2);
      EmitTiles(t, 2, false);
      FileHolds(my.out, 2, my.next);
      EmitCopies(ToFile(my.out), t, 2);
      if root != newRoot {
        res := Incompatible;
      }
    }
    out, next := my.out, my.next;
  }
}
