/** Why rebalancing a leaf never meets MDB_PAGE_FULL. */
module LeafBalance {
  import opened Sequences
  import opened PageNodes
  import opened SlottedPage

  const FILL_THRESHOLD: nat := 250
  const MDB_MINKEYS: nat := 2
  const MIN_PAGESIZE: nat := 4096

  /** me_nodemax for a page size. */
  function NodeMax(psize: nat): int { (psize - PAGEHDRSZ) / MDB_MINKEYS / 2 * 2 - 2 }

  /** PAGEFILL, in tenths of a percent. */
  function PageFill(psize: nat, sizeLeft: int): int
    requires psize > PAGEHDRSZ
  {
    1000 * (psize - PAGEHDRSZ - sizeLeft) / (psize - PAGEHDRSZ)
  }

  /** A leaf of which every node is within me_nodemax. */
  ghost predicate LeafOk(p: SlottedPage)
    reads p, p.mem, p.ptrs
  {
    && p.Valid() && p.leaf && MIN_PAGESIZE <= p.psize
    && forall i :: 0 <= i < |p.nodes| ==> NODESIZE + |p.nodes[i].key| + |p.nodes[i].data| <= NodeMax(p.psize)
  }

  /** A node with its pointer takes no more than half a page. */
  lemma NodeIsHalf(n: Node, psize: nat)
    requires psize >= MIN_PAGESIZE && NODESIZE + |n.key| + |n.data| <= NodeMax(psize)
    ensures 2 * (Size(n) + 2) <= psize - PAGEHDRSZ
  {
  }

  /** Below the threshold is less than a quarter of the page used. */
  lemma BelowThreshold(psize: nat, sizeLeft: int)
    requires psize > PAGEHDRSZ && sizeLeft <= psize - PAGEHDRSZ
    ensures PageFill(psize, sizeLeft) < FILL_THRESHOLD <==>
              4 * (psize - PAGEHDRSZ - sizeLeft) < psize - PAGEHDRSZ
  {
    var used, pmax := psize - PAGEHDRSZ - sizeLeft, psize - PAGEHDRSZ;
    if 4 * used >= pmax {
      assert 1000 * used >= 250 * pmax;
      DivAtLeast(1000 * used, pmax, 250);
    } else {
      assert 1000 * used < 250 * pmax;
      DivBelow(1000 * used, pmax, 250);
    }
  }

  lemma DivBelow(a: int, b: int, q: int)
    requires b > 0 && a < q * b
    ensures a / b < q
  {
    if a / b >= q {
      MulLe(q, a / b, b);
    }
  }

  lemma DivAtLeast(a: int, b: int, q: int)
    requires b > 0 && a >= q * b
    ensures a / b >= q
  {
    var d := a / b;
    assert a == d * b + a % b;
    assert d + 1 <= q ==> (d + 1) * b <= q * b by { if d + 1 <= q { MulLe(d + 1, q, b); } }
    assert (d + 1) * b == d * b + b;
  }

  lemma MulLe(x: int, y: int, b: int)
    requires x <= y && b > 0
    ensures x * b <= y * b
  {
  }

  /** The page needs rebalancing: mdb_rebalance did not return at once. */
  ghost predicate Underfilled(p: SlottedPage)
    requires p.psize > PAGEHDRSZ
    reads p
  {
    PageFill(p.psize, p.SizeLeft()) < FILL_THRESHOLD || |p.nodes| < 1
  }

  /** The neighbour can spare a node. */
  ghost predicate CanSpare(p: SlottedPage)
    requires p.psize > PAGEHDRSZ
    reads p
  {
    PageFill(p.psize, p.SizeLeft()) >= FILL_THRESHOLD && |p.nodes| > 1
  }

  lemma UsedWhenUnderfilled(p: SlottedPage)
    requires LeafOk(p) && Underfilled(p)
    ensures 4 * (Sizes(p.nodes) + 2 * |p.nodes|) < p.psize - PAGEHDRSZ
  {
    p.FreeSpace();
    if |p.nodes| < 1 {
      assert p.nodes == [];
    } else {
      BelowThreshold(p.psize, p.SizeLeft());
    }
  }

  /** Any node of a neighbour fits into the page. */
  lemma MoveFits(p: SlottedPage, n: Node)
    requires LeafOk(p) && Underfilled(p) && NODESIZE + |n.key| + |n.data| <= NodeMax(p.psize)
    ensures Size(n) + 2 <= p.SizeLeft()
  {
    UsedWhenUnderfilled(p);
    p.FreeSpace();
    NodeIsHalf(n, p.psize);
  }

  /** A page that cannot spare a node uses at most half of its room, so that
      the two fit into one. */
  lemma MergeFits(p: SlottedPage, q: SlottedPage)
    requires LeafOk(p) && LeafOk(q) && p.psize == q.psize && Underfilled(p) && !CanSpare(q)
    ensures Sizes(p.nodes) + 2 * |p.nodes| + Sizes(q.nodes) + 2 * |q.nodes| <= p.psize - PAGEHDRSZ
  {
    UsedWhenUnderfilled(p);
    q.FreeSpace();
    if PageFill(q.psize, q.SizeLeft()) < FILL_THRESHOLD {
      BelowThreshold(q.psize, q.SizeLeft());
    } else if |q.nodes| == 1 {
      NodeIsHalf(q.nodes[0], q.psize);
      assert Sizes(q.nodes) == Size(q.nodes[0]) + Sizes(q.nodes[1..]);
    } else {
      assert q.nodes == [];
    }
  }

  // ------------------------------------------------------- on the bytes

  /** The node at an index, read from the page. */
  method ReadNode(p: SlottedPage, indx: nat) returns (n: Node)
    requires p.Valid() && indx < |p.nodes|
    ensures n == p.nodes[indx]
  {
    hide Laid, Sizes, Image;
    LaidAt(p.leaf, p.mem[..], p.ptrs[..|p.nodes|], p.upper, p.nodes, indx);
    ghost var m := p.nodes[indx];
    var off := p.ptrs[indx];
    ImageFits(m);
    HeaderWords(m);
    assert forall k :: 0 <= k < |Image(m)| ==> p.mem[off + k] == p.mem[..][off + k] == Image(m)[k];
    var lo, hi := ReadWord(p.mem[off], p.mem[off + 1]), ReadWord(p.mem[off + 2], p.mem[off + 3]);
    var flags, ksize := ReadWord(p.mem[off + 4], p.mem[off + 5]), ReadWord(p.mem[off + 6], p.mem[off + 7]);
    var dsize := DataSize(p.leaf, lo, hi, flags);
    var start := off + NODESIZE;
    n := Node(lo, hi, flags, p.mem[start..start + ksize], p.mem[start + ksize..start + ksize + dsize]);
    ReadBack(p.mem[..], off, m);
  }

  /** A leaf node that is added again, with its own flags and data size, is
      the same node. */
  lemma Remade(n: Node, nodemax: nat, pgno: nat, ovpgno: nat)
    requires NodeOk(true, n) && NODESIZE + |n.key| + |n.data| <= nodemax
    ensures var dsz := n.lo + 0x10000 * n.hi;
            InputOk(true, n.key, n.data, dsz, n.flags)
                && MakeNode(true, n.key, n.data, dsz, pgno, n.flags, nodemax, ovpgno) == n
  {
    var dsz := n.lo + 0x10000 * n.hi;
    assert dsz % 0x10000 == n.lo && dsz / 0x10000 == n.hi;
  }

  lemma NodeFits(p: SlottedPage, i: nat)
    requires LeafOk(p) && i < |p.nodes|
    ensures NodeOk(true, p.nodes[i]) && NODESIZE + |p.nodes[i].key| + |p.nodes[i].data| <= NodeMax(p.psize)
  {
    LaidAt(p.leaf, p.mem[..], p.ptrs[..|p.nodes|], p.upper, p.nodes, i);
  }

  /** A node of another leaf, added to this one, where it fits. */
  method AddAgain(dst: SlottedPage, indx: nat, n: Node) returns (ok: bool)
    requires LeafOk(dst) && indx <= |dst.nodes| && NodeOk(true, n)
             && NODESIZE + |n.key| + |n.data| <= NodeMax(dst.psize)
    requires Size(n) + 2 <= dst.SizeLeft()
    modifies dst`lower, dst`upper, dst`nodes, dst.mem, dst.ptrs
    ensures ok && LeafOk(dst) && dst.nodes == Inserted(old(dst.nodes), indx, n)
  {
    hide Laid, Sizes, Size, MakeNode;
    Remade(n, NodeMax(dst.psize), 0, 0);
    ok := dst.NodeAdd(indx, n.key, n.data, n.lo + 0x10000 * n.hi, 0, n.flags, NodeMax(dst.psize), 0);
  }

  method TakeOut(src: SlottedPage, indx: nat)
    requires LeafOk(src) && indx < |src.nodes|
    modifies src`lower, src`upper, src`nodes, src.mem, src.ptrs
    ensures LeafOk(src) && src.nodes == Without(old(src.nodes), indx)
  {
    hide Laid, Sizes, Size;
    src.NodeDel(indx);
  }

  /** The move of mdb_node_move between two leaves: adding the node always
      succeeds. */
  method MoveNode(src: SlottedPage, dst: SlottedPage, fromleft: bool) returns (ok: bool)
    requires LeafOk(src) && LeafOk(dst) && src.psize == dst.psize && Underfilled(dst) && CanSpare(src)
    requires src != dst && src.mem != dst.mem && src.ptrs != dst.ptrs
    modifies src`lower, src`upper, src`nodes, src.mem, src.ptrs, dst`lower, dst`upper, dst`nodes, dst.mem, dst.ptrs
    ensures ok && LeafOk(src) && LeafOk(dst)
    ensures fromleft ==> src.nodes + dst.nodes == old(src.nodes + dst.nodes) && |dst.nodes| == |old(dst.nodes)| + 1
    ensures !fromleft ==> dst.nodes + src.nodes == old(dst.nodes + src.nodes) && |dst.nodes| == |old(dst.nodes)| + 1
  {
    hide Laid, Sizes, Size, PageFill;
    src.FreeSpace();
    dst.FreeSpace();
    var ski := if fromleft then src.NumKeys() - 1 else 0;
    var dki := if fromleft then 0 else dst.NumKeys();
    NodeFits(src, ski);
    var n := ReadNode(src, ski);
    MoveFits(dst, n);
    ghost var a, b := src.nodes, dst.nodes;
    ok := AddAgain(dst, dki, n);
    TakeOut(src, ski);
    Regrouped(a, b);
  }

  lemma Regrouped(a: seq<Node>, b: seq<Node>)
    requires a != []
    ensures Without(a, |a| - 1) + Inserted(b, 0, a[|a| - 1]) == a + b
    ensures Inserted(b, |b|, a[0]) + Without(a, 0) == b + a
  {
  }

  lemma OneMore(a: seq<Node>, b: seq<Node>, i: nat)
    requires i < |b|
    ensures a + b[..i + 1] == Inserted(a + b[..i], |a| + i, b[i])
  {
  }

  /** The loop of mdb_page_merge between two leaves: every node fits. */
  method MergeInto(dst: SlottedPage, src: SlottedPage) returns (ok: bool)
    requires LeafOk(src) && LeafOk(dst) && src.psize == dst.psize
    requires (Underfilled(dst) && !CanSpare(src)) || (Underfilled(src) && !CanSpare(dst))
    requires src != dst && src.mem != dst.mem && src.ptrs != dst.ptrs
    modifies dst`lower, dst`upper, dst`nodes, dst.mem, dst.ptrs
    ensures ok && LeafOk(dst) && dst.nodes == old(dst.nodes) + src.nodes
  {
    hide Laid, Sizes, Size, PageFill, Inserted, Underfilled, CanSpare;
    if Underfilled(dst) && !CanSpare(src) {
      MergeFits(dst, src);
    } else {
      MergeFits(src, dst);
    }
    src.FreeSpace();
    dst.FreeSpace();
    ghost var nodes0 := dst.nodes;
    var i, j := 0, dst.NumKeys();
    ok := true;
    assert src.nodes[0..] == src.nodes && nodes0 + src.nodes[..0] == nodes0;
    while i < src.NumKeys()
      invariant 0 <= i <= |src.nodes| && j == |nodes0| + i && ok
      invariant LeafOk(dst) && dst.nodes == nodes0 + src.nodes[..i]
      invariant Room(dst.nodes, src.nodes[i..], dst.psize)
    {
      ok := MergeOne(dst, src, i, j);
      OneMore(nodes0, src.nodes, i);
      i, j := i + 1, j + 1;
    }
    assert src.nodes[..i] == src.nodes;
  }

  ghost predicate Room(a: seq<Node>, b: seq<Node>, psize: nat) {
    Sizes(a) + 2 * |a| + Sizes(b) + 2 * |b| + PAGEHDRSZ <= psize
  }

  method MergeOne(dst: SlottedPage, src: SlottedPage, i: nat, j: nat) returns (ok: bool)
    requires LeafOk(src) && LeafOk(dst) && src.psize == dst.psize && i < |src.nodes| && j <= |dst.nodes|
    requires src != dst && src.mem != dst.mem && src.ptrs != dst.ptrs
    requires Room(dst.nodes, src.nodes[i..], dst.psize)
    modifies dst`lower, dst`upper, dst`nodes, dst.mem, dst.ptrs
    ensures ok && LeafOk(dst) && dst.nodes == Inserted(old(dst.nodes), j, src.nodes[i])
    ensures Room(dst.nodes, src.nodes[i + 1..], dst.psize)
  {
    hide Laid, Sizes, Size;
    NodeFits(src, i);
    var n := ReadNode(src, i);
    SizesFirst(src.nodes[i..]);
    assert src.nodes[i..][1..] == src.nodes[i + 1..];
    dst.FreeSpace();
    SizesInserted(dst.nodes, j, n);
    ok := AddAgain(dst, j, n);
  }
}
