/** The bytes of the nodes on a page. */
module PageNodes {
  /*
   A node is a header of four 16-bit words (data size or page number, flags, key
   size), the key, and on a leaf the data.  Its place on the page is rounded up
   to an even size.
   */

  import opened Sequences
  import opened ByteValues

  type indx = x: int | 0 <= x < 0x10000

  const PAGEHDRSZ: nat := 16
  const NODESIZE: nat := 8
  const PGNOSIZE: nat := 8
  const F_BIGDATA: nat := 1
  /** Larger pages would not fit 16-bit offsets. */
  const MAX_PAGESIZE: nat := 0x8000

  function Even(n: nat): (e: nat)
    ensures e % 2 == 0 && n <= e <= n + 1
  {
    n + n % 2
  }

  datatype Node = Node(lo: indx, hi: indx, flags: indx, key: seq<byte>, data: seq<byte>)

  /** What a header says about the size of the data part. */
  function DataSize(leaf: bool, lo: indx, hi: indx, flags: indx): nat {
    if !leaf then 0 else if flags % 2 == F_BIGDATA then PGNOSIZE else lo + 0x10000 * hi
  }

  ghost predicate NodeOk(leaf: bool, n: Node) {
    |n.key| < 0x10000 && |n.data| == DataSize(leaf, n.lo, n.hi, n.flags)
  }

  function Word(w: indx): (b: seq<byte>)
    ensures |b| == 2
  {
    [w % 256, w / 256]
  }

  function ReadWord(b0: byte, b1: byte): indx { b0 + 256 * b1 }

  function Header(n: Node): (h: seq<byte>)
    requires |n.key| < 0x10000
    ensures |h| == NODESIZE
  {
    Word(n.lo) + Word(n.hi) + Word(n.flags) + Word(|n.key|)
  }

  function Image(n: Node): (im: seq<byte>)
    requires |n.key| < 0x10000
    ensures |im| == NODESIZE + |n.key| + |n.data|
  {
    Header(n) + n.key + n.data
  }

  /** The room a node takes among the nodes of its page. */
  function Size(n: Node): (s: nat)
    ensures s % 2 == 0 && s >= NODESIZE
  {
    Even(NODESIZE + |n.key| + |n.data|)
  }

  function Sizes(nodes: seq<Node>): nat {
    if |nodes| == 0 then 0 else Size(nodes[0]) + Sizes(nodes[1..])
  }

  // ------------------------------------------------------- nodes in memory

  /** The bytes at an offset. */
  ghost predicate Holds(mem: seq<byte>, off: nat, im: seq<byte>) {
    off + |im| <= |mem| && forall k :: 0 <= k < |im| ==> mem[off + k] == im[k]
  }

  /** Nodes i and j do not overlap. */
  ghost predicate Apart(ptrs: seq<nat>, nodes: seq<Node>, i: nat, j: nat)
    requires |ptrs| == |nodes| && i < |nodes| && j < |nodes|
  {
    ptrs[i] + Size(nodes[i]) <= ptrs[j] || ptrs[j] + Size(nodes[j]) <= ptrs[i]
  }

  /** The page memory holds these nodes, none overlapping, from upper on. */
  ghost predicate Laid(leaf: bool, mem: seq<byte>, ptrs: seq<nat>, upper: nat, nodes: seq<Node>) {
    && |ptrs| == |nodes|
    && (forall i :: 0 <= i < |nodes| ==>
          NodeOk(leaf, nodes[i]) && upper <= ptrs[i] && ptrs[i] + Size(nodes[i]) <= |mem|)
    && (forall i :: 0 <= i < |nodes| ==> Holds(mem, ptrs[i], Image(nodes[i])))
    && (forall i, j :: 0 <= i < j < |nodes| ==> Apart(ptrs, nodes, i, j))
  }

  lemma LaidAt(leaf: bool, mem: seq<byte>, ptrs: seq<nat>, upper: nat, nodes: seq<Node>, i: nat)
    requires Laid(leaf, mem, ptrs, upper, nodes) && i < |nodes|
    ensures |ptrs| == |nodes| && NodeOk(leaf, nodes[i]) && upper <= ptrs[i] && ptrs[i] + Size(nodes[i]) <= |mem|
            && Holds(mem, ptrs[i], Image(nodes[i]))
  {
  }

  lemma LaidApart(leaf: bool, mem: seq<byte>, ptrs: seq<nat>, upper: nat, nodes: seq<Node>, i: nat, j: nat)
    requires Laid(leaf, mem, ptrs, upper, nodes) && i < |nodes| && j < |nodes| && i != j
    ensures |ptrs| == |nodes| && Apart(ptrs, nodes, i, j)
  {
    if j < i {
      assert Apart(ptrs, nodes, j, i);
    }
  }

  // ------------------------------------------------- what the bytes say

  /** Little-endian numbers of 16, 32, 48 and 64 bits in memory. */
  function U16(mem: seq<byte>, off: nat): nat
    requires off + 2 <= |mem|
  {
    var lo: int, hi: int := mem[off], mem[off + 1];
    lo + 0x100 * hi
  }

  function U32(mem: seq<byte>, off: nat): nat
    requires off + 4 <= |mem|
  {
    U16(mem, off) + 0x10000 * U16(mem, off + 2)
  }

  function U48(mem: seq<byte>, off: nat): nat
    requires off + 6 <= |mem|
  {
    U32(mem, off) + 0x1_0000_0000 * U16(mem, off + 4)
  }

  function U64(mem: seq<byte>, off: nat): nat
    requires off + 8 <= |mem|
  {
    U48(mem, off) + 0x1_0000_0000_0000 * U16(mem, off + 6)
  }

  /** The bytes at off are a branch node with this key and this page number:
      NODEPGNO, NODEKSZ and NODEKEY. */
  ghost predicate BranchReads(mem: seq<byte>, off: nat, key: seq<byte>, pgno: nat) {
    && off + NODESIZE + |key| <= |mem|
    && U48(mem, off) == pgno && U16(mem, off + 6) == |key|
    && mem[off + NODESIZE..off + NODESIZE + |key|] == key
  }

  /** The bytes at off are a leaf node: NODEDSZ, mn_flags, NODEKSZ, NODEKEY, and
      NODEDATA, which is the number of the overflow page if the data is over there. */
  ghost predicate LeafReads(mem: seq<byte>, off: nat, key: seq<byte>, data: seq<byte>, dsz: nat, flags: nat, over: bool,
                            ovpgno: nat) {
    && off + NODESIZE + |key| + (if over then PGNOSIZE else |data|) <= |mem|
    && U32(mem, off) == dsz && U16(mem, off + 6) == |key|
    && mem[off + NODESIZE..off + NODESIZE + |key|] == key
    && (U16(mem, off + 4) % 2 == F_BIGDATA <==> over || flags % 2 == F_BIGDATA)
    && U16(mem, off + 4) / 2 == flags / 2
    && if over then U64(mem, off + NODESIZE + |key|) == ovpgno
       else mem[off + NODESIZE + |key|..off + NODESIZE + |key| + |data|] == data
  }

  lemma HeaderReads(mem: seq<byte>, off: nat, n: Node)
    requires |n.key| < 0x10000 && Holds(mem, off, Image(n))
    ensures off + NODESIZE <= |mem|
    ensures U16(mem, off) == n.lo && U16(mem, off + 2) == n.hi && U16(mem, off + 4) == n.flags
            && U16(mem, off + 6) == |n.key|
  {
    hide Image;
    HeaderWords(n);
    assert forall k :: 0 <= k < NODESIZE ==> mem[off + k] == Image(n)[k];
  }

  /** The key and the data of a node follow its header in the page. */
  lemma ReadBack(mem: seq<byte>, off: nat, n: Node)
    requires |n.key| < 0x10000 && off + |Image(n)| <= |mem|
    requires Holds(mem, off, Image(n))
    ensures |Image(n)| == NODESIZE + |n.key| + |n.data|
    ensures mem[off + NODESIZE..off + NODESIZE + |n.key|] == n.key
    ensures mem[off + NODESIZE + |n.key|..off + NODESIZE + |n.key| + |n.data|] == n.data
  {
    hide Image;
    ImageParts(n);
    var image, key, data, end := Image(n), off + NODESIZE, off + NODESIZE + |n.key|, off + |Image(n)|;
    assert forall k :: 0 <= k < |n.key| ==> mem[key..data][k] == image[NODESIZE + k];
    assert forall k :: 0 <= k < |n.data| ==> mem[data..end][k] == image[NODESIZE + |n.key| + k];
  }

  lemma ImageParts(n: Node)
    requires |n.key| < 0x10000
    ensures |Image(n)| == NODESIZE + |n.key| + |n.data|
    ensures forall k :: 0 <= k < |n.key| ==> Image(n)[NODESIZE + k] == n.key[k]
    ensures forall k :: 0 <= k < |n.data| ==> Image(n)[NODESIZE + |n.key| + k] == n.data[k]
  {
  }

  /** A number is put together again from its 16-bit words. */
  lemma Words(x: nat)
    ensures x < 0x1_0000_0000 ==> x % 0x10000 + 0x10000 * (x / 0x10000 % 0x10000) == x
    ensures x < 0x1_0000_0000_0000 ==>
              x % 0x10000 + 0x10000 * (x / 0x10000 % 0x10000) + 0x1_0000_0000 * (x / 0x1_0000_0000 % 0x10000) == x
    ensures x < 0x1_0000_0000_0000_0000 ==>
              x % 0x10000 + 0x10000 * (x / 0x10000 % 0x10000) + 0x1_0000_0000 * (x / 0x1_0000_0000 % 0x10000)
              + 0x1_0000_0000_0000 * (x / 0x1_0000_0000_0000 % 0x10000) == x
  {
    var a, b, c := x / 0x10000, x / 0x1_0000_0000, x / 0x1_0000_0000_0000;
    assert x == x % 0x10000 + 0x10000 * a;
    assert a / 0x10000 == b && b / 0x10000 == c;
    assert a == a % 0x10000 + 0x10000 * b;
    assert b == b % 0x10000 + 0x10000 * c;
  }

  /** The header of a node can be read back. */
  lemma HeaderWords(n: Node)
    requires |n.key| < 0x10000
    ensures var im := Image(n);
            && ReadWord(im[0], im[1]) == n.lo && ReadWord(im[2], im[3]) == n.hi
            && ReadWord(im[4], im[5]) == n.flags && ReadWord(im[6], im[7]) == |n.key|
  {
  }

  // ------------------------------------------------------------ sequence edits

  lemma {:induction false} SizesSplit(s: seq<Node>, i: nat)
    requires i <= |s|
    ensures Sizes(s) == Sizes(s[..i]) + Sizes(s[i..])
  {
    if i == 0 {
      assert s[0..] == s && s[..0] == [];
    } else {
      SizesSplit(s[1..], i - 1);
      assert s[1..][..i - 1] == s[..i][1..] && s[1..][i - 1..] == s[i..];
    }
  }

  lemma SizesInserted(s: seq<Node>, i: nat, n: Node)
    requires i <= |s|
    ensures Sizes(Inserted(s, i, n)) == Sizes(s) + Size(n)
  {
    var r := Inserted(s, i, n);
    SizesSplit(s, i);
    SizesSplit(r, i);
    assert r[..i] == s[..i] && r[i..][0] == n && r[i..][1..] == s[i..];
  }

  lemma SizesWithout(s: seq<Node>, i: nat)
    requires i < |s|
    ensures Sizes(s) == Sizes(Without(s, i)) + Size(s[i])
  {
    hide Sizes, Size;
    SizesSplit(s, i);
    SizesFirst(s[i..]);
    assert s[i..][1..] == s[i + 1..];
    var r := Without(s, i);
    SizesSplit(r, i);
    assert r[..i] == s[..i] && r[i..] == s[i + 1..];
  }

  lemma SizesFirst(s: seq<Node>)
    requires |s| > 0
    ensures Sizes(s) == Size(s[0]) + Sizes(s[1..])
  {
  }

  // --------------------------------------------------------- three page edits

  /** A node written just below the others. */
  lemma AddLaid(leaf: bool, mem: seq<byte>, mem': seq<byte>, ptrs: seq<nat>, upper: nat, nodes: seq<Node>, indx: nat,
                n: Node, ofs: nat)
    requires Laid(leaf, mem, ptrs, upper, nodes) && NodeOk(leaf, n) && indx <= |nodes|
    requires upper == ofs + Size(n) <= |mem| == |mem'|
    requires Holds(mem', ofs, Image(n))
    requires forall k :: upper <= k < |mem| ==> mem'[k] == mem[k]
    ensures Laid(leaf, mem', Inserted(ptrs, indx, ofs), ofs, Inserted(nodes, indx, n))
  {
    hide Image, Size;
    var ptrs', nodes' := Inserted(ptrs, indx, ofs), Inserted(nodes, indx, n);
    ImageFits(n);
    forall i | 0 <= i < |nodes'|
      ensures NodeOk(leaf, nodes'[i]) && ofs <= ptrs'[i] && ptrs'[i] + Size(nodes'[i]) <= |mem'|
              && Holds(mem', ptrs'[i], Image(nodes'[i]))
    {
      if i != indx {
        var i0 := if i < indx then i else i - 1;
        LaidAt(leaf, mem, ptrs, upper, nodes, i0);
        ImageFits(nodes[i0]);
      }
    }
    forall i, j | 0 <= i < j < |nodes'| ensures Apart(ptrs', nodes', i, j) {
      var i0, j0 := if i < indx then i else i - 1, if j < indx then j else j - 1;
      if i == indx {
        LaidAt(leaf, mem, ptrs, upper, nodes, j0);
      } else if j == indx {
        LaidAt(leaf, mem, ptrs, upper, nodes, i0);
      } else {
        LaidApart(leaf, mem, ptrs, upper, nodes, i0, j0);
      }
    }
  }

  lemma ImageFits(n: Node)
    requires |n.key| < 0x10000
    ensures |Image(n)| <= Size(n)
  {
  }

  /** Where a node is when the nodes below ptr have moved up by sz. */
  function Lifted(p: nat, ptr: nat, sz: nat): nat { if p < ptr then p + sz else p }

  function LiftedAll(ptrs: seq<nat>, ptr: nat, sz: nat): (r: seq<nat>)
    ensures |r| == |ptrs| && forall i :: 0 <= i < |ptrs| ==> r[i] == Lifted(ptrs[i], ptr, sz)
  {
    seq(|ptrs|, i requires 0 <= i < |ptrs| => Lifted(ptrs[i], ptr, sz))
  }

  lemma MakeLaid(leaf: bool, mem: seq<byte>, ptrs: seq<nat>, upper: nat, nodes: seq<Node>)
    requires |ptrs| == |nodes|
    requires forall i :: 0 <= i < |nodes| ==>
               NodeOk(leaf, nodes[i]) && upper <= ptrs[i] && ptrs[i] + Size(nodes[i]) <= |mem|
                   && Holds(mem, ptrs[i], Image(nodes[i]))
    requires forall i, j :: 0 <= i < j < |nodes| ==> Apart(ptrs, nodes, i, j)
    ensures Laid(leaf, mem, ptrs, upper, nodes)
  {
    hide Image, Size, Holds, Apart, NodeOk;
  }

  /** One of the nodes that stay. */
  lemma DelKeeps(leaf: bool, mem: seq<byte>, mem': seq<byte>, ptrs: seq<nat>, upper: nat, nodes: seq<Node>, indx: nat,
                 i: nat)
    requires Laid(leaf, mem, ptrs, upper, nodes) && indx < |nodes| && |mem'| == |mem| && i < |nodes| && i != indx
    requires var ptr, sz := ptrs[indx], Size(nodes[indx]);
      && (forall k :: upper <= k < ptr && k + sz < |mem'| ==> mem'[k + sz] == mem[k])
      && (forall k :: ptr + sz <= k < |mem| ==> mem'[k] == mem[k])
    ensures var ptr, sz := ptrs[indx], Size(nodes[indx]);
            var p := if ptrs[i] < ptr then ptrs[i] + sz else ptrs[i];
            NodeOk(leaf, nodes[i]) && upper + sz <= p && p + Size(nodes[i]) <= |mem'| && Holds(mem', p, Image(nodes[i]))
  {
    hide Image, Size, Laid;
    LaidAt(leaf, mem, ptrs, upper, nodes, indx);
    var ptr, sz := ptrs[indx], Size(nodes[indx]);
    LaidAt(leaf, mem, ptrs, upper, nodes, i);
    LaidApart(leaf, mem, ptrs, upper, nodes, i, indx);
    ImageFits(nodes[i]);
    SizePositive(nodes[i]);
    SizePositive(nodes[indx]);
    if ptrs[i] < ptr {
      forall k | 0 <= k < |Image(nodes[i])| ensures mem'[ptrs[i] + sz + k] == Image(nodes[i])[k] {
        assert mem'[(ptrs[i] + k) + sz] == mem[ptrs[i] + k];
      }
    }
  }

  /** The pointers of two that stay. */
  lemma DelApart(leaf: bool, mem: seq<byte>, ptrs: seq<nat>, upper: nat, nodes: seq<Node>, indx: nat, i: nat, j: nat)
    requires Laid(leaf, mem, ptrs, upper, nodes) && indx < |nodes| && i < j < |nodes| - 1
    ensures |ptrs| == |nodes|
    ensures Apart(LiftedAll(Without(ptrs, indx), ptrs[indx], Size(nodes[indx])), Without(nodes, indx), i, j)
  {
    hide Image, Size, Laid, Without;
    LaidAt(leaf, mem, ptrs, upper, nodes, indx);
    var i0, j0 := if i < indx then i else i + 1, if j < indx then j else j + 1;
    LaidApart(leaf, mem, ptrs, upper, nodes, i0, j0);
    LaidApart(leaf, mem, ptrs, upper, nodes, i0, indx);
    LaidApart(leaf, mem, ptrs, upper, nodes, j0, indx);
  }

  /** A node taken out, and those below it moved up into its place. */
  lemma DelLaid(leaf: bool, mem: seq<byte>, mem': seq<byte>, ptrs: seq<nat>, upper: nat, nodes: seq<Node>, indx: nat)
    requires Laid(leaf, mem, ptrs, upper, nodes) && indx < |nodes| && |mem'| == |mem|
    requires var ptr, sz := ptrs[indx], Size(nodes[indx]);
      && (forall k :: upper <= k < ptr && k + sz < |mem'| ==> mem'[k + sz] == mem[k])
      && (forall k :: ptr + sz <= k < |mem| ==> mem'[k] == mem[k])
    ensures var ptr, sz := ptrs[indx], Size(nodes[indx]);
      Laid(leaf, mem', LiftedAll(Without(ptrs, indx), ptr, sz), upper + sz, Without(nodes, indx))
  {
    hide Image, Size, Laid, Without, LiftedAll;
    LaidAt(leaf, mem, ptrs, upper, nodes, indx);
    var ptr, sz := ptrs[indx], Size(nodes[indx]);
    var ptrs', nodes' := LiftedAll(Without(ptrs, indx), ptr, sz), Without(nodes, indx);
    forall i | 0 <= i < |nodes'|
      ensures NodeOk(leaf, nodes'[i]) && upper + sz <= ptrs'[i] && ptrs'[i] + Size(nodes'[i]) <= |mem'|
              && Holds(mem', ptrs'[i], Image(nodes'[i]))
    {
      DelKeeps(leaf, mem, mem', ptrs, upper, nodes, indx, if i < indx then i else i + 1);
    }
    forall i, j | 0 <= i < j < |nodes'| ensures Apart(ptrs', nodes', i, j) {
      DelApart(leaf, mem, ptrs, upper, nodes, indx, i, j);
    }
    MakeLaid(leaf, mem', ptrs', upper + sz, nodes');
  }

  lemma SizePositive(n: Node)
    ensures Size(n) >= NODESIZE
  {
  }

  /** Where a node is when the nodes up to ptr have moved down by delta. */
  function Lowered(p: nat, ptr: nat, delta: int): int { if p <= ptr then p - delta else p }

  /** One of the other nodes. */
  lemma KeyKeeps(mem: seq<byte>, mem': seq<byte>, ptrs: seq<nat>, upper: nat, nodes: seq<Node>, indx: nat, delta: int,
                 i: nat)
    requires Laid(false, mem, ptrs, upper, nodes) && indx < |nodes| && |mem'| == |mem| && i < |nodes| && i != indx
    requires delta <= upper && Size(nodes[indx]) + delta >= 0
    requires forall k :: upper <= k < ptrs[indx] && 0 <= k - delta < |mem'| ==> mem'[k - delta] == mem[k]
    requires forall k :: ptrs[indx] + Size(nodes[indx]) <= k < |mem| ==> mem'[k] == mem[k]
    requires ptrs[indx] + Size(nodes[indx]) <= |mem|
    ensures var p := Lowered(ptrs[i], ptrs[indx], delta);
            NodeOk(false, nodes[i]) && upper - delta <= p && p + Size(nodes[i]) <= |mem'|
                && Holds(mem', p, Image(nodes[i]))
  {
    hide Image, Size, Laid;
    LaidAt(false, mem, ptrs, upper, nodes, indx);
    LaidAt(false, mem, ptrs, upper, nodes, i);
    LaidApart(false, mem, ptrs, upper, nodes, i, indx);
    ImageFits(nodes[i]);
    SizePositive(nodes[i]);
    SizePositive(nodes[indx]);
    if ptrs[i] < ptrs[indx] {
      forall k | 0 <= k < |Image(nodes[i])| ensures mem'[ptrs[i] - delta + k] == Image(nodes[i])[k] {
        assert mem'[(ptrs[i] + k) - delta] == mem[ptrs[i] + k];
      }
    }
  }

  /** The pointers stay apart. */
  lemma KeyApart(mem: seq<byte>, ptrs: seq<nat>, upper: nat, nodes: seq<Node>, indx: nat, n': Node, ptrs': seq<nat>,
                 delta: int, i: nat, j: nat)
    requires Laid(false, mem, ptrs, upper, nodes) && indx < |nodes| && i < j < |nodes| && |ptrs'| == |ptrs|
    requires forall i :: 0 <= i < |ptrs| ==> ptrs'[i] == Lowered(ptrs[i], ptrs[indx], delta)
    requires Size(n') == Size(nodes[indx]) + delta
    ensures Apart(ptrs', nodes[indx := n'], i, j)
  {
    hide Image, Size, Laid;
    LaidApart(false, mem, ptrs, upper, nodes, i, j);
    if i != indx {
      LaidApart(false, mem, ptrs, upper, nodes, i, indx);
      SizePositive(nodes[i]);
    }
    if j != indx {
      LaidApart(false, mem, ptrs, upper, nodes, j, indx);
      SizePositive(nodes[j]);
    }
  }

  lemma OtherKey(n: Node, key: seq<byte>)
    requires |key| < 0x10000 && NodeOk(false, n)
    ensures Size(n.(key := key)) == Size(n) + Even(|key|) - Even(|n.key|) && NodeOk(false, n.(key := key))
  {
  }

  /** A branch node with another key, the nodes up to it moved by the
      difference of the sizes. */
  lemma KeyLaid(mem: seq<byte>, mem': seq<byte>, ptrs: seq<nat>, upper: nat, nodes: seq<Node>, indx: nat,
                key: seq<byte>, ptrs': seq<nat>, delta: int)
    requires Laid(false, mem, ptrs, upper, nodes) && indx < |nodes| && |mem'| == |mem| && |key| < 0x10000
    requires delta == Even(|key|) - Even(|nodes[indx].key|) && delta <= upper
    requires |ptrs'| == |ptrs| && forall i :: 0 <= i < |ptrs| ==> ptrs'[i] == Lowered(ptrs[i], ptrs[indx], delta)
    requires forall k :: upper <= k < ptrs[indx] && 0 <= k - delta < |mem'| ==> mem'[k - delta] == mem[k]
    requires Holds(mem', ptrs'[indx], Image(nodes[indx].(key := key)))
    requires forall k :: ptrs[indx] + Size(nodes[indx]) <= k < |mem| ==> mem'[k] == mem[k]
    ensures Laid(false, mem', ptrs', upper - delta, nodes[indx := nodes[indx].(key := key)])
    ensures Size(nodes[indx].(key := key)) == Size(nodes[indx]) + delta
  {
    hide Image, Size, Laid;
    LaidAt(false, mem, ptrs, upper, nodes, indx);
    var n' := nodes[indx].(key := key);
    var nodes' := nodes[indx := n'];
    OtherKey(nodes[indx], key);
    forall i | 0 <= i < |nodes'|
      ensures NodeOk(false, nodes'[i]) && upper - delta <= ptrs'[i] && ptrs'[i] + Size(nodes'[i]) <= |mem'|
              && Holds(mem', ptrs'[i], Image(nodes'[i]))
    {
      if i != indx {
        KeyKeeps(mem, mem', ptrs, upper, nodes, indx, delta, i);
      }
    }
    forall i, j | 0 <= i < j < |nodes'| ensures Apart(ptrs', nodes', i, j) {
      KeyApart(mem, ptrs, upper, nodes, indx, n', ptrs', delta, i, j);
    }
    MakeLaid(false, mem', ptrs', upper - delta, nodes');
  }
}
