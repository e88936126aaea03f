/** mdb_node_add, mdb_node_del and mdb_update_key at the level of bytes. */
module SlottedPage {
  import opened ByteValues
  import opened Sequences
  import opened PageNodes

  /** memcpy of some bytes to an offset. */
  method Write(mem: array<byte>, off: nat, bytes: seq<byte>)
    requires off + |bytes| <= mem.Length
    modifies mem
    ensures forall k :: 0 <= k < |bytes| ==> mem[off + k] == bytes[k]
    ensures forall k :: 0 <= k < off || off + |bytes| <= k < mem.Length ==> mem[k] == old(mem[k])
  {
    var i := 0;
    while i < |bytes|
      invariant 0 <= i <= |bytes|
      invariant forall k :: 0 <= k < i ==> mem[off + k] == bytes[k]
      invariant forall k :: 0 <= k < off || off + i <= k < mem.Length ==> mem[k] == old(mem[k])
    {
      mem[off + i] := bytes[i];
      i := i + 1;
    }
  }

  /** memmove of len bytes. */
  method MemMove(mem: array<byte>, dst: nat, src: nat, len: nat)
    requires dst + len <= mem.Length && src + len <= mem.Length
    modifies mem
    ensures forall k :: dst <= k < dst + len ==> mem[k] == old(mem[..])[k - dst + src]
    ensures forall k :: 0 <= k < dst || dst + len <= k < mem.Length ==> mem[k] == old(mem[k])
  {
    var moved := mem[src..src + len];
    Write(mem, dst, moved);
    forall k | dst <= k < dst + len ensures mem[k] == old(mem[..])[k - dst + src] {
      assert mem[dst + (k - dst)] == moved[k - dst];
    }
  }

  /** s' is s with the bytes from lo up to hi moved down by delta. */
  ghost predicate Moved(s: seq<byte>, s': seq<byte>, lo: nat, hi: nat, delta: int) {
    && |s'| == |s|
    && (forall k :: lo <= k < hi && 0 <= k - delta < |s'| && k < |s| ==> s'[k - delta] == s[k])
    && (forall k :: hi <= k < |s| && hi - delta <= k ==> s'[k] == s[k])
  }

  /** s' is s with another key, and its size, in the node at off. */
  ghost predicate KeyPut(s: seq<byte>, s': seq<byte>, off: nat, key: seq<byte>) {
    && |s'| == |s| && off + NODESIZE + |key| <= |s| && |key| < 0x10000
    && (forall k :: 0 <= k < |s| && !(off + 6 <= k < off + NODESIZE + |key|) ==> s'[k] == s[k])
    && s'[off + 6] == Word(|key|)[0] && s'[off + 7] == Word(|key|)[1]
    && forall k :: 0 <= k < |key| ==> s'[off + NODESIZE + k] == key[k]
  }

  ghost predicate AllLowered(ptrs: seq<nat>, ptrs': seq<nat>, ptr: nat, delta: int) {
    |ptrs'| == |ptrs| && forall i :: 0 <= i < |ptrs| ==> ptrs'[i] == Lowered(ptrs[i], ptr, delta)
  }

  /** The bytes from lo up to hi, moved down by delta, or up when it is
      negative. */
  method MoveBy(mem: array<byte>, lo: nat, hi: nat, delta: int)
    requires lo <= hi <= mem.Length && delta <= lo && hi - delta <= mem.Length
    modifies mem
    ensures Moved(old(mem[..]), mem[..], lo, hi, delta)
  {
    ghost var before := mem[..];
    MemMove(mem, lo - delta, lo, hi - lo);
    forall k | lo <= k < hi ensures mem[k - delta] == old(mem[k]) {
      var d := k - delta;
      assert lo - delta <= d < lo - delta + (hi - lo);
      assert mem[d] == before[d - (lo - delta) + lo];
    }
  }

  /** The eight bytes of a page number. */
  function PgnoBytes(pgno: nat): (b: seq<byte>)
    ensures |b| == PGNOSIZE
  {
    Word(pgno % 0x10000) + Word(pgno / 0x10000 % 0x10000) + Word(pgno / 0x1_0000_0000 % 0x10000)
        + Word(pgno / 0x1_0000_0000_0000 % 0x10000)
  }

  /** What mdb_node_add is given: a key, the data (or, with F_BIGDATA, the
      number of the overflow page it is on) and its size. */
  ghost predicate InputOk(leaf: bool, key: seq<byte>, data: seq<byte>, dsz: nat, flags: indx) {
    && |key| < 0x10000 && dsz < 0x1_0000_0000
    && (leaf ==> |data| == if flags % 2 == F_BIGDATA then PGNOSIZE else dsz)
  }

  /** Data that would make a leaf node larger than nodemax goes to an overflow
      page. */
  predicate GoesOver(leaf: bool, key: seq<byte>, data: seq<byte>, flags: indx, nodemax: nat) {
    leaf && flags % 2 != F_BIGDATA && NODESIZE + |key| + |data| > nodemax
  }

  /** The node that mdb_node_add writes; on a branch page the header holds the
      page number of the child. */
  function MakeNode(leaf: bool, key: seq<byte>, data: seq<byte>, dsz: nat, pgno: nat, flags: indx, nodemax: nat,
                    ovpgno: nat): Node {
    if !leaf then
      Node(pgno % 0x10000, pgno / 0x10000 % 0x10000, pgno / 0x1_0000_0000 % 0x10000, key, [])
    else if GoesOver(leaf, key, data, flags, nodemax) then
      Node(dsz % 0x10000, dsz / 0x10000 % 0x10000, (flags + F_BIGDATA) % 0x10000, key, PgnoBytes(ovpgno))
    else
      Node(dsz % 0x10000, dsz / 0x10000 % 0x10000, flags, key, data)
  }

  /** A page number's bytes, read back. */
  lemma PgnoRead(mem: seq<byte>, off: nat, pgno: nat)
    requires off + PGNOSIZE <= |mem| && mem[off..off + PGNOSIZE] == PgnoBytes(pgno) && pgno < 0x1_0000_0000_0000_0000
    ensures U64(mem, off) == pgno
  {
    Words(pgno);
    forall k | 0 <= k < PGNOSIZE ensures mem[off + k] == PgnoBytes(pgno)[k] {
      assert mem[off + k] == mem[off..off + PGNOSIZE][k];
    }
  }

  lemma BranchMade(mem: seq<byte>, off: nat, key: seq<byte>, data: seq<byte>, dsz: nat, pgno: nat, flags: indx,
                   nodemax: nat, ovpgno: nat)
    requires InputOk(false, key, data, dsz, flags) && pgno < 0x1_0000_0000_0000
    requires Holds(mem, off, Image(MakeNode(false, key, data, dsz, pgno, flags, nodemax, ovpgno)))
    ensures BranchReads(mem, off, key, pgno)
  {
    hide Image, PgnoBytes, U64;
    var n := MakeNode(false, key, data, dsz, pgno, flags, nodemax, ovpgno);
    HeaderReads(mem, off, n);
    ReadBack(mem, off, n);
    Words(pgno);
  }

  lemma LeafMade(mem: seq<byte>, off: nat, key: seq<byte>, data: seq<byte>, dsz: nat, pgno: nat, flags: indx,
                 nodemax: nat, ovpgno: nat)
    requires InputOk(true, key, data, dsz, flags) && ovpgno < 0x1_0000_0000_0000_0000
    requires Holds(mem, off, Image(MakeNode(true, key, data, dsz, pgno, flags, nodemax, ovpgno)))
    ensures LeafReads(mem, off, key, data, dsz, flags, flags % 2 != F_BIGDATA && NODESIZE + |key| + |data| > nodemax,
                      ovpgno)
  {
    hide Image, PgnoBytes, U64;
    var n := MakeNode(true, key, data, dsz, pgno, flags, nodemax, ovpgno);
    HeaderReads(mem, off, n);
    ReadBack(mem, off, n);
    Words(dsz);
    if GoesOver(true, key, data, flags, nodemax) {
      PgnoRead(mem, off + NODESIZE + |key|, ovpgno);
    }
  }

  /** What mdb_node_add was given is what the page says. */
  lemma MadeReads(leaf: bool, mem: seq<byte>, off: nat, key: seq<byte>, data: seq<byte>, dsz: nat, pgno: nat,
                  flags: indx, nodemax: nat, ovpgno: nat)
    requires InputOk(leaf, key, data, dsz, flags)
    requires Holds(mem, off, Image(MakeNode(leaf, key, data, dsz, pgno, flags, nodemax, ovpgno)))
    ensures !leaf && pgno < 0x1_0000_0000_0000 ==> BranchReads(mem, off, key, pgno)
    ensures leaf && ovpgno < 0x1_0000_0000_0000_0000 ==>
              LeafReads(mem, off, key, data, dsz, flags,
                        flags % 2 != F_BIGDATA && NODESIZE + |key| + |data| > nodemax, ovpgno)
  {
    hide Image, Holds, MakeNode, BranchReads, LeafReads;
    if leaf {
      if ovpgno < 0x1_0000_0000_0000_0000 {
        LeafMade(mem, off, key, data, dsz, pgno, flags, nodemax, ovpgno);
      }
    } else if pgno < 0x1_0000_0000_0000 {
      BranchMade(mem, off, key, data, dsz, pgno, flags, nodemax, ovpgno);
    }
  }

  lemma MadeOk(leaf: bool, key: seq<byte>, data: seq<byte>, dsz: nat, pgno: nat, flags: indx, nodemax: nat, ovpgno: nat)
    requires InputOk(leaf, key, data, dsz, flags)
    ensures NodeOk(leaf, MakeNode(leaf, key, data, dsz, pgno, flags, nodemax, ovpgno))
  {
  }

  class SlottedPage {
    const leaf: bool
    const psize: nat
    const mem: array<byte>
    const ptrs: array<nat>
    var lower: nat
    var upper: nat
    ghost var nodes: seq<Node>

    ghost predicate Valid()
      reads this, mem, ptrs
    {
      && PAGEHDRSZ <= psize <= MAX_PAGESIZE && psize % 2 == 0
      && mem.Length == psize && ptrs.Length == psize - PAGEHDRSZ
      && lower == PAGEHDRSZ + 2 * |nodes| <= upper <= psize
      && psize - upper == Sizes(nodes)
      && Laid(leaf, mem[..], ptrs[..|nodes|], upper, nodes)
    }

    /** An empty page: mdb_page_new. */
    constructor (leaf: bool, psize: nat)
      requires PAGEHDRSZ <= psize <= MAX_PAGESIZE && psize % 2 == 0
      ensures Valid() && nodes == [] && this.leaf == leaf && this.psize == psize && fresh(mem) && fresh(ptrs)
    {
      this.leaf, this.psize := leaf, psize;
      mem := new byte[psize];
      ptrs := new nat[psize - PAGEHDRSZ];
      lower, upper := PAGEHDRSZ, psize;
      nodes := [];
    }

    function NumKeys(): nat
      reads this
      requires lower >= PAGEHDRSZ
    {
      (lower - PAGEHDRSZ) / 2
    }

    function SizeLeft(): int
      reads this
    {
      upper - lower
    }

    /** The free space is what the nodes and their pointers leave. */
    lemma FreeSpace()
      requires Valid()
      ensures SizeLeft() == psize - PAGEHDRSZ - (Sizes(nodes) + 2 * |nodes|) && NumKeys() == |nodes|
    {
    }

    /** The room that a node takes, and whether its data goes to an overflow
        page. */
    method NodeSpace(key: seq<byte>, data: seq<byte>, flags: indx, nodemax: nat) returns (nodeSize: nat, over: bool)
      ensures over == GoesOver(leaf, key, data, flags, nodemax)
      ensures nodeSize == Even(NODESIZE + |key| +
        if !leaf then 0 else if over || flags % 2 == F_BIGDATA then PGNOSIZE else |data|)
    {
      nodeSize, over := NODESIZE + |key|, false;
      if leaf {
        if flags % 2 == F_BIGDATA {
          nodeSize := nodeSize + PGNOSIZE;
        } else if nodeSize + |data| > nodemax {
          nodeSize := nodeSize + PGNOSIZE;
          over := true;
        } else {
          nodeSize := nodeSize + |data|;
        }
      }
      nodeSize := Even(nodeSize);
    }

    /** mdb_node_add. */
    method NodeAdd(indx: nat, key: seq<byte>, data: seq<byte>, dsz: nat, pgno: nat, flags: indx, nodemax: nat,
                   ovpgno: nat) returns (ok: bool)
      requires Valid() && indx <= |nodes| && InputOk(leaf, key, data, dsz, flags)
      modifies this`lower, this`upper, this`nodes, mem, ptrs
      ensures Valid()
      ensures var n := MakeNode(leaf, key, data, dsz, pgno, flags, nodemax, ovpgno);
              && (ok <==> Size(n) + 2 <= old(SizeLeft()))
              && nodes == if ok then Inserted(old(nodes), indx, n) else old(nodes)
      ensures ok && !leaf && pgno < 0x1_0000_0000_0000 ==> BranchReads(mem[..], ptrs[indx], key, pgno)
      ensures ok && leaf && ovpgno < 0x1_0000_0000_0000_0000 ==>
                LeafReads(mem[..], ptrs[indx], key, data, dsz, flags,
                          flags % 2 != F_BIGDATA && NODESIZE + |key| + |data| > nodemax, ovpgno)
      ensures !ok ==> mem[..] == old(mem[..]) && ptrs[..] == old(ptrs[..]) && upper == old(upper) && lower == old(lower)
    {
      hide Laid, Sizes, Image, Holds, BranchReads, LeafReads;
      MadeOk(leaf, key, data, dsz, pgno, flags, nodemax, ovpgno);
      var room := SizeLeft() - 2;
      var nodeSize, over := NodeSpace(key, data, flags, nodemax);
      if nodeSize > room {
        return false;
      }
      var n: Node;
      if leaf {
        n := Node(dsz % 0x10000, dsz / 0x10000 % 0x10000, if over then (flags + F_BIGDATA) % 0x10000 else flags, key,
                  if over then PgnoBytes(ovpgno) else data);
      } else {
        n := Node(pgno % 0x10000, pgno / 0x10000 % 0x10000, pgno / 0x1_0000_0000 % 0x10000, key, []);
      }
      PutNode(indx, n, nodeSize);
      LaidAt(leaf, mem[..], ptrs[..|nodes|], upper, nodes, indx);
      MadeReads(leaf, mem[..], ptrs[indx], key, data, dsz, pgno, flags, nodemax, ovpgno);
      ok := true;
    }

    /** The invariant, in terms of the contents of the two arrays. */
    lemma Whole(bytes: seq<byte>, pointers: seq<nat>)
      requires PAGEHDRSZ <= psize <= MAX_PAGESIZE && psize % 2 == 0
      requires mem.Length == psize && ptrs.Length == psize - PAGEHDRSZ
      requires lower == PAGEHDRSZ + 2 * |nodes| <= upper <= psize && psize - upper == Sizes(nodes)
      requires mem[..] == bytes && |pointers| == |nodes| <= ptrs.Length && ptrs[..|pointers|] == pointers
      requires Laid(leaf, bytes, pointers, upper, nodes)
      ensures Valid()
    {
    }

    /** The part of mdb_node_add from `update` on. */
    method PutNode(indx: nat, n: Node, nodeSize: nat)
      requires Valid() && indx <= |nodes| && NodeOk(leaf, n) && nodeSize == Size(n) && Size(n) + 2 <= SizeLeft()
      modifies this`lower, this`upper, this`nodes, mem, ptrs
      ensures Valid() && nodes == Inserted(old(nodes), indx, n)
    {
      hide Laid, Image, Sizes, Header, Size;
      ghost var mem0, ptrs0, upper0 := mem[..], ptrs[..|nodes|], upper;
      var ofs := upper - nodeSize;
      InsertPtr(indx, ofs);
      ghost var ptrs1 := ptrs[..|nodes| + 1];
      upper := ofs;
      lower := lower + 2;
      ImageFits(n);
      ImageIs(n);
      Write(mem, ofs, Word(n.lo) + Word(n.hi) + Word(n.flags) + Word(|n.key|) + n.key + n.data);
      AddLaid(leaf, mem0, mem[..], ptrs0, upper0, nodes, indx, n, ofs);
      SizesInserted(nodes, indx, n);
      nodes := Inserted(nodes, indx, n);
    }

    /** The loop that moves the higher pointers up one slot. */
    method InsertPtr(indx: nat, ofs: nat)
      requires PAGEHDRSZ <= lower && indx <= NumKeys() < ptrs.Length
      modifies ptrs
      ensures ptrs[..NumKeys() + 1] == Inserted(old(ptrs[..NumKeys()]), indx, ofs)
    {
      var i := NumKeys();
      while i > indx
        invariant indx <= i <= NumKeys()
        invariant forall k :: 0 <= k < i ==> ptrs[k] == old(ptrs[k])
        invariant forall k :: i < k <= NumKeys() ==> ptrs[k] == old(ptrs[..NumKeys()])[k - 1]
      {
        ptrs[i] := ptrs[i - 1];
        i := i - 1;
      }
      ptrs[indx] := ofs;
    }

    /** The size of a node, read from its header: the start of mdb_node_del. */
    method NodeSize(indx: nat) returns (sz: nat)
      requires Valid() && indx < |nodes|
      ensures sz == Size(nodes[indx])
    {
      hide Laid, Sizes, Image;
      LaidAt(leaf, mem[..], ptrs[..|nodes|], upper, nodes, indx);
      ghost var n := nodes[indx];
      var off := ptrs[indx];
      ImageFits(n);
      HeaderWords(n);
      assert ptrs[..|nodes|][indx] == off;
      assert forall k :: 0 <= k < NODESIZE ==> mem[off + k] == mem[..][off + k] == Image(n)[k];
      var lo, hi := ReadWord(mem[off], mem[off + 1]), ReadWord(mem[off + 2], mem[off + 3]);
      var flags, ksize := ReadWord(mem[off + 4], mem[off + 5]), ReadWord(mem[off + 6], mem[off + 7]);
      sz := NODESIZE + ksize;
      if leaf {
        if flags % 2 == F_BIGDATA {
          sz := sz + PGNOSIZE;
        } else {
          sz := sz + (lo + 0x10000 * hi);
        }
      }
      sz := Even(sz);
    }

    /** mdb_node_del. */
    method NodeDel(indx: nat)
      requires Valid() && indx < |nodes|
      modifies this`lower, this`upper, this`nodes, mem, ptrs
      ensures Valid() && nodes == Without(old(nodes), indx)
    {
      hide Laid, Sizes, Size, Image, Moved, LiftedAll, Without;
      var sz := NodeSize(indx);
      ghost var mem0, ptrs0, upper0, n := mem[..], ptrs[..|nodes|], upper, |nodes|;
      LaidAt(leaf, mem0, ptrs0, upper0, nodes, indx);
      var ptr := ptrs[indx];
      assert ptrs0[indx] == ptr && NumKeys() == n;
      CloseGap(indx, ptr, sz);
      ghost var mem1, ptrs1 := mem[..], ptrs[..n - 1];
      assert ptrs1 == LiftedAll(Without(ptrs0, indx), ptr, sz);
      GapClosed(leaf, mem0, mem1, ptrs0, ptrs1, upper0, nodes, indx, sz);
      lower := lower - 2;
      upper := upper + sz;
      nodes := Without(nodes, indx);
      Whole(mem1, ptrs1);
    }

    method CloseGap(indx: nat, ptr: nat, sz: nat)
      requires PAGEHDRSZ <= lower && indx < NumKeys() <= ptrs.Length && upper <= ptr && ptr + sz <= mem.Length
      modifies mem, ptrs
      ensures ptrs[..NumKeys() - 1] == LiftedAll(Without(old(ptrs[..NumKeys()]), indx), ptr, sz)
      ensures Moved(old(mem[..]), mem[..], upper, ptr, 0 - sz as int)
    {
      hide Moved, LiftedAll;
      Separate();
      ClosePtrs(indx, ptr, sz);
      ghost var ptrs1 := ptrs[..NumKeys() - 1];
      MoveBy(mem, upper, ptr, 0 - sz as int);
      assert ptrs[..NumKeys() - 1] == ptrs1;
    }

    /** The loop that closes the gap among the pointers and adjusts those of
        the nodes that move. */
    method ClosePtrs(indx: nat, ptr: nat, sz: nat)
      requires PAGEHDRSZ <= lower && indx < NumKeys() <= ptrs.Length
      modifies ptrs
      ensures ptrs[..NumKeys() - 1] == LiftedAll(Without(old(ptrs[..NumKeys()]), indx), ptr, sz)
    {
      var i, j := 0, 0;
      while i < NumKeys()
        invariant 0 <= i <= NumKeys() && j == if i <= indx then i else i - 1
        invariant forall k :: i <= k < NumKeys() ==> ptrs[k] == old(ptrs[k])
        invariant forall k :: 0 <= k < j ==>
                    ptrs[k] == Lifted(old(ptrs[..NumKeys()])[if k < indx then k else k + 1], ptr, sz)
      {
        if i != indx {
          var p := ptrs[i];
          ptrs[j] := p;
          if p < ptr {
            ptrs[j] := ptrs[j] + sz;
          }
          j := j + 1;
        }
        i := i + 1;
      }
    }

    /** mdb_update_key on a branch page, when no split is needed: it answers
        false where the source goes on to delete and split. */
    method UpdateKey(indx: nat, key: seq<byte>) returns (ok: bool)
      requires Valid() && !leaf && indx < |nodes| && |key| < 0x10000
      modifies this`upper, this`nodes, mem, ptrs
      ensures Valid()
      ensures ok <==> Even(|key|) - Even(|old(nodes)[indx].key|) <= old(SizeLeft())
      ensures nodes == if ok then old(nodes)[indx := old(nodes)[indx].(key := key)] else old(nodes)
    {
      hide Laid, Sizes, Size, Image;
      var oksize := KeySize(indx);
      var delta := Even(|key|) - Even(oksize);
      if delta > 0 && SizeLeft() < delta {
        return false;
      }
      SetKey(indx, key, delta);
      ok := true;
    }

    method SetKey(indx: nat, key: seq<byte>, delta: int)
      requires Valid() && !leaf && indx < |nodes| && |key| < 0x10000
      requires delta == Even(|key|) - Even(|nodes[indx].key|) && delta <= SizeLeft()
      modifies this`upper, this`nodes, mem, ptrs
      ensures Valid() && nodes == old(nodes)[indx := old(nodes)[indx].(key := key)]
    {
      hide Laid, Sizes, Size, Image, Even, Moved, KeyPut, AllLowered;
      ghost var mem0, ptrs0, upper0, nodes0, n := mem[..], ptrs[..|nodes|], upper, nodes, |nodes|;
      BranchSize(mem0, ptrs0, upper, nodes, indx, key);
      var off := ptrs[indx];
      assert ptrs0[indx] == off && NumKeys() == n && forall i :: 0 <= i < n ==> ptrs[i] == ptrs0[i];
      ghost var mem1 := MoveAndWrite(off, key, delta);
      ghost var mem2, ptrs1 := mem[..], ptrs[..n];
      KeySet(mem0, mem1, mem2, ptrs0, ptrs1, upper0, nodes0, indx, key, delta);
      upper := upper - delta;
      nodes := nodes[indx := nodes[indx].(key := key)];
      Whole(mem2, ptrs1);
    }

    method MoveAndWrite(off: nat, key: seq<byte>, delta: int) returns (ghost mem1: seq<byte>)
      requires PAGEHDRSZ <= lower && NumKeys() <= ptrs.Length && upper <= off && delta <= upper
      requires off + NODESIZE <= mem.Length && off + NODESIZE - delta <= mem.Length
      requires |key| < 0x10000 && off - delta + NODESIZE + |key| <= mem.Length
      requires forall i :: 0 <= i < NumKeys() ==> ptrs[i] >= upper
      modifies mem, ptrs
      ensures AllLowered(old(ptrs[..NumKeys()]), ptrs[..NumKeys()], off, delta)
      ensures Moved(old(mem[..]), mem1, upper, off + NODESIZE, delta) && KeyPut(mem1, mem[..], off - delta, key)
    {
      hide Moved, KeyPut, AllLowered;
      Separate();
      MoveNodes(off, delta);
      mem1 := mem[..];
      ghost var ptrs1 := ptrs[..NumKeys()];
      WriteKey(off - delta, key);
      assert ptrs[..NumKeys()] == ptrs1;
    }

    lemma Separate()
      ensures mem as object != ptrs
    {
    }

    /** Shifts the node contents when the even size of the key changes. */
    method MoveNodes(off: nat, delta: int)
      requires PAGEHDRSZ <= lower && NumKeys() <= ptrs.Length && upper <= off && delta <= upper
      requires off + NODESIZE <= mem.Length && off + NODESIZE - delta <= mem.Length
      requires forall i :: 0 <= i < NumKeys() ==> ptrs[i] >= upper
      modifies mem, ptrs
      ensures AllLowered(old(ptrs[..NumKeys()]), ptrs[..NumKeys()], off, delta)
      ensures Moved(old(mem[..]), mem[..], upper, off + NODESIZE, delta)
    {
      if delta != 0 {
        ShiftPtrs(off, delta);
        MoveBy(mem, upper, off + NODESIZE, delta);
      }
    }

    /** The new key size and the new key, into the node at an offset. */
    method WriteKey(off: nat, key: seq<byte>)
      requires |key| < 0x10000 && off + NODESIZE + |key| <= mem.Length
      modifies mem
      ensures KeyPut(old(mem[..]), mem[..], off, key)
    {
      Write(mem, off + 6, Word(|key|));
      assert mem[off + 6 + 0] == Word(|key|)[0] && mem[off + 6 + 1] == Word(|key|)[1];
      Write(mem, off + NODESIZE, key);
    }

    /** The key size in a node's header. */
    method KeySize(indx: nat) returns (ksize: nat)
      requires Valid() && indx < |nodes|
      ensures ksize == |nodes[indx].key|
    {
      hide Laid, Sizes, Image;
      LaidAt(leaf, mem[..], ptrs[..|nodes|], upper, nodes, indx);
      ghost var n := nodes[indx];
      var off := ptrs[indx];
      ImageFits(n);
      HeaderWords(n);
      assert forall k :: 0 <= k < NODESIZE ==> mem[off + k] == mem[..][off + k] == Image(n)[k];
      ksize := ReadWord(mem[off + 6], mem[off + 7]);
    }

    /** The loop that adjusts the pointers up to ptr. */
    method ShiftPtrs(ptr: nat, delta: int)
      requires PAGEHDRSZ <= lower && NumKeys() <= ptrs.Length
      requires forall i :: 0 <= i < NumKeys() ==> ptrs[i] >= delta
      modifies ptrs
      ensures forall i :: 0 <= i < NumKeys() ==> ptrs[i] == Lowered(old(ptrs[i]), ptr, delta)
    {
      var i := 0;
      while i < NumKeys()
        invariant 0 <= i <= NumKeys()
        invariant forall k :: 0 <= k < i ==> ptrs[k] == Lowered(old(ptrs[k]), ptr, delta)
        invariant forall k :: i <= k < NumKeys() ==> ptrs[k] == old(ptrs[k])
      {
        if ptrs[i] <= ptr {
          ptrs[i] := ptrs[i] - delta;
        }
        i := i + 1;
      }
    }
  }

  /** What the invariant says about a branch node and its new key. */
  lemma BranchSize(mem: seq<byte>, ptrs: seq<nat>, upper: nat, nodes: seq<Node>, indx: nat, key: seq<byte>)
    requires Laid(false, mem, ptrs, upper, nodes) && indx < |nodes| && |key| < 0x10000
    ensures |ptrs| == |nodes| && |nodes[indx].key| < 0x10000 && nodes[indx].data == []
    ensures upper <= ptrs[indx] && ptrs[indx] + Size(nodes[indx]) <= |mem|
    ensures Size(nodes[indx]) == NODESIZE + Even(|nodes[indx].key|) && Holds(mem, ptrs[indx], Image(nodes[indx]))
    ensures forall i :: 0 <= i < |nodes| ==> upper <= ptrs[i]
    ensures Size(nodes[indx].(key := key)) == NODESIZE + Even(|key|)
  {
    LaidAt(false, mem, ptrs, upper, nodes, indx);
  }

  /** The moved header with the new size in it, and the new key after it. */
  lemma KeyWritten(mem0: seq<byte>, mem1: seq<byte>, mem2: seq<byte>, off: nat, delta: int, n: Node, key: seq<byte>)
    requires |n.key| < 0x10000 && |key| < 0x10000 && n.data == [] && |mem1| == |mem2| == |mem0|
    requires Holds(mem0, off, Image(n)) && 0 <= off - delta && off - delta + NODESIZE + |key| <= |mem0|
    requires off + |Image(n)| <= |mem0|
    requires forall k :: off <= k < off + NODESIZE ==> mem1[k - delta] == mem0[k]
    requires KeyPut(mem1, mem2, off - delta, key)
    ensures Holds(mem2, off - delta, Image(n.(key := key)))
  {
    var im, im0 := Image(n.(key := key)), Image(n);
    forall k | 0 <= k < |im| ensures mem2[off - delta + k] == im[k] {
      if k < 6 {
        assert mem1[(off + k) - delta] == mem0[off + k] == im0[k] == im[k];
      } else if k >= NODESIZE {
        assert mem2[off - delta + NODESIZE + (k - NODESIZE)] == key[k - NODESIZE];
      }
    }
  }

  /** The node is gone, and those below it have moved up. */
  lemma GapClosed(leaf: bool, mem: seq<byte>, mem': seq<byte>, ptrs: seq<nat>, ptrs': seq<nat>, upper: nat,
                  nodes: seq<Node>, indx: nat, sz: nat)
    requires Laid(leaf, mem, ptrs, upper, nodes) && indx < |nodes| && indx < |ptrs| && sz == Size(nodes[indx])
    requires Moved(mem, mem', upper, ptrs[indx], 0 - sz as int)
             && ptrs' == LiftedAll(Without(ptrs, indx), ptrs[indx], sz)
    ensures var nodes' := Without(nodes, indx);
            && |ptrs'| == |nodes'| == |nodes| - 1
            && Laid(leaf, mem', ptrs', upper + sz, nodes') && Sizes(nodes) == Sizes(nodes') + sz
  {
    hide Laid, Image, Size, Sizes;
    LaidAt(leaf, mem, ptrs, upper, nodes, indx);
    SizesWithout(nodes, indx);
    var ptr := ptrs[indx];
    forall k | upper <= k < ptr && k + sz < |mem'| ensures mem'[k + sz] == mem[k] {
      assert mem'[k - (0 - sz as int)] == mem[k];
    }
    DelLaid(leaf, mem, mem', ptrs, upper, nodes, indx);
  }

  /** The nodes have moved, and the new key is in its place. */
  lemma KeySet(mem0: seq<byte>, mem1: seq<byte>, mem2: seq<byte>, ptrs: seq<nat>, ptrs': seq<nat>, upper: nat,
               nodes: seq<Node>, indx: nat, key: seq<byte>, delta: int)
    requires Laid(false, mem0, ptrs, upper, nodes) && indx < |nodes| && indx < |ptrs| && |key| < 0x10000
    requires delta == Even(|key|) - Even(|nodes[indx].key|) && delta <= upper && 0 <= ptrs[indx] - delta
    requires AllLowered(ptrs, ptrs', ptrs[indx], delta) && Moved(mem0, mem1, upper, ptrs[indx] + NODESIZE, delta)
    requires KeyPut(mem1, mem2, ptrs[indx] - delta, key)
    ensures var nodes' := nodes[indx := nodes[indx].(key := key)];
            Laid(false, mem2, ptrs', upper - delta, nodes') && Sizes(nodes') == Sizes(nodes) + delta
  {
    hide Laid, Image, Size, Sizes, Even;
    BranchSize(mem0, ptrs, upper, nodes, indx, key);
    var off, n := ptrs[indx], nodes[indx];
    ImageFits(n);
    KeyWritten(mem0, mem1, mem2, off, delta, n, key);
    forall k | upper <= k < off && 0 <= k - delta < |mem2| ensures mem2[k - delta] == mem0[k] {
      assert mem1[k - delta] == mem0[k];
    }
    EvenAbove(|key|);
    EvenAbove(|n.key|);
    KeyLaid(mem0, mem2, ptrs, upper, nodes, indx, key, ptrs', delta);
    SizesReplaced(nodes, indx, n.(key := key));
  }

  lemma EvenAbove(n: nat)
    ensures n <= Even(n) <= n + 1
  {
  }

  lemma SizesReplaced(nodes: seq<Node>, i: nat, n: Node)
    requires i < |nodes|
    ensures Sizes(nodes[i := n]) == Sizes(nodes) - Size(nodes[i]) + Size(n)
  {
    hide Sizes, Size;
    SizesWithout(nodes, i);
    SizesWithout(nodes[i := n], i);
    assert Without(nodes[i := n], i) == Without(nodes, i);
  }

  lemma ImageIs(n: Node)
    requires |n.key| < 0x10000
    ensures Image(n) == Word(n.lo) + Word(n.hi) + Word(n.flags) + Word(|n.key|) + n.key + n.data
  {
  }
}
