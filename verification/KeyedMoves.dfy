/**
 What node moves and merges do to the keys of branch nodes.

 Seen from row l, only the items below each page matter: `Low` is the first item
 under a page, and `LeafCuts` has it for all pages of a row.  A node that comes
 to the front of a branch page loses its key and one that leaves the front needs
 the lowest key below it.

 `MovedKeys` and `FusedKeys` say that the keys are right again once those two
 have been seen to, with the separator in the parent still to be written after a
 move; `LeafMoved`, `BranchMoved`, `LeafFused` and `BranchFused` are their cases.
 */
module KeyedMoves {
  import opened Sequences
  import opened Levels
  import opened Separators

  /** The first item under page i of row l. */
  ghost function Low(pages: Pages, lv: seq<seq<int>>, l: nat, i: nat): nat
    requires l < |lv|
    decreases |lv| - l
  {
    if l == |lv| - 1 || i > |lv[l]| then i else Low(pages, lv, l + 1, Start(pages, lv[l], i))
  }

  /** The leaves begin at their first items. */
  ghost function LeafCuts(pages: Pages, lv: seq<seq<int>>, l: nat): seq<nat>
    requires l + 1 < |lv|
  {
    CutsAt(pages, lv, |lv| - 2, Starts(pages, lv[|lv| - 2]), l)
  }

  /** Every page from row l on has nodes. */
  ghost predicate NoneEmpty(pages: Pages, lv: seq<seq<int>>, l: nat) {
    forall m, i :: l <= m < |lv| - 1 && 0 <= i < |lv[m]| ==> Nodes(pages, lv[m][i]) != []
  }

  lemma {:induction false} LowIsCut(pages: Pages, root: Id, lv: seq<seq<int>>, l: nat, i: nat)
    requires Rows(pages, root, lv) && l < |lv| - 1 && i < |lv[l]| && Nodes(pages, lv[l][i]) != []
             && NoneEmpty(pages, lv, l + 1)
    ensures Cut(LeafCuts(pages, lv, l), i) == Low(pages, lv, l, i) < |lv[|lv| - 1]|
    decreases |lv| - l
  {
    hide Joined, Nodes, CutsAt, Rows;
    RowBelow(pages, root, lv, l);
    NodeAt(pages, lv[l], i, 0);
    var D := |lv| - 2;
    CutsAtSelf(pages, lv, D, Starts(pages, lv[D]));
    if l < D {
      LowIsCut(pages, root, lv, l + 1, Start(pages, lv[l], i));
      CutsAtUp(pages, lv, D, Starts(pages, lv[D]), l);
    }
  }

  lemma NoneEmptyAt(pages: Pages, lv: seq<seq<int>>, l: nat, i: nat)
    requires NoneEmpty(pages, lv, l) && l < |lv| - 1 && i < |lv[l]|
    ensures Nodes(pages, lv[l][i]) != [] && NoneEmpty(pages, lv, l + 1)
  {
  }

  lemma CutsAtSelf(pages: Pages, lv: seq<seq<int>>, m: nat, cuts: seq<nat>)
    requires m < |lv|
    ensures CutsAt(pages, lv, m, cuts, m) == cuts
  {
  }

  lemma SortedParts(ks: seq<int>, s: nat)
    requires Sorted(ks) && s < |ks|
    ensures Parts(ks, s, ks[s])
  {
  }

  /** The keys in row l and above are right. */
  lemma RowRight(pages: Pages, lv: seq<seq<int>>, keys: Keys, ks: seq<int>, l: nat)
    requires Keyed(pages, lv, keys, ks) && l + 2 < |lv|
    ensures RowKeyed(pages, lv[l], LeafCuts(pages, lv, l + 1), keys, ks)
            && KeyedTo(pages, lv, l, CutsUp(pages, lv[l], LeafCuts(pages, lv, l + 1)), keys, ks)
    ensures |LeafCuts(pages, lv, l + 1)| == |lv[l + 1]|
  {
    hide Joined, Nodes, RowKeyed, CutsUp, CutsAt, Sorted;
    KeyedUpper(pages, lv, |lv| - 2, Starts(pages, lv[|lv| - 2]), keys, ks, l + 1);
    CutsAtSize(pages, lv, |lv| - 2, Starts(pages, lv[|lv| - 2]), l + 1);
  }

  /** The other way round, for a tree that is the same from row l on. */
  lemma RightFrom(pages: Pages, root: Id, lv: seq<seq<int>>, keys: Keys, ks: seq<int>, l: nat, pages': Pages,
                  lv': seq<seq<int>>, l': nat, keys': Keys)
    requires Rows(pages, root, lv) && Keyed(pages, lv, keys, ks) && l < |lv| - 1 && |lv'| == |lv| - l + l'
             && lv'[l'..] == lv[l..]
    requires (forall i :: l <= i < |lv| - 1 ==> SameOn(pages, pages', lv[i]))
             && forall i :: l < i < |lv| - 1 ==> SameKeys(keys, keys', lv[i])
    requires KeyedTo(pages', lv', l', LeafCuts(pages, lv, l), keys', ks)
    ensures Keyed(pages', lv', keys', ks)
  {
    hide Joined, Nodes, RowKeyed, CutsAt, Sorted, KeyedTo, SameOn, SameKeys, Rows, KeyOf;
    var D := |lv| - 2;
    var D' := |lv'| - 2;
    assert lv'[l'..l' + D - l] == lv'[l'..][..D - l] && lv[l..D] == lv[l..][..D - l];
    assert lv'[D'] == lv'[l'..][D - l] == lv[l..][D - l] == lv[D];
    assert lv'[D' + 1] == lv'[l'..][D + 1 - l] == lv[l..][D + 1 - l] == lv[D + 1];
    assert LowerSame(pages, lv, pages', lv', l, l', D, keys, keys');
    KeyedLower(pages, root, lv, pages', lv', l, l', D, Starts(pages, lv[D]), keys, keys', ks);
    UpSame(pages, pages', lv[D], []);
  }

  // ------------------------------------------------------------ mdb_node_move

  /** Nodes have moved between page j of row L, node kp of its parent, and its
      right neighbour, and the keys keys' are right for where they are now. */
  ghost predicate Rekeyed(pages: Pages, root: Id, lv: seq<seq<int>>, L: nat, t: nat, kp: nat, j: nat, pages': Pages) {
    && Rows(pages, root, lv) && Distinct(lv) && Siblings(pages, lv, L, t, kp, j)
    && Only(pages, pages', {lv[L][j], lv[L][j + 1]})
    && Nodes(pages', lv[L][j]) + Nodes(pages', lv[L][j + 1]) == Nodes(pages, lv[L][j]) + Nodes(pages, lv[L][j + 1])
  }

  lemma RekeyedRows(pages: Pages, root: Id, lv: seq<seq<int>>, L: nat, t: nat, kp: nat, j: nat, pages': Pages)
    requires Rekeyed(pages, root, lv, L, t, kp, j, pages')
    ensures Rows(pages', root, lv) && Shifted(pages, pages', lv[L], j)
    ensures forall l :: 0 <= l < |lv| - 1 && l != L ==> SameOn(pages, pages', lv[l])
  {
    RowsShift(pages, pages', root, lv, L, j);
  }

  /** Between leaves: the page on the right gets the key of its first item. */
  lemma LeafMoved(pages: Pages, root: Id, lv: seq<seq<int>>, t: nat, kp: nat, j: nat, pages': Pages, keys: Keys,
                  sep: int, key: int -> int)
    requires |lv| >= 2 && Rekeyed(pages, root, lv, |lv| - 2, t, kp, j, pages') && RightKeys(pages, lv, keys, key)
    requires var b := lv[|lv| - 2][j + 1]; Nodes(pages', b) != [] && sep == key(Nodes(pages', b)[0])
    ensures RightKeys(pages', lv, keys[lv[|lv| - 2][j + 1] := sep], key)
  {
    hide Joined, Nodes, Distinct, KeyedTo, SameOn, KeyOf, Parts, Shifted, Rows;
    var D := |lv| - 2;
    var ks, row, b := ItemKeys(key, lv[D + 1]), lv[D], lv[D][j + 1];
    RekeyedRows(pages, root, lv, D, t, kp, j, pages');
    var keys', c := keys[b := sep], Start(pages, row, j) + |Nodes(pages', row[j])|;
    StartShift(pages, pages', row, j, j + 1);
    NodeAt(pages', row, j + 1, 0);
    RowBelow(pages', root, lv, D);
    SortedParts(ks, c);
    NewKeyOf(keys, b, sep);
    KeyedRecut(pages, root, lv, D, t, kp + 1, Starts(pages, row), c, keys, keys', ks);
    forall i | 0 <= i < |row| ensures Start(pages', row, i) == Starts(pages, row)[j + 1 := c][i] {
      StartShift(pages, pages', row, j, i);
    }
    assert Starts(pages', row) == Starts(pages, row)[j + 1 := c];
    forall l | 1 <= l <= D ensures SameKeys(keys', keys', lv[l]) {
    }
    KeyedSame(pages, root, lv, pages', lv, D, Starts(pages', row), keys', keys', ks);
  }

  lemma NewKeyOf(keys: Keys, id: Id, k: int)
    ensures KeyOf(keys[id := k], id) == k && KeysBut(keys, keys[id := k], id)
  {
  }

  /** Between branch pages: the node that was the first on the right needs the
      lowest key below it, and the page on the right gets the key of its first node. */
  lemma BranchMoved(pages: Pages, root: Id, lv: seq<seq<int>>, L: nat, t: nat, kp: nat, j: nat, pages': Pages,
                    keys: Keys, y: Id, low: int, sep: int, key: int -> int)
    requires L + 2 < |lv| && Rekeyed(pages, root, lv, L, t, kp, j, pages') && RightKeys(pages, lv, keys, key)
             && NoneEmpty(pages, lv, L + 1)
    requires var a, b := lv[L][j], lv[L][j + 1];
             && Nodes(pages, a) != [] && Nodes(pages, b) != [] && Nodes(pages', a) != [] && Nodes(pages', b) != []
             && |Nodes(pages', a)| != |Nodes(pages, a)| && y == Nodes(pages, b)[0]
             && Low(pages, lv, L + 1, Start(pages, lv[L], j + 1)) < |lv[|lv| - 1]|
             && low == key(lv[|lv| - 1][Low(pages, lv, L + 1, Start(pages, lv[L], j + 1))])
             && y != Nodes(pages', b)[0] && sep == KeyOf(keys, Nodes(pages', b)[0])
    ensures RightKeys(pages', lv, keys[y := low][lv[L][j + 1] := sep], key)
  {
    hide Joined, Nodes, Distinct, KeyedTo, SameOn, KeyOf, Parts, Shifted, Rows, RowKeyed, CutsUp, Low, NoneEmpty,
         LeafCuts;
    var row, b := lv[L], lv[L][j + 1];
    var ks := ItemKeys(key, lv[|lv| - 1]);
    var cuts := LeafCuts(pages, lv, L + 1);
    var up, c := CutsUp(pages, row, cuts), Cut(cuts, Start(pages, row, j) + |Nodes(pages', row[j])|);
    RekeyedRows(pages, root, lv, L, t, kp, j, pages');
    RowRight(pages, lv, keys, ks, L);
    var keys2 := keys[y := low][b := sep];
    RowBelow(pages, root, lv, L);
    NodeAt(pages, row, j + 1, 0);
    var g := Start(pages, row, j + 1);
    BothKeys(lv, L, j, g, keys, low, sep);
    SameToItself(pages, lv);
    KeyedSame(pages, root, lv, pages, lv, L, up, keys, keys[y := low], ks);
    ParentHas(pages, lv, keys, ks, row, j, pages', cuts);
    NewKeyOf(keys[y := low], b, sep);
    KeyedRecut(pages, root, lv, L, t, kp + 1, up, c, keys[y := low], keys2, ks);
    KeyedSame(pages, root, lv, pages', lv, L, up[j + 1 := c], keys2, keys2, ks);
    NoneEmptyAt(pages, lv, L + 1, g);
    LowIsCut(pages, root, lv, L + 1, g);
    SortedParts(ks, Low(pages, lv, L + 1, g));
    OldKeys(pages, root, lv, L, j, keys, keys2);
    RowShift(pages, pages', row, j, cuts, keys, keys2, ks);
    JoinKeyed(pages', lv, L, cuts, keys2, ks);
    RightFrom(pages, root, lv, keys, ks, L + 1, pages', lv, L + 1, keys2);
  }

  lemma JoinKeyed(pages: Pages, lv: seq<seq<int>>, L: nat, cuts: seq<nat>, keys: Keys, ks: seq<int>)
    requires L + 1 < |lv| && RowKeyed(pages, lv[L], cuts, keys, ks)
             && KeyedTo(pages, lv, L, CutsUp(pages, lv[L], cuts), keys, ks)
    ensures KeyedTo(pages, lv, L + 1, cuts, keys, ks)
  {
  }

  ghost predicate RowKeysBut(keys: Keys, keys': Keys, row: seq<Id>, g: nat) {
    forall i :: 0 <= i < |row| && i != g ==> KeyOf(keys', row[i]) == KeyOf(keys, row[i])
  }

  /** Two new keys, for the page g of row L + 1 and for page j + 1 of row L. */
  lemma BothKeys(lv: seq<seq<int>>, L: nat, j: nat, g: nat, keys: Keys, low: int, sep: int)
    requires Distinct(lv) && L + 2 < |lv| && j + 1 < |lv[L]| && g < |lv[L + 1]|
    ensures var y, b := lv[L + 1][g], lv[L][j + 1];
            var keys1, keys2 := keys[y := low], keys[y := low][b := sep];
            && y != b && KeyOf(keys2, y) == low
            && (forall l :: 0 <= l <= L ==> SameKeys(keys, keys1, lv[l]))
            && (forall l :: L + 1 < l < |lv| - 1 ==> SameKeys(keys, keys2, lv[l]))
            && (forall l :: 0 <= l <= L ==> SameKeys(keys2, keys2, lv[l]))
            && RowKeysBut(keys, keys2, lv[L + 1], g)
  {
    hide Distinct;
    Places(lv, L + 1, g, L, j + 1);
    forall l, i | 0 <= l < |lv| - 1 && 0 <= i < |lv[l]| && !(l == L + 1 && i == g) ensures lv[l][i] != lv[L + 1][g] {
      Places(lv, l, i, L + 1, g);
    }
    forall l, i | 0 <= l < |lv| - 1 && 0 <= i < |lv[l]| && !(l == L && i == j + 1) ensures lv[l][i] != lv[L][j + 1] {
      Places(lv, l, i, L, j + 1);
    }
  }

  /** The nodes that had a key in row L keep it. */
  lemma OldKeys(pages: Pages, root: Id, lv: seq<seq<int>>, L: nat, j: nat, keys: Keys, keys': Keys)
    requires Rows(pages, root, lv) && L + 2 < |lv| && j + 1 < |lv[L]| && Nodes(pages, lv[L][j + 1]) != []
    requires RowKeysBut(keys, keys', lv[L + 1], Start(pages, lv[L], j + 1))
    ensures forall t, k :: 0 <= t < |lv[L]| && 1 <= k < |Nodes(pages, lv[L][t])| ==>
              KeyOf(keys', Nodes(pages, lv[L][t])[k]) == KeyOf(keys, Nodes(pages, lv[L][t])[k])
  {
    hide Joined, Nodes, KeyOf, Rows;
    RowBelow(pages, root, lv, L);
    var row := lv[L];
    forall t, k | 0 <= t < |row| && 1 <= k < |Nodes(pages, row[t])|
      ensures KeyOf(keys', Nodes(pages, row[t])[k]) == KeyOf(keys, Nodes(pages, row[t])[k])
    {
      NodeAt(pages, row, t, k);
      NotFirst(pages, row, t, k, j + 1);
    }
  }

  /** The node that is the first on the right now had the key that goes up. */
  lemma ParentHas(pages: Pages, lv: seq<seq<int>>, keys: Keys, ks: seq<int>, row: seq<Id>, j: nat, pages': Pages,
                  cuts: seq<nat>)
    requires Shifted(pages, pages', row, j) && RowKeyed(pages, row, cuts, keys, ks)
    requires Nodes(pages', row[j]) != [] && Nodes(pages', row[j + 1]) != []
             && |Nodes(pages', row[j])| != |Nodes(pages, row[j])|
    ensures Parts(ks, Cut(cuts, Start(pages, row, j) + |Nodes(pages', row[j])|),
                  KeyOf(keys, Nodes(pages', row[j + 1])[0]))
  {
    hide Joined, Nodes, KeyOf, Parts, SameOn;
    JoinedAt(pages, row, j);
    var A, B, A', B' := Nodes(pages, row[j]), Nodes(pages, row[j + 1]), Nodes(pages', row[j]),
        Nodes(pages', row[j + 1]);
    assert (A' + B')[|A'|] == (A + B)[|A'|] == B'[0];
    if |A'| < |A| {
      assert Parts(ks, Cut(cuts, Start(pages, row, j) + |A'|), KeyOf(keys, A[|A'|]));
    } else {
      assert Parts(ks, Cut(cuts, Start(pages, row, j + 1) + (|A'| - |A|)), KeyOf(keys, B[|A'| - |A|]));
    }
  }

  // ------------------------------------------------------------ mdb_page_merge

  /** Page j + 1 of row L has gone into page j. */
  ghost predicate Fused(pages: Pages, root: Id, lv: seq<seq<int>>, L: nat, t: nat, kp: nat, j: nat, pages': Pages,
                        root': Id, lv': seq<seq<int>>) {
    && Rows(pages, root, lv) && Distinct(lv) && Siblings(pages, lv, L, t, kp, j)
    && lv' == lv[L := Without(lv[L], j + 1)] && Rows(pages', root', lv') && Absorbed(pages, pages', lv[L], j)
    && SameOn(pages, pages', lv[L - 1][..t]) && SameOn(pages, pages', lv[L - 1][t + 1..])
    && Nodes(pages', lv[L - 1][t]) == Without(Nodes(pages, lv[L - 1][t]), kp + 1)
    && forall l :: 0 <= l < |lv| - 1 && l != L && l != L - 1 ==> SameOn(pages, pages', lv[l])
  }

  lemma LeafFused(pages: Pages, root: Id, lv: seq<seq<int>>, t: nat, kp: nat, j: nat, pages': Pages, root': Id,
                  lv': seq<seq<int>>, keys: Keys, key: int -> int)
    requires |lv| >= 2 && Fused(pages, root, lv, |lv| - 2, t, kp, j, pages', root', lv')
             && RightKeys(pages, lv, keys, key)
    ensures RightKeys(pages', lv', keys, key)
  {
    hide Joined, Nodes, Distinct, KeyedTo, SameOn, KeyOf, Parts, Absorbed, Rows, Sorted;
    var D := |lv| - 2;
    var row, ks := lv[D], ItemKeys(key, lv[D + 1]);
    KeyedUnlink(pages, root, lv, D, t, kp + 1, Starts(pages, row), keys, ks, pages', lv');
    var row' := Without(row, j + 1);
    forall i | 0 <= i < |row'| ensures Start(pages', row', i) == Without(Starts(pages, row), j + 1)[i] {
      StartAbsorb(pages, pages', row, j, i);
    }
    assert Starts(pages', row') == Without(Starts(pages, row), j + 1);
    assert lv'[D + 1] == lv[D + 1];
  }

  /** The first node of a branch page that is merged needs the lowest key below it. */
  lemma BranchFused(pages: Pages, root: Id, lv: seq<seq<int>>, L: nat, t: nat, kp: nat, j: nat, pages': Pages,
                    root': Id, lv': seq<seq<int>>, keys: Keys, y: Id, low: int, key: int -> int)
    requires L + 2 < |lv| && Fused(pages, root, lv, L, t, kp, j, pages', root', lv') && RightKeys(pages, lv, keys, key)
             && NoneEmpty(pages, lv, L + 1)
    requires Nodes(pages, lv[L][j + 1]) != [] && y == Nodes(pages, lv[L][j + 1])[0]
    requires Low(pages, lv, L + 1, Start(pages, lv[L], j + 1)) < |lv[|lv| - 1]|
             && low == key(lv[|lv| - 1][Low(pages, lv, L + 1, Start(pages, lv[L], j + 1))])
    ensures RightKeys(pages', lv', keys[y := low], key)
  {
    hide Joined, Nodes, Distinct, KeyedTo, SameOn, KeyOf, Parts, Absorbed, Rows, RowKeyed, CutsUp, Low, NoneEmpty,
         LeafCuts, Sorted, Without;
    var row := lv[L];
    var ks := ItemKeys(key, lv[|lv| - 1]);
    var cuts := LeafCuts(pages, lv, L + 1);
    var up, g, keys' := CutsUp(pages, row, cuts), Start(pages, row, j + 1), keys[y := low];
    RowRight(pages, lv, keys, ks, L);
    RowBelow(pages, root, lv, L);
    NodeAt(pages, row, j + 1, 0);
    OneKey(lv, L, g, keys, low);
    SameToItself(pages, lv);
    KeyedSame(pages, root, lv, pages, lv, L, up, keys, keys', ks);
    KeyedUnlink(pages, root, lv, L, t, kp + 1, up, keys', ks, pages', lv');
    NoneEmptyAt(pages, lv, L + 1, g);
    LowIsCut(pages, root, lv, L + 1, g);
    ItemSorted(pages, lv, keys, ks);
    SortedParts(ks, Low(pages, lv, L + 1, g));
    OldKeys(pages, root, lv, L, j, keys, keys');
    RowMerge(pages, pages', row, j, cuts, keys, keys', ks);
    JoinKeyed(pages', lv', L, cuts, keys', ks);
    assert lv'[L + 1..] == lv[L + 1..];
    RightFrom(pages, root, lv, keys, ks, L + 1, pages', lv', L + 1, keys');
  }

  lemma ItemSorted(pages: Pages, lv: seq<seq<int>>, keys: Keys, ks: seq<int>)
    requires Keyed(pages, lv, keys, ks)
    ensures Sorted(ks)
  {
  }

  lemma OneKey(lv: seq<seq<int>>, L: nat, g: nat, keys: Keys, low: int)
    requires Distinct(lv) && L + 2 < |lv| && g < |lv[L + 1]|
    ensures var keys' := keys[lv[L + 1][g] := low];
            && KeyOf(keys', lv[L + 1][g]) == low
            && (forall l :: 0 <= l < |lv| - 1 && l != L + 1 ==> SameKeys(keys, keys', lv[l]))
            && RowKeysBut(keys, keys', lv[L + 1], g)
  {
    hide Distinct;
    forall l, i | 0 <= l < |lv| - 1 && 0 <= i < |lv[l]| && !(l == L + 1 && i == g) ensures lv[l][i] != lv[L + 1][g] {
      Places(lv, l, i, L + 1, g);
    }
  }

  // ---------------------------------------------------------------- the root

  lemma CollapsedKeys(pages: Pages, lv: seq<seq<int>>, keys: Keys, key: int -> int)
    requires |lv| > 2 && RightKeys(pages, lv, keys, key)
    ensures RightKeys(pages, lv[1..], keys, key)
  {
    hide KeyedTo, Sorted, Starts;
    KeyedCollapse(pages, lv, |lv| - 2, Starts(pages, lv[|lv| - 2]), keys, ItemKeys(key, lv[|lv| - 1]));
    assert lv[1..][|lv| - 3] == lv[|lv| - 2] && lv[1..][|lv| - 2] == lv[|lv| - 1];
  }

  // --------------------------------------------------- one node to a neighbour

  /** A node has moved over, from the left or from the right. */
  lemma MovedKeys(pages: Pages, root: Id, lv: seq<seq<int>>, L: nat, t: nat, kp: nat, j: nat, fromleft: bool,
                  keys: Keys, keys': Keys, sep: int, key: int -> int)
    requires Rows(pages, root, lv) && Distinct(lv) && Siblings(pages, lv, L, t, kp, j)
             && RightKeys(pages, lv, keys, key)
    requires |Nodes(pages, if fromleft then lv[L][j] else lv[L][j + 1])| > 1
    requires var a, b := lv[L][j], lv[L][j + 1];
             var pages' := if fromleft then MoveLeftNode(pages, a, b) else MoveRightNode(pages, a, b);
             && Nodes(pages', b) != []
             && if L == |lv| - 2 then keys' == keys && sep == key(Nodes(pages', b)[0])
                else
                  && Nodes(pages, a) != [] && Nodes(pages, b) != [] && NoneEmpty(pages, lv, L + 1)
                  && Low(pages, lv, L + 1, Start(pages, lv[L], j + 1)) < |lv[|lv| - 1]|
                  && keys' == keys[Nodes(pages,
                                         b)[0] := key(lv[|lv| - 1][Low(pages, lv, L + 1, Start(pages, lv[L], j + 1))])]
                  && sep == KeyOf(keys', Nodes(pages', b)[0])
    ensures var a, b := lv[L][j], lv[L][j + 1];
            RightKeys(if fromleft then MoveLeftNode(pages, a, b)
                      else MoveRightNode(pages, a, b), lv, keys'[b := sep], key)
  {
    hide Joined, Nodes, Distinct, RightKeys, Low, NoneEmpty, Rows, MoveLeftNode, MoveRightNode;
    var a, b := lv[L][j], lv[L][j + 1];
    var pages' := if fromleft then MoveLeftNode(pages, a, b) else MoveRightNode(pages, a, b);
    Places(lv, L, j, L, j + 1);
    MovedNodes(pages, a, b);
    assert Rekeyed(pages, root, lv, L, t, kp, j, pages');
    if L == |lv| - 2 {
      LeafMoved(pages, root, lv, t, kp, j, pages', keys, sep, key);
    } else {
      var y, x := Nodes(pages, b)[0], Nodes(pages', b)[0];
      FirstDiffers(pages, root, lv, L, j, if fromleft then j else j + 1, if fromleft then |Nodes(pages, a)| - 1 else 1);
      BranchMoved(pages, root, lv, L, t, kp, j, pages', keys, y,
                  key(lv[|lv| - 1][Low(pages, lv, L + 1, Start(pages, lv[L], j + 1))]), sep, key);
    }
  }

  /** The nodes of a row lead to different pages. */
  lemma FirstDiffers(pages: Pages, root: Id, lv: seq<seq<int>>, L: nat, j: nat, i: nat, k: nat)
    requires Rows(pages, root, lv) && Distinct(lv) && L + 2 < |lv| && j + 1 < |lv[L]|
             && Nodes(pages, lv[L][j + 1]) != []
    requires i < |lv[L]| && k < |Nodes(pages, lv[L][i])| && (i != j + 1 || k != 0)
    ensures Nodes(pages, lv[L][i])[k] != Nodes(pages, lv[L][j + 1])[0]
  {
    hide Joined, Nodes, Distinct, Rows;
    RowBelow(pages, root, lv, L);
    NodeAt(pages, lv[L], i, k);
    NodeAt(pages, lv[L], j + 1, 0);
    Places(lv, L + 1, Start(pages, lv[L], i) + k, L + 1, Start(pages, lv[L], j + 1));
    if Nodes(pages, lv[L][i])[k] == Nodes(pages, lv[L][j + 1])[0] {
      OneParent(pages, lv[L], i, k, j + 1, 0);
    }
  }

  /** A page has gone into its left neighbour. */
  lemma FusedKeys(pages: Pages, root: Id, lv: seq<seq<int>>, L: nat, t: nat, kp: nat, j: nat, keys: Keys, keys': Keys,
                  key: int -> int)
    requires Rows(pages, root, lv) && Distinct(lv) && Siblings(pages, lv, L, t, kp, j)
             && RightKeys(pages, lv, keys, key)
    requires if L == |lv| - 2 then keys' == keys
             else
               && Nodes(pages, lv[L][j + 1]) != [] && NoneEmpty(pages, lv, L + 1)
               && Low(pages, lv, L + 1, Start(pages, lv[L], j + 1)) < |lv[|lv| - 1]|
               && keys' == keys[Nodes(pages,
                                      lv[L][j + 1])[0] :=
                                      key(lv[|lv| - 1][Low(pages, lv, L + 1, Start(pages, lv[L], j + 1))])]
    ensures RightKeys(MergePages(pages, lv[L][j], lv[L][j + 1], lv[L - 1][t], kp + 1), lv[L := Without(lv[L], j + 1)],
                      keys', key)
  {
    hide Joined, Nodes, Distinct, RightKeys, Low, NoneEmpty, Rows, MergePages, Absorbed, SameOn;
    var pages', lv' := MergePages(pages, lv[L][j], lv[L][j + 1], lv[L - 1][t], kp + 1), lv[L := Without(lv[L], j + 1)];
    MergedTree(pages, root, lv, L, t, kp, j);
    assert Fused(pages, root, lv, L, t, kp, j, pages', root, lv');
    if L == |lv| - 2 {
      LeafFused(pages, root, lv, t, kp, j, pages', root, lv', keys, key);
    } else {
      BranchFused(pages, root, lv, L, t, kp, j, pages', root, lv', keys, Nodes(pages, lv[L][j + 1])[0],
                  key(lv[|lv| - 1][Low(pages, lv, L + 1, Start(pages, lv[L], j + 1))]), key);
    }
  }
}
