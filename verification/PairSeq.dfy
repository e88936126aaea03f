/** A database as the sequence of its key/value pairs, duplicates included. */
module PairSeq {
  import opened Options
  import opened Tree
  import opened TreeCursor

  datatype Pair = Pair(key: Key, value: int)

  /** The sub-tree holding sorted duplicates. */
  function SubTree(d: Dups): (t: Tree)
    requires !d.Single?
  {
    if d.SubPage? then Leaf(d.values) else d.tree
  }

  function Values(d: Dups): (v: seq<int>) {
    if d.Single? then [d.data] else KeysOf(Flat(SubTree(d)))
  }

  function PairsOf(item: Item): (ps: seq<Pair>)
    ensures |ps| == |Values(item.dups)| && forall j :: 0 <= j < |ps| ==> ps[j] == Pair(item.key, Values(item.dups)[j])
  {
    var v := Values(item.dups);
    seq(|v|, j requires 0 <= j < |v| => Pair(item.key, v[j]))
  }

  function Pairs(s: seq<Item>): seq<Pair> {
    if |s| == 0 then [] else PairsOf(s[0]) + Pairs(s[1..])
  }

  /** Only a DUPSORT database holds duplicates, and they form a search tree. */
  ghost predicate ItemOk(item: Item, dupsort: bool) {
    item.dups.Single? || (dupsort && Fits(Some(SubTree(item.dups))))
  }

  ghost predicate ItemsOk(s: seq<Item>, dupsort: bool) { forall i :: 0 <= i < |s| ==> ItemOk(s[i], dupsort) }

  /** The number of pairs before item i. */
  ghost function Start(s: seq<Item>, i: nat): nat
    requires i <= |s|
  {
    |Pairs(s[..i])|
  }

  lemma {:induction false} PairsSplit(s: seq<Item>, i: nat)
    requires i <= |s|
    ensures Pairs(s) == Pairs(s[..i]) + Pairs(s[i..])
  {
    if i == 0 {
      assert s[0..] == s && s[..0] == [];
    } else {
      PairsSplit(s[1..], i - 1);
      assert s[1..][..i - 1] == s[..i][1..];
      assert s[1..][i - 1..] == s[i..];
    }
  }

  lemma StartNext(s: seq<Item>, i: nat)
    requires i < |s|
    ensures Start(s, i + 1) == Start(s, i) + |PairsOf(s[i])| <= |Pairs(s)|
  {
    PairsSplit(s[..i + 1], i);
    assert s[..i + 1][..i] == s[..i] && s[..i + 1][i..] == [s[i]];
    assert Pairs([s[i]]) == PairsOf(s[i]) + Pairs([]);
    PairsSplit(s, i + 1);
  }

  lemma StartEnds(s: seq<Item>)
    ensures Start(s, 0) == 0 && Start(s, |s|) == |Pairs(s)|
  {
    assert s[..0] == [] && s[..|s|] == s;
  }

  lemma PairAt(s: seq<Item>, i: nat, j: nat)
    requires i < |s| && j < |Values(s[i].dups)|
    ensures Start(s, i) + j < |Pairs(s)| && Pairs(s)[Start(s, i) + j] == Pair(s[i].key, Values(s[i].dups)[j])
  {
    hide Pairs, Values;
    PairsSplit(s, i);
    assert s[i..][0] == s[i];
    PairsFirst(s[i..]);
  }

  /** Every item has a value. */
  lemma ValuesExist(item: Item, dupsort: bool)
    requires ItemOk(item, dupsort)
    ensures |Values(item.dups)| > 0
  {
    if !item.dups.Single? {
      NotEmpty(SubTree(item.dups));
    }
  }

  // ------------------------------------------------ what iterators promise

  function Reverse(s: seq<Pair>): (r: seq<Pair>)
    ensures |r| == |s| && forall i :: 0 <= i < |s| ==> r[i] == s[|s| - 1 - i]
  {
    if |s| == 0 then [] else Reverse(s[1..]) + [s[0]]
  }

  function WithKeyFrom(s: seq<Pair>, key: Key): seq<Pair> {
    if |s| == 0 then [] else (if s[0].key >= key then [s[0]] else []) + WithKeyFrom(s[1..], key)
  }

  function WithKeyUpTo(s: seq<Pair>, key: Key): seq<Pair> {
    if |s| == 0 then [] else (if s[0].key <= key then [s[0]] else []) + WithKeyUpTo(s[1..], key)
  }

  function WithKey(s: seq<Pair>, key: Key): seq<Pair> {
    if |s| == 0 then [] else (if s[0].key == key then [s[0]] else []) + WithKey(s[1..], key)
  }

  /** The pairs before index a have smaller keys, those from b on greater ones. */
  ghost predicate Framed(s: seq<Pair>, key: Key, a: nat, b: nat) {
    && a <= b <= |s|
    && (forall i :: 0 <= i < a ==> s[i].key < key)
    && (forall i :: a <= i < b ==> s[i].key == key)
    && (forall i :: b <= i < |s| ==> s[i].key > key)
  }

  lemma SliceFirst(s: seq<Pair>, a: nat, b: nat)
    requires 0 < |s| && a <= b <= |s|
    ensures a > 0 ==> s[a..] == s[1..][a - 1..] && s[..b] == [s[0]] + s[1..][..b - 1] && s[a..b] == s[1..][a - 1..b - 1]
    ensures a == 0 ==> s[a..] == [s[0]] + s[1..]
    ensures a == 0 && b > 0 ==> s[..b] == s[a..b] == [s[0]] + s[1..][..b - 1]
    ensures b == 0 ==> s[..b] == s[a..b] == []
  {
  }

  lemma FramedRest(s: seq<Pair>, key: Key, a: nat, b: nat)
    requires Framed(s, key, a, b) && |s| > 0
    ensures Framed(s[1..], key, if a > 0 then a - 1 else 0, if b > 0 then b - 1 else 0)
    ensures if a > 0 then s[0].key < key else if b > 0 then s[0].key == key else s[0].key > key
  {
  }

  lemma FilterFirst(s: seq<Pair>, key: Key)
    requires |s| > 0
    ensures WithKeyFrom(s, key) == (if s[0].key >= key then [s[0]] else []) + WithKeyFrom(s[1..], key)
    ensures WithKeyUpTo(s, key) == (if s[0].key <= key then [s[0]] else []) + WithKeyUpTo(s[1..], key)
    ensures WithKey(s, key) == (if s[0].key == key then [s[0]] else []) + WithKey(s[1..], key)
  {
  }

  lemma FramedIn(s: seq<Pair>, key: Key, a: nat, b: nat)
    requires Framed(s, key, a, b)
    ensures a <= b <= |s|
  {
  }

  lemma {:induction false} FramedFilters(s: seq<Pair>, key: Key, a: nat, b: nat)
    requires Framed(s, key, a, b)
    ensures WithKeyFrom(s, key) == s[a..] && WithKeyUpTo(s, key) == s[..b] && WithKey(s, key) == s[a..b]
  {
    if |s| > 0 {
      hide WithKeyFrom, WithKeyUpTo, WithKey, Framed;
      FramedIn(s, key, a, b);
      FramedRest(s, key, a, b);
      FramedFilters(s[1..], key, if a > 0 then a - 1 else 0, if b > 0 then b - 1 else 0);
      SliceFirst(s, a, b);
      FilterFirst(s, key);
    }
  }

  lemma {:induction false} KeysInPairs(s: seq<Item>, i: nat, key: Key)
    requires i <= |s|
    ensures (forall j :: 0 <= j < i ==> s[j].key < key) ==> forall q :: 0 <= q < Start(s, i) ==>
              Pairs(s[..i])[q].key < key
  {
    hide Values;
    if i > 0 {
      KeysInPairs(s, i - 1, key);
      var t := s[..i];
      PairsSplit(t, i - 1);
      assert t[..i - 1] == s[..i - 1] && t[i - 1..] == [s[i - 1]];
      PairsFirst([s[i - 1]]);
    }
  }

  lemma {:induction false} KeysAbove(s: seq<Item>, key: Key)
    requires AllAbove(s, key)
    ensures forall q :: 0 <= q < |Pairs(s)| ==> Pairs(s)[q].key > key
  {
    if |s| > 0 {
      KeysAbove(s[1..], key);
    }
  }

  lemma PairsFirst(s: seq<Item>)
    requires s != []
    ensures Pairs(s) == PairsOf(s[0]) + Pairs(s[1..])
  {
  }

  lemma FramedParts(s: seq<Pair>, key: Key, x: seq<Pair>, y: seq<Pair>, z: seq<Pair>)
    requires s == x + y + z
    requires forall i :: 0 <= i < |x| ==> x[i].key < key
    requires forall i :: 0 <= i < |y| ==> y[i].key == key
    requires forall i :: 0 <= i < |z| ==> z[i].key > key
    ensures Framed(s, key, |x|, |x| + |y|)
  {
    forall i | |x| + |y| <= i < |s| ensures s[i].key > key {
      assert s[i] == z[i - (|x| + |y|)];
    }
  }

  /** In a sorted database the rank of a key frames its pairs. */
  lemma RankFrames(s: seq<Item>, key: Key)
    requires Sorted(s)
    ensures var p := Rank(s, key);
            var e := if p < |s| && s[p].key == key then p + 1 else p;
            Framed(Pairs(s), key, Start(s, p), Start(s, e))
  {
    hide Pairs, PairsOf, Framed;
    var p := Rank(s, key);
    KeysInPairs(s, p, key);
    PairsSplit(s, p);
    if p < |s| && s[p].key == key {
      StartNext(s, p);
      KeysAbove(s[p + 1..], key);
      assert s[p..][1..] == s[p + 1..];
      PairsFirst(s[p..]);
      FramedParts(Pairs(s), key, Pairs(s[..p]), PairsOf(s[p]), Pairs(s[p + 1..]));
    } else {
      forall i | 0 <= i < |s[p..]| ensures s[p..][i].key > key {
        assert s[p..][i] == s[p + i];
      }
      KeysAbove(s[p..], key);
      FramedParts(Pairs(s), key, Pairs(s[..p]), [], Pairs(s[p..]));
    }
  }

  /** Without duplicates the pairs are the items. */
  lemma {:induction false} PlainPairs(s: seq<Item>)
    requires ItemsOk(s, false)
    ensures |Pairs(s)| == |s| && forall i :: 0 <= i < |s| ==> Pairs(s)[i].key == s[i].key
  {
    if |s| > 0 {
      PlainPairs(s[1..]);
      assert |PairsOf(s[0])| == 1;
    }
  }
}
