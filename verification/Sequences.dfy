/** One element more, or one less. */
module Sequences {
  function Inserted<T>(s: seq<T>, i: nat, x: T): (r: seq<T>)
    requires i <= |s|
    ensures |r| == |s| + 1
    ensures forall k {:trigger r[k]} :: 0 <= k < |r| ==> r[k] == if k < i then s[k] else if k == i then x else s[k - 1]
  {
    s[..i] + [x] + s[i..]
  }

  function Without<T>(s: seq<T>, i: nat): (r: seq<T>)
    requires i < |s|
    ensures |r| == |s| - 1
    ensures forall k {:trigger r[k]} :: 0 <= k < |r| ==> r[k] == if k < i then s[k] else s[k + 1]
  {
    s[..i] + s[i + 1..]
  }

  /** x at place p, as one element more or instead of the one there. */
  function PutInto<T>(s: seq<T>, p: nat, x: T, replace: bool): (r: seq<T>)
    requires if replace then p < |s| else p <= |s|
    ensures |r| == |s| + (if replace then 0 else 1) && r[p] == x
  {
    if replace then s[p := x] else Inserted(s, p, x)
  }

  /** The element at index i after x was put in at p. */
  lemma PutElement<T>(s: seq<T>, p: nat, x: T, replace: bool, i: nat)
    requires (if replace then p < |s| else p <= |s|) && i < |PutInto(s, p, x, replace)|
    ensures PutInto(s, p, x, replace)[i] == if i == p then x else s[if replace || i < p then i else i - 1]
  {
  }
}
