/** A bottom-up structural fold over a query document: the results for the
    children of a node are computed first, left to right, and handed with the
    node and its path to the reducer. Arrays are entered by index, objects by
    key in their order; every other value is a leaf. */
module Folding {
  import opened Document

  /** The children of a node, each with the segment that leads to it. */
  function Kids(node: Doc): (ks: seq<(Seg, Doc)>)
    ensures node.Arr? ==> |ks| == |node.items|
    ensures node.Obj? ==> |ks| == |node.fields|
    ensures !node.Arr? && !node.Obj? ==> ks == []
  {
    match node
    case Arr(xs) => seq(|xs|, i requires 0 <= i < |xs| => (Idx(i), xs[i]))
    case Obj(fs) => seq(|fs|, i requires 0 <= i < |fs| => (Key(fs[i].0), fs[i].1))
    case _ => []
  }

  function Fold<R>(f: (seq<R>, Doc, seq<Seg>) -> R, node: Doc, path: seq<Seg>): R
    decreases node, 1
  {
    f(Children(f, node, path), node, path)
  }

  /** The folded children of a node, in order. */
  function Children<R>(f: (seq<R>, Doc, seq<Seg>) -> R, node: Doc, path: seq<Seg>): (cs: seq<R>)
    ensures |cs| == |Kids(node)|
    decreases node, 0
  {
    match node
    case Arr(xs) => seq(|xs|, i requires 0 <= i < |xs| => Fold(f, xs[i], path + [Idx(i)]))
    case Obj(fs) => seq(|fs|, i requires 0 <= i < |fs| => Fold(f, fs[i].1, path + [Key(fs[i].0)]))
    case _ => []
  }

  /** Child `i` is folded at the path extended by the segment leading to it. */
  lemma ChildAt<R>(f: (seq<R>, Doc, seq<Seg>) -> R, node: Doc, path: seq<Seg>, i: nat)
    requires i < |Kids(node)|
    ensures Children(f, node, path)[i] == Fold(f, Kids(node)[i].1, path + [Kids(node)[i].0])
  {
  }
}
