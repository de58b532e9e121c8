/** `converterOptions.predicate.get`: the path lookup the in-memory backend
    reads fields with. */
module JsOptions {
  import opened Document

  /** One step of the `reduce`: `current && current[key]`. */
  function Step(current: Doc, seg: Seg): Doc {
    if Truthy(current) then Prop(current, seg) else current
  }

  /** `path.reduce((current, key) => current && current[key], obj)`. */
  function Get(obj: Doc, path: seq<Seg>): Doc
    decreases |path|
  {
    if path == [] then obj else Step(Get(obj, path[..|path| - 1]), path[|path| - 1])
  }

  /** The empty path gives the object itself. */
  lemma GetEmpty(obj: Doc)
    ensures Get(obj, []) == obj
  {
  }

  /** Looking up `p + q` is looking up `q` in what `p` leads to. */
  lemma {:induction false} GetConcat(obj: Doc, p: seq<Seg>, q: seq<Seg>)
    ensures Get(obj, p + q) == Get(Get(obj, p), q)
    decreases |q|
  {
    if q != [] {
      var n := |q| - 1;
      assert (p + q)[..|p + q| - 1] == p + q[..n];
      assert (p + q)[|p + q| - 1] == q[n];
      GetConcat(obj, p, q[..n]);
    } else {
      assert p + q == p;
    }
  }

  /** From a truthy value, the lookup steps into the first segment and goes on
      from there. */
  lemma FirstStep(obj: Doc, k: Seg, rest: seq<Seg>)
    requires Truthy(obj)
    ensures Get(obj, [k] + rest) == Get(Prop(obj, k), rest)
  {
    GetConcat(obj, [k], rest);
    assert [k][..0] == [];
  }

  /** A falsy value met on the way is the result: the lookup stops there. */
  lemma {:induction false} FalsyStops(obj: Doc, path: seq<Seg>)
    requires !Truthy(obj)
    ensures Get(obj, path) == obj
    decreases |path|
  {
    if path != [] {
      FalsyStops(obj, path[..|path| - 1]);
    }
  }

  /** The lookup stops at the first falsy value on the path, wherever it is. */
  lemma FalsyOnTheWay(obj: Doc, p: seq<Seg>, q: seq<Seg>)
    requires !Truthy(Get(obj, p))
    ensures Get(obj, p + q) == Get(obj, p)
  {
    GetConcat(obj, p, q);
    FalsyStops(Get(obj, p), q);
  }
}
