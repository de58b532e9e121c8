/** The shapes a dialect plugs into the compiler: operator functions, the
    per-call context, and the dialect record with its optional hooks. */
module Types {
  import opened Wrappers
  import opened Document
  import opened Operators
  import opened Errors

  /** What the fold hands a parent for one child: an artifact the dialect
      generated, the child's own value (an array element that is not an
      object), or nothing (a node that was reported as unsupported). */
  datatype Out<T> = Gen(artifact: T) | Lit(value: Doc) | Absent

  /** `CriteriumContext`: the errors list of one call, and the fields the
      dialect's `extendCtx` and the caller's `xctx` add to it. */
  datatype Ctx = Ctx(errors: seq<QueryValidationError>, ext: map<string, Doc>)

  /** The `{ path, ctx }` options every operator receives; the context is given
      by its extension fields, the part an operator may read. */
  datatype OpOptions = OpOptions(path: seq<Seg>, ext: map<string, Doc>)

  /** `CriteriumOperator<T>`: (data path, value, child results, options) to `T`. */
  type Operator<!T> = (seq<Seg>, Doc, seq<Out<T>>, OpOptions) -> T

  /** `CriteriumDialect<T, R>`. */
  datatype Dialect<!T, R> = Dialect(
    operators: map<Op, Operator<T>>,
    extendCtx: Option<() -> map<string, Doc>>,
    dataDepth: Option<int>,
    resolve: Option<(T, Ctx) -> R>,
    reject: Option<(seq<QueryValidationError>, Ctx) -> JsError>)

  /** A dialect must implement `$eq` and `$and`; every other operator is optional. */
  predicate HasMandatory<T, R>(d: Dialect<T, R>) {
    Eq in d.operators && And in d.operators
  }

  /** The context fields of a call: those of `extendCtx()`, then those of
      `xctx`, a later field replacing an earlier one of the same name. */
  function InitialExt<T, R>(d: Dialect<T, R>, xctx: map<string, Doc>): (ext: map<string, Doc>)
    ensures forall k :: k in xctx ==> k in ext && ext[k] == xctx[k]
    ensures d.extendCtx.Some? ==>
      forall k :: k in d.extendCtx.value() && k !in xctx ==> k in ext && ext[k] == d.extendCtx.value()[k]
    ensures forall k :: k in ext ==> k in xctx || (d.extendCtx.Some? && k in d.extendCtx.value())
  {
    (if d.extendCtx.Some? then d.extendCtx.value() else map[]) + xctx
  }

  /** `children.filter(Boolean)` where the children are generated artifacts:
      the artifacts among the child results, in order. */
  function Gens<T>(kids: seq<Out<T>>): (ps: seq<T>)
    ensures |ps| <= |kids|
  {
    if kids == [] then []
    else (if kids[0].Gen? then [kids[0].artifact] else []) + Gens(kids[1..])
  }

  /** The artifacts kept are exactly the generated child results. */
  lemma {:induction false} GensMembers<T>(kids: seq<Out<T>>)
    ensures forall p :: p in Gens(kids) <==> Gen(p) in kids
  {
    if kids != [] {
      GensMembers(kids[1..]);
      assert kids == [kids[0]] + kids[1..];
    }
  }
}
