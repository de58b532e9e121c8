/** `converter(dialect)`: the compiler engine. Construction checks that the
    dialect implements `$eq` and `$and`; the returned function folds the query
    bottom-up, classifying every node by the last segment of its path
    (root, operator, field, array index, unsupported operator), validating it,
    and calling the dialect's operator. Errors are recorded in the call's
    context as they are found and raised all together, in reverse, when the
    root is reached. */
module Converter {
  import opened Wrappers
  import opened Text
  import opened Document
  import opened Operators
  import opened Utils
  import opened Errors
  import opened Validation
  import opened Types
  import opened Folding

  /** The result of folding one node: what it hands its parent, and every error
      recorded while folding it, its own last. */
  datatype Step<T> = Step(out: Out<T>, errors: seq<QueryValidationError>)

  function Outs<T>(cs: seq<Step<T>>): (r: seq<Out<T>>)
    ensures |r| == |cs|
  {
    seq(|cs|, i requires 0 <= i < |cs| => cs[i].out)
  }

  /** The errors recorded while folding the children, in fold order. */
  function Recorded<T>(cs: seq<Step<T>>): seq<QueryValidationError>
    decreases |cs|
  {
    if cs == [] then [] else Recorded(cs[..|cs| - 1]) + cs[|cs| - 1].errors
  }

  /** How the reducer treats a node, decided by the last segment of its path. */
  datatype Role = Root | OperatorNode(op: Op) | Field | Element | Unsupported(op: Op)

  function RoleOf<T, R>(d: Dialect<T, R>, path: seq<Seg>): Role {
    if path == [] then Root
    else
      match path[|path| - 1]
      case Key(k) =>
        if Parse(k).Some? && Parse(k).value in d.operators then OperatorNode(Parse(k).value)
        else if Parse(k).None? then Field
        else Unsupported(Parse(k).value)
      case Idx(_) => Element
  }

  function ErrorsOf(e: Option<QueryValidationError>): seq<QueryValidationError> {
    if e.Some? then [e.value] else []
  }

  /** The depth rule: with a non-zero `dataDepth`, a data path longer than it is
      a MaxDataDepth error. */
  function DepthErrors(depth: Option<int>, node: Doc, path: seq<Seg>, dataPath: seq<Seg>): seq<QueryValidationError> {
    if depth.Some? && depth.value != 0 && |dataPath| > depth.value
    then [QueryValidationError(MaxDataDepth, node, path, dataPath)]
    else []
  }

  /** The errors a node records itself, in the order it records them. */
  function OwnErrors<T, R>(d: Dialect<T, R>, node: Doc, path: seq<Seg>): seq<QueryValidationError> {
    var dp := DataPath(path);
    match RoleOf(d, path)
    case Root => if IsPlainObject(node) then [] else [QueryValidationError(UnexpectedValue, node, path, dp)]
    case OperatorNode(op) => ErrorsOf(Validate(op, path, node, dp)) + DepthErrors(d.dataDepth, node, path, dp)
    case Field =>
      if IsPlainObject(node) then []
      else ErrorsOf(Validate(Eq, path, node, dp)) + DepthErrors(d.dataDepth, node, path, dp)
    case Element => []
    case Unsupported(_) => [QueryValidationError(OperatorNotSupported, node, path, dp)]
  }

  /** What a node hands its parent. `failed` says whether any error has been
      recorded by the time the node is reduced; only the root looks at it, and
      there an error means the call throws instead of returning. */
  function NodeOut<T, R>(d: Dialect<T, R>, ext: map<string, Doc>, kids: seq<Out<T>>, node: Doc, path: seq<Seg>, failed: bool): Out<T>
    requires HasMandatory(d)
  {
    var dp := DataPath(path);
    var opts := OpOptions(path, ext);
    match RoleOf(d, path)
    case Root => if failed then Absent else Gen(d.operators[And](dp, node, kids, opts))
    case OperatorNode(op) => Gen(d.operators[op](dp, node, kids, opts))
    case Field =>
      if IsPlainObject(node) then Gen(d.operators[And](dp, node, kids, opts))
      else Gen(d.operators[Eq](dp, node, kids, opts))
    case Element => if IsPlainObject(node) then Gen(d.operators[And](dp, node, kids, opts)) else Lit(node)
    case Unsupported(_) => Absent
  }

  /** The reducer the compiler folds with. */
  function Reduce<T, R>(d: Dialect<T, R>, ext: map<string, Doc>, cs: seq<Step<T>>, node: Doc, path: seq<Seg>): Step<T>
    requires HasMandatory(d)
  {
    var errors := Recorded(cs) + OwnErrors(d, node, path);
    Step(NodeOut(d, ext, Outs(cs), node, path, |errors| > 0), errors)
  }

  function Reducer<T, R>(d: Dialect<T, R>, ext: map<string, Doc>): (seq<Step<T>>, Doc, seq<Seg>) -> Step<T>
    requires HasMandatory(d)
  {
    (cs: seq<Step<T>>, node: Doc, path: seq<Seg>) => Reduce(d, ext, cs, node, path)
  }

  lemma ReducerApply<T, R>(d: Dialect<T, R>, ext: map<string, Doc>, node: Doc, path: seq<Seg>)
    requires HasMandatory(d)
    ensures Fold(Reducer(d, ext), node, path) == Reduce(d, ext, Children(Reducer(d, ext), node, path), node, path)
  {
  }

  /** Folding the whole query from the root. */
  function Run<T, R>(d: Dialect<T, R>, ext: map<string, Doc>, query: Doc): Step<T>
    requires HasMandatory(d)
  {
    Fold(Reducer(d, ext), query, [])
  }

  function Reverse<X>(s: seq<X>): (r: seq<X>)
    ensures |r| == |s| && forall i :: 0 <= i < |s| ==> r[i] == s[|s| - 1 - i]
  {
    if s == [] then [] else [s[|s| - 1]] + Reverse(s[..|s| - 1])
  }

  /** `errors.join('\n')`: the default message of the thrown error. */
  function ErrorsText(errors: seq<QueryValidationError>): string {
    Join(seq(|errors|, i requires 0 <= i < |errors| => ErrorText(errors[i])), "\n")
  }

  /** What is thrown for the (already reversed) errors of a call. */
  function Rejection<T, R>(d: Dialect<T, R>, errors: seq<QueryValidationError>, ext: map<string, Doc>): JsError {
    if d.reject.Some? then d.reject.value(errors, Ctx(errors, ext))
    else JsError("Error", ErrorsText(errors))
  }

  /** A successful call returns the root's artifact, or what `resolve` makes
      of it. */
  datatype Compiled<T, R> = Artifact(artifact: T) | Resolved(result: R)

  /** One call of the converter on a query and a caller context: the value it
      returns, or the error it throws. */
  function Compile<T, R>(d: Dialect<T, R>, query: Doc, xctx: map<string, Doc>): Result<Compiled<T, R>, JsError>
    requires HasMandatory(d)
  {
    var ext := InitialExt(d, xctx);
    var s := Run(d, ext, query);
    if s.out.Gen? then
      Success(if d.resolve.Some? then Resolved(d.resolve.value(s.out.artifact, Ctx(s.errors, ext))) else Artifact(s.out.artifact))
    else
      Failure(Rejection(d, Reverse(s.errors), ext))
  }

  const MandatoryMessage := "operators \"$eq\" and \"$and\" are mandatory"

  /** `converter(dialect)`: a plain Error when `$eq` or `$and` is missing,
      before any query is seen; otherwise the compiling function. */
  function MakeConverter<T, R>(d: Dialect<T, R>): (r: Result<(Doc, map<string, Doc>) -> Result<Compiled<T, R>, JsError>, JsError>)
    ensures r.Failure? <==> !HasMandatory(d)
    ensures r.Failure? ==> r.error == JsError("Error", MandatoryMessage)
    ensures r.Success? ==> forall q, x :: r.value(q, x) == Compile(d, q, x)
  {
    if !(Eq in d.operators) || !(And in d.operators) then Failure(JsError("Error", MandatoryMessage))
    else Success((q: Doc, x: map<string, Doc>) => Compile(d, q, x))
  }

  /** The context object of one call: its error list, which the fold appends
      to and which is reversed in place before it is thrown, and the dialect's
      and caller's fields. */
  class CallContext {
    var errors: seq<QueryValidationError>
    const ext: map<string, Doc>

    constructor(ext: map<string, Doc>)
      ensures errors == [] && this.ext == ext
    {
      errors := [];
      this.ext := ext;
    }

    /** The reducer's body for one node, given its children's results: it
        pushes the node's own errors, then returns what the node hands its
        parent (at the root, after checking whether anything was recorded). */
    method Visit<T, R>(d: Dialect<T, R>, kids: seq<Out<T>>, node: Doc, path: seq<Seg>) returns (out: Out<T>)
      requires HasMandatory(d)
      modifies this
      ensures errors == old(errors) + OwnErrors(d, node, path)
      ensures out == NodeOut(d, ext, kids, node, path, |errors| > 0)
    {
      var dp := DataPath(path);
      var opts := OpOptions(path, ext);
      var role := RoleOf(d, path);
      match role {
        case Root =>
          if !IsPlainObject(node) {
            errors := errors + [QueryValidationError(UnexpectedValue, node, path, dp)];
          }
          if |errors| > 0 {
            out := Absent;
          } else {
            out := Gen(d.operators[And](dp, node, kids, opts));
          }
        case OperatorNode(op) =>
          var err := Validate(op, path, node, dp);
          if err.Some? {
            errors := errors + [err.value];
          }
          if d.dataDepth.Some? && d.dataDepth.value != 0 && |dp| > d.dataDepth.value {
            errors := errors + [QueryValidationError(MaxDataDepth, node, path, dp)];
          }
          out := Gen(d.operators[op](dp, node, kids, opts));
        case Field =>
          if IsPlainObject(node) {
            out := Gen(d.operators[And](dp, node, kids, opts));
          } else {
            var err := Validate(Eq, path, node, dp);
            if err.Some? {
              errors := errors + [err.value];
            }
            if d.dataDepth.Some? && d.dataDepth.value != 0 && |dp| > d.dataDepth.value {
              errors := errors + [QueryValidationError(MaxDataDepth, node, path, dp)];
            }
            out := Gen(d.operators[Eq](dp, node, kids, opts));
          }
        case Element =>
          if IsPlainObject(node) {
            out := Gen(d.operators[And](dp, node, kids, opts));
          } else {
            out := Lit(node);
          }
        case Unsupported(_) =>
          errors := errors + [QueryValidationError(OperatorNotSupported, node, path, dp)];
          out := Absent;
      }
    }

    /** Folds the subtree at `path`: the children first, left to right, then
        the node itself. The errors recorded meanwhile are appended to the
        list; at the root the list must start empty. */
    method FoldNode<T, R>(d: Dialect<T, R>, node: Doc, path: seq<Seg>) returns (out: Out<T>)
      requires HasMandatory(d)
      requires path == [] ==> errors == []
      modifies this
      ensures var s := Fold(Reducer(d, ext), node, path); out == s.out && errors == old(errors) + s.errors
      decreases node, 2
    {
      ghost var cs := Children(Reducer(d, ext), node, path);
      ghost var before := errors;
      var kids := FoldChildren(d, node, path);
      assert errors == before + Recorded(cs);
      out := Visit(d, kids, node, path);
      ReducerApply(d, ext, node, path);
      AppendAssoc(before, Recorded(cs), OwnErrors(d, node, path));
    }

    /** Folds the children of a node in order and collects what they hand it. */
    method FoldChildren<T, R>(d: Dialect<T, R>, node: Doc, path: seq<Seg>) returns (kids: seq<Out<T>>)
      requires HasMandatory(d)
      modifies this
      ensures var cs := Children(Reducer(d, ext), node, path); kids == Outs(cs) && errors == old(errors) + Recorded(cs)
      decreases node, 1
    {
      ghost var cs := Children(Reducer(d, ext), node, path);
      var n := |Kids(node)|;
      kids := [];
      var i := 0;
      while i < n
        invariant 0 <= i <= n == |cs|
        invariant kids == Outs(cs[..i])
        invariant errors == old(errors) + Recorded(cs[..i])
      {
        var o := FoldKid(d, node, path, i);
        StepAppend(cs, i);
        AppendAssoc(old(errors), Recorded(cs[..i]), cs[i].errors);
        kids := kids + [o];
        i := i + 1;
      }
      assert cs[..n] == cs;
    }

    /** Folds the child at position `i` of a node. */
    method FoldKid<T, R>(d: Dialect<T, R>, node: Doc, path: seq<Seg>, i: nat) returns (out: Out<T>)
      requires HasMandatory(d)
      requires i < |Kids(node)|
      modifies this
      ensures var c := Children(Reducer(d, ext), node, path)[i]; out == c.out && errors == old(errors) + c.errors
      decreases node, 0
    {
      ChildAt(Reducer(d, ext), node, path, i);
      match node {
        case Arr(xs) =>
          out := FoldNode(d, xs[i], path + [Idx(i)]);
        case Obj(fs) =>
          out := FoldNode(d, fs[i].1, path + [Key(fs[i].0)]);
      }
    }
  }

  lemma AppendAssoc<X>(a: seq<X>, b: seq<X>, c: seq<X>)
    ensures (a + b) + c == a + (b + c)
  {
  }

  /** Taking one more child extends the collected results and errors by that
      child's. */
  lemma StepAppend<T>(cs: seq<Step<T>>, i: nat)
    requires i < |cs|
    ensures Outs(cs[..i + 1]) == Outs(cs[..i]) + [cs[i].out]
    ensures Recorded(cs[..i + 1]) == Recorded(cs[..i]) + cs[i].errors
  {
    assert cs[..i + 1][..i] == cs[..i];
  }

  /** One call of the compiling function, with its context object. */
  method CompileQuery<T, R>(d: Dialect<T, R>, query: Doc, xctx: map<string, Doc>) returns (r: Result<Compiled<T, R>, JsError>)
    requires HasMandatory(d)
    ensures r == Compile(d, query, xctx)
  {
    var ctx := new CallContext(InitialExt(d, xctx));
    ghost var s := Run(d, ctx.ext, query);
    var out := ctx.FoldNode(d, query, []);
    assert out == s.out && ctx.errors == s.errors;
    if out.Gen? {
      if d.resolve.Some? {
        r := Success(Resolved(d.resolve.value(out.artifact, Ctx(ctx.errors, ctx.ext))));
      } else {
        r := Success(Artifact(out.artifact));
      }
    } else {
      ctx.errors := Reverse(ctx.errors);
      r := Failure(Rejection(d, ctx.errors, ctx.ext));
    }
  }
}
