/** What the compiler engine guarantees for every dialect: how each kind of
    node is treated, when a call succeeds, and what the raised errors say. */
module ConverterFacts {
  import opened Wrappers
  import opened Text
  import opened Document
  import opened Operators
  import opened Utils
  import opened Errors
  import opened Validation
  import opened Types
  import opened Folding
  import opened Converter

  /** How a key below the root is classified: an operator the dialect
      implements, a field (any key outside the validator table, `$`-keys
      included), or an operator of the table that the dialect lacks. */
  lemma KeyRoles<T, R>(d: Dialect<T, R>, path: seq<Seg>, k: string)
    ensures RoleOf(d, path + [Key(k)]) == Field <==> Parse(k).None?
    ensures forall op :: RoleOf(d, path + [Key(k)]) == OperatorNode(op) <==> (Parse(k) == Some(op) && op in d.operators)
    ensures forall op :: RoleOf(d, path + [Key(k)]) == Unsupported(op) <==> (Parse(k) == Some(op) && op !in d.operators)
  {
    var p := path + [Key(k)];
    assert p != [] && p[|p| - 1] == Key(k);
  }

  /** A `$`-key that is not one of the fifteen operator names is a field name. */
  lemma UnknownDollarKeyIsField<T, R>(d: Dialect<T, R>, path: seq<Seg>)
    ensures RoleOf(d, path + [Key("$bogus")]) == Field
  {
    KeyRoles(d, path, "$bogus");
  }

  /** An operator of the table that the dialect does not implement records an
      OperatorNotSupported error and hands nothing to its parent. */
  lemma UnsupportedOperator<T, R>(d: Dialect<T, R>, ext: map<string, Doc>, kids: seq<Out<T>>, node: Doc, path: seq<Seg>, op: Op, failed: bool)
    requires HasMandatory(d) && op !in d.operators
    ensures OwnErrors(d, node, path + [Key(Name(op))]) == [QueryValidationError(OperatorNotSupported, node, path + [Key(Name(op))], DataPath(path + [Key(Name(op))]))]
    ensures NodeOut(d, ext, kids, node, path + [Key(Name(op))], failed) == Absent
  {
    var p := path + [Key(Name(op))];
    ParseName(op);
    assert p != [] && p[|p| - 1] == Key(Name(op));
    assert RoleOf(d, p) == Unsupported(op);
  }

  /** An operator the dialect implements is validated, checked for depth and
      generated; what it generates does not depend on whether errors were
      recorded, so a validation error never stops generation. */
  lemma ImplementedOperator<T, R>(d: Dialect<T, R>, ext: map<string, Doc>, kids: seq<Out<T>>, node: Doc, path: seq<Seg>, op: Op, failed: bool)
    requires HasMandatory(d) && op in d.operators
    ensures var p := path + [Key(Name(op))]; var dp := DataPath(p);
      OwnErrors(d, node, p) == ErrorsOf(Validate(op, p, node, dp)) + DepthErrors(d.dataDepth, node, p, dp) &&
      NodeOut(d, ext, kids, node, p, failed) == Gen(d.operators[op](dp, node, kids, OpOptions(p, ext)))
  {
    var p := path + [Key(Name(op))];
    ParseName(op);
    assert p != [] && p[|p| - 1] == Key(Name(op));
    assert RoleOf(d, p) == OperatorNode(op);
  }

  /** A field holding a plain object is an implicit `$and` and records nothing
      itself; a field holding any other value is validated as `$eq`, checked
      for depth, and generated by `$eq`. */
  lemma FieldNode<T, R>(d: Dialect<T, R>, ext: map<string, Doc>, kids: seq<Out<T>>, node: Doc, path: seq<Seg>, k: string, failed: bool)
    requires HasMandatory(d) && Parse(k).None?
    ensures var p := path + [Key(k)]; var dp := DataPath(p); var opts := OpOptions(p, ext);
      (node.Obj? ==> OwnErrors(d, node, p) == [] && NodeOut(d, ext, kids, node, p, failed) == Gen(d.operators[And](dp, node, kids, opts))) &&
      (!node.Obj? ==>
        OwnErrors(d, node, p) == ErrorsOf(Validate(Eq, p, node, dp)) + DepthErrors(d.dataDepth, node, p, dp) &&
        NodeOut(d, ext, kids, node, p, failed) == Gen(d.operators[Eq](dp, node, kids, opts)))
  {
    KeyRoles(d, path, k);
  }

  /** An array element that is a plain object is an implicit `$and`; any other
      element is handed to the parent as it is. Neither records an error. */
  lemma ElementNode<T, R>(d: Dialect<T, R>, ext: map<string, Doc>, kids: seq<Out<T>>, node: Doc, path: seq<Seg>, i: nat, failed: bool)
    requires HasMandatory(d)
    ensures var p := path + [Idx(i)];
      OwnErrors(d, node, p) == [] &&
      NodeOut(d, ext, kids, node, p, failed)
        == (if node.Obj? then Gen(d.operators[And](DataPath(p), node, kids, OpOptions(p, ext))) else Lit(node))
  {
    var p := path + [Idx(i)];
    assert p[|p| - 1] == Idx(i);
  }

  /** With a non-zero `dataDepth`, an operator or implicit `$eq` whose data
      path is longer records a MaxDataDepth error as its last own error; with
      no depth, or depth 0, none is ever recorded. */
  lemma DepthRule<T, R>(d: Dialect<T, R>, node: Doc, path: seq<Seg>)
    requires HasMandatory(d)
    requires RoleOf(d, path).OperatorNode? || (RoleOf(d, path).Field? && !node.Obj?)
    ensures var own := OwnErrors(d, node, path); var dp := DataPath(path);
      ((QueryValidationError(MaxDataDepth, node, path, dp) in own)
        <==> d.dataDepth.Some? && d.dataDepth.value != 0 && |dp| > d.dataDepth.value)
  {
    var own := OwnErrors(d, node, path);
    var dp := DataPath(path);
    var v := if RoleOf(d, path).OperatorNode? then Validate(RoleOf(d, path).op, path, node, dp) else Validate(Eq, path, node, dp);
    ValidateReportsOnlyItsOwnErrors(if RoleOf(d, path).OperatorNode? then RoleOf(d, path).op else Eq, path, node, dp);
    assert own == ErrorsOf(v) + DepthErrors(d.dataDepth, node, path, dp);
  }

  /** Every node of the subtree records no error. */
  predicate Clean<T, R>(d: Dialect<T, R>, node: Doc, path: seq<Seg>)
    decreases node, 1
  {
    OwnErrors(d, node, path) == [] && CleanKids(d, node, path)
  }

  predicate CleanKids<T, R>(d: Dialect<T, R>, node: Doc, path: seq<Seg>)
    decreases node, 0
  {
    match node
    case Arr(xs) => forall i :: 0 <= i < |xs| ==> Clean(d, xs[i], path + [Idx(i)])
    case Obj(fs) => forall i :: 0 <= i < |fs| ==> Clean(d, fs[i].1, path + [Key(fs[i].0)])
    case _ => true
  }

  lemma CleanKidAt<T, R>(d: Dialect<T, R>, node: Doc, path: seq<Seg>, i: nat)
    requires i < |Kids(node)|
    ensures CleanKids(d, node, path) ==> Clean(d, Kids(node)[i].1, path + [Kids(node)[i].0])
  {
  }

  lemma {:induction false} RecordedEmpty<T>(cs: seq<Step<T>>)
    ensures Recorded(cs) == [] <==> forall i :: 0 <= i < |cs| ==> cs[i].errors == []
    decreases |cs|
  {
    if cs != [] {
      var n := |cs| - 1;
      var front := cs[..n];
      RecordedEmpty(front);
      assert Recorded(cs) == Recorded(front) + cs[n].errors;
      assert forall i :: 0 <= i < n ==> front[i] == cs[i];
    }
  }

  /** The fold of a subtree records no error exactly when no node in it
      records one. */
  lemma {:induction false} NoErrorsIffClean<T, R>(d: Dialect<T, R>, ext: map<string, Doc>, node: Doc, path: seq<Seg>)
    requires HasMandatory(d)
    ensures Fold(Reducer(d, ext), node, path).errors == [] <==> Clean(d, node, path)
    decreases node
  {
    var f := Reducer(d, ext);
    var cs := Children(f, node, path);
    var own := OwnErrors(d, node, path);
    ReducerApply(d, ext, node, path);
    assert Fold(f, node, path).errors == Recorded(cs) + own;
    assert Fold(f, node, path).errors == [] <==> Recorded(cs) == [] && own == [];
    assert Clean(d, node, path) == (own == [] && CleanKids(d, node, path));
    RecordedEmpty(cs);
    forall i | 0 <= i < |cs|
      ensures cs[i].errors == [] <==> Clean(d, Kids(node)[i].1, path + [Kids(node)[i].0])
    {
      ChildAt(f, node, path, i);
      KidSmaller(node, i);
      NoErrorsIffClean(d, ext, Kids(node)[i].1, path + [Kids(node)[i].0]);
    }
    CleanKidsAll(d, node, path);
  }

  lemma CleanKidsAll<T, R>(d: Dialect<T, R>, node: Doc, path: seq<Seg>)
    ensures CleanKids(d, node, path)
      <==> forall i :: 0 <= i < |Kids(node)| ==> Clean(d, Kids(node)[i].1, path + [Kids(node)[i].0])
  {
    match node
    case Arr(xs) => assert forall i :: 0 <= i < |xs| ==> Kids(node)[i] == (Idx(i), xs[i]);
    case Obj(fs) => assert forall i :: 0 <= i < |fs| ==> Kids(node)[i] == (Key(fs[i].0), fs[i].1);
    case _ =>
  }

  lemma KidSmaller(node: Doc, i: nat)
    requires i < |Kids(node)|
    ensures Kids(node)[i].1 < node
  {
    match node
    case Arr(xs) => assert Kids(node)[i].1 == xs[i];
    case Obj(fs) => assert Kids(node)[i].1 == fs[i].1;
  }

  /** The root hands on an artifact exactly when no error was recorded. */
  lemma RootOutcome<T, R>(d: Dialect<T, R>, ext: map<string, Doc>, query: Doc)
    requires HasMandatory(d)
    ensures Run(d, ext, query).out.Gen? <==> Run(d, ext, query).errors == []
    ensures Run(d, ext, query).out.Gen? ==>
      Run(d, ext, query).out.artifact
        == d.operators[And]([], query, Outs(Children(Reducer(d, ext), query, [])), OpOptions([], ext))
  {
    ReducerApply(d, ext, query, []);
  }

  /** A call succeeds exactly when no node of the query records an error. */
  lemma CompileSucceedsIffClean<T, R>(d: Dialect<T, R>, query: Doc, xctx: map<string, Doc>)
    requires HasMandatory(d)
    ensures Compile(d, query, xctx).Success? <==> Clean(d, query, [])
  {
    var ext := InitialExt(d, xctx);
    RootOutcome(d, ext, query);
    NoErrorsIffClean(d, ext, query, []);
  }

  /** A root that is not a plain object fails the call; the error raised
      first is UnexpectedValue with the empty path, whose message is
      "unexpected value for query at '$'". */
  lemma RootMustBeObject<T, R>(d: Dialect<T, R>, query: Doc, xctx: map<string, Doc>)
    requires HasMandatory(d) && !query.Obj?
    ensures var ext := InitialExt(d, xctx); var raised := Reverse(Run(d, ext, query).errors);
      Compile(d, query, xctx) == Failure(Rejection(d, raised, ext)) &&
      |raised| > 0 && raised[0] == QueryValidationError(UnexpectedValue, query, [], []) &&
      raised[0].Message() == "unexpected value for query at '$'"
  {
    var ext := InitialExt(d, xctx);
    var e := QueryValidationError(UnexpectedValue, query, [], []);
    ReducerApply(d, ext, query, []);
    var cs := Children(Reducer(d, ext), query, []);
    assert OwnErrors(d, query, []) == [e];
    var s := Run(d, ext, query);
    assert s == Reduce(d, ext, cs, query, []);
    assert s.errors == Recorded(cs) + [e];
    assert s.out == Absent;
    assert Reverse(s.errors)[0] == e;
    RootMessage(query);
  }

  lemma RootMessage(query: Doc)
    ensures QueryValidationError(UnexpectedValue, query, [], []).Message() == "unexpected value for query at '$'"
  {
  }

  /** The empty query succeeds with `$and` of no children at the root. */
  lemma EmptyQuery<T, R>(d: Dialect<T, R>, xctx: map<string, Doc>)
    requires HasMandatory(d)
    ensures var ext := InitialExt(d, xctx); var t := d.operators[And]([], Obj([]), [], OpOptions([], ext));
      Compile(d, Obj([]), xctx)
        == Success(if d.resolve.Some? then Resolved(d.resolve.value(t, Ctx([], ext))) else Artifact(t))
  {
    var ext := InitialExt(d, xctx);
    ReducerApply(d, ext, Obj([]), []);
    assert Children(Reducer(d, ext), Obj([]), []) == [];
  }

  /** `node` holds `v` at the relative path `p`, following the fold's segments. */
  predicate HoldsAt(node: Doc, p: seq<Seg>, v: Doc)
    decreases |p|
  {
    if p == [] then v == node
    else exists i :: 0 <= i < |Kids(node)| && Kids(node)[i].0 == p[0] && HoldsAt(Kids(node)[i].1, p[1..], v)
  }

  /** A recorded error points at the node it is about: its path leads from the
      folded node to the value it holds, and its data path is that path's data
      path. The engine itself never records a SchemaValidation error. */
  predicate LocatedIn(e: QueryValidationError, node: Doc, path: seq<Seg>) {
    |path| <= |e.path| && e.path[..|path|] == path && HoldsAt(node, e.path[|path|..], e.value)
    && e.dataPath == DataPath(e.path) && e.code != SchemaValidation
  }

  lemma RecordedMember<T>(cs: seq<Step<T>>, e: QueryValidationError)
    requires e in Recorded(cs)
    ensures exists i :: 0 <= i < |cs| && e in cs[i].errors
    decreases |cs|
  {
    var n := |cs| - 1;
    if e !in cs[n].errors {
      RecordedMember(cs[..n], e);
      var i :| 0 <= i < n && e in cs[..n][i].errors;
      assert cs[..n][i] == cs[i];
    }
  }

  /** A child's error, located in the child, is located in the parent. */
  lemma LocatedInParent(e: QueryValidationError, node: Doc, path: seq<Seg>, i: nat)
    requires i < |Kids(node)|
    requires LocatedIn(e, Kids(node)[i].1, path + [Kids(node)[i].0])
    ensures LocatedIn(e, node, path)
  {
    var seg := Kids(node)[i].0;
    var q := path + [seg];
    var n := |path|;
    assert e.path[..n + 1] == q;
    assert e.path[..n] == path by {
      assert forall j :: 0 <= j < n ==> e.path[j] == e.path[..n + 1][j] == q[j] == path[j];
    }
    var rel := e.path[n..];
    assert rel[0] == e.path[..n + 1][n] == seg;
    assert rel[1..] == e.path[n + 1..];
    assert HoldsAt(Kids(node)[i].1, rel[1..], e.value);
  }

  lemma {:induction false} ErrorsAreLocated<T, R>(d: Dialect<T, R>, ext: map<string, Doc>, node: Doc, path: seq<Seg>)
    requires HasMandatory(d)
    ensures forall e :: e in Fold(Reducer(d, ext), node, path).errors ==> LocatedIn(e, node, path)
    decreases node
  {
    var f := Reducer(d, ext);
    var cs := Children(f, node, path);
    ReducerApply(d, ext, node, path);
    forall e | e in Fold(f, node, path).errors
      ensures LocatedIn(e, node, path)
    {
      if e in Recorded(cs) {
        RecordedMember(cs, e);
        var i :| 0 <= i < |cs| && e in cs[i].errors;
        ChildAt(f, node, path, i);
        KidSmaller(node, i);
        ErrorsAreLocated(d, ext, Kids(node)[i].1, path + [Kids(node)[i].0]);
        LocatedInParent(e, node, path, i);
      } else {
        OwnErrorsLocated(d, node, path, e);
      }
    }
  }

  lemma OwnErrorsLocated<T, R>(d: Dialect<T, R>, node: Doc, path: seq<Seg>, e: QueryValidationError)
    requires e in OwnErrors(d, node, path)
    ensures LocatedIn(e, node, path)
  {
    var dp := DataPath(path);
    assert path[|path|..] == [];
    match RoleOf(d, path)
    case Root =>
    case OperatorNode(op) =>
      ValidateReportsOnlyItsOwnErrors(op, path, node, dp);
    case Field =>
      ValidateReportsOnlyItsOwnErrors(Eq, path, node, dp);
    case Element =>
      assert false;
    case Unsupported(_) =>
  }
  /** A leaf is reduced with no child results. */
  lemma FoldLeaf<T, R>(d: Dialect<T, R>, ext: map<string, Doc>, v: Doc, path: seq<Seg>)
    requires HasMandatory(d) && !v.Arr? && !v.Obj?
    ensures Fold(Reducer(d, ext), v, path)
         == Step(NodeOut(d, ext, [], v, path, OwnErrors(d, v, path) != []), OwnErrors(d, v, path))
  {
    ReducerApply(d, ext, v, path);
    assert Children(Reducer(d, ext), v, path) == [];
  }

  /** An object with one entry is reduced with that entry's result. */
  lemma FoldSingleEntry<T, R>(d: Dialect<T, R>, ext: map<string, Doc>, k: string, x: Doc, path: seq<Seg>)
    requires HasMandatory(d)
    ensures var c := Fold(Reducer(d, ext), x, path + [Key(k)]);
      var errs := c.errors + OwnErrors(d, Obj([(k, x)]), path);
      Fold(Reducer(d, ext), Obj([(k, x)]), path) == Step(NodeOut(d, ext, [c.out], Obj([(k, x)]), path, errs != []), errs)
  {
    var node := Obj([(k, x)]);
    var red := Reducer(d, ext);
    ReducerApply(d, ext, node, path);
    ChildAt(red, node, path, 0);
    var cs := Children(red, node, path);
    assert cs == [Fold(red, x, path + [Key(k)])];
    assert cs[..0] == [];
    assert Recorded(cs) == cs[0].errors;
    assert Outs(cs) == [cs[0].out];
  }
  /** `{ f: v }` below the root, for a value `$eq` accepts and a depth limit
      that admits one field (or none):
      the `$eq` operator's result at data path `[f]`, with no error. */
  lemma FieldLeaf<T, R>(d: Dialect<T, R>, ext: map<string, Doc>, f: string, v: Doc)
    requires HasMandatory(d) && Parse(f).None? && !v.Arr? && !v.Obj?
    requires d.dataDepth.None? || d.dataDepth.value >= 0
    ensures Fold(Reducer(d, ext), v, [Key(f)])
         == Step(Gen(d.operators[Eq]([Key(f)], v, [], OpOptions([Key(f)], ext))), [])
  {
    var p: seq<Seg> := [Key(f)];
    assert p == [] + [Key(f)];
    DataPathKey([], f);
    FieldNode(d, ext, [], v, [], f, false);
    ValidatePasses(Eq, p, v, [Key(f)]);
    assert DepthErrors(d.dataDepth, v, p, [Key(f)]) == [];
    assert OwnErrors(d, v, p) == [];
    FoldLeaf(d, ext, v, p);
  }

  /** `{ f: { op: v } }` at the operator, for an operand the operator accepts
      and a depth limit that admits one field (or none): the operator's result
      at data path `[f]`. */
  lemma OperatorLeaf<T, R>(d: Dialect<T, R>, ext: map<string, Doc>, f: string, op: Op, v: Doc)
    requires HasMandatory(d) && op in d.operators && Parse(f).None? && !v.Arr? && !v.Obj?
    requires Accepts(OperandOf(op), v)
    requires d.dataDepth.None? || d.dataDepth.value >= 0
    ensures Fold(Reducer(d, ext), v, [Key(f), Key(Name(op))])
         == Step(Gen(d.operators[op]([Key(f)], v, [], OpOptions([Key(f), Key(Name(op))], ext))), [])
  {
    var p: seq<Seg> := [Key(f)];
    var q := p + [Key(Name(op))];
    assert p == [] + [Key(f)];
    assert q == [Key(f), Key(Name(op))];
    DataPathKey([], f);
    ParseName(op);
    DataPathKey(p, Name(op));
    assert DataPath(q) == [Key(f)];
    ImplementedOperator(d, ext, [], v, p, op, false);
    ValidatePasses(op, q, v, [Key(f)]);
    assert DepthErrors(d.dataDepth, v, q, [Key(f)]) == [];
    assert OwnErrors(d, v, q) == [];
    FoldLeaf(d, ext, v, q);
  }
}
