/** The `compile` dialect of the in-memory backend: a query becomes a
    predicate on items. Here `$nor` is built exactly like `$not`. */
module JsIndex {
  import opened Wrappers
  import opened Document
  import opened Operators
  import opened Utils
  import opened Errors
  import opened Validation
  import opened Types
  import opened Folding
  import opened Converter
  import opened ConverterFacts
  import opened Grammar
  import opened JsOptions
  import opened JsPredicate

  function IndexDialect(): Dialect<Pred, Pred> {
    Dialect(SharedOperators()[Nor := NotOp], None, None, None, None)
  }

  /** The dialect implements all fifteen operators and sets no depth limit,
      so every strictly typed query compiles to a predicate. */
  lemma IndexDialectComplete()
    ensures Complete(IndexDialect()) && HasMandatory(IndexDialect())
  {
    var ops := IndexDialect().operators;
    forall op: Op ensures op in ops {
      match op
      case And => case Or => case Nor => case Not => case In => case All => case Nin =>
      case Gt => case Gte => case Lt => case Lte => case Ne => case Eq => case Like => case Exists =>
    }
  }

  /** The configuration of the `compile` dialect, read back from its
      definition: the mandatory operators, no depth limit, no `resolve`, and
      the `$and`, `$eq` and `$gt` operators that `JsPredicate` gives meaning
      to. Later lemmas use it to look the operators up. */
  lemma IndexOperators()
    ensures var d := IndexDialect();
      HasMandatory(d) && d.dataDepth.None? && d.resolve.None? &&
      d.operators[And] == AndOp && d.operators[Eq] == EqOp && d.operators[Gt] == GtOp && Gt in d.operators
  {
  }

  /** `compile(query, xctx)`: the predicate, or the error the call throws. */
  function ToPredicate(query: Doc, xctx: map<string, Doc>): (r: Result<Pred, JsError>)
    ensures r.Success? <==> Clean(IndexDialect(), query, [])
  {
    IndexDialectComplete();
    CompileSucceedsIffClean(IndexDialect(), query, xctx);
    var c := Compile(IndexDialect(), query, xctx);
    if c.Success? then Success(c.value.artifact) else Failure(c.error)
  }

  /** `$nor` holds exactly when some generated child fails: a NAND, not "none
      holds". */
  lemma NorIsNand(dp: seq<Seg>, v: Doc, kids: seq<Out<Pred>>, o: OpOptions, item: Doc, m: (Doc, Doc) -> bool)
    ensures IndexDialect().operators[Nor] == NotOp
    ensures Holds(IndexDialect().operators[Nor](dp, v, kids, o), item, m)
        <==> exists p :: Gen(p) in kids && !Holds(p, item, m)
  {
    NotMeaning(dp, v, kids, o, item, m);
  }

  /** `{ f: v }` for a field `f` and a value that `$eq` accepts is the
      predicate "the coerced field equals the coerced value", which never
      throws; the field is looked up with the data path `[f]`. */
  lemma FieldEquality(f: string, v: Doc, xctx: map<string, Doc>, item: Doc, m: (Doc, Doc) -> bool)
    requires Parse(f).None? && !v.Arr? && !v.Obj?
    ensures var r := ToPredicate(Obj([(f, v)]), xctx);
      r == Success(Every([Equals([Key(f)], v)])) &&
      Eval(r.value, item, m) == Success(StrictEq(Coerce(Get(item, [Key(f)])), Coerce(v)))
  {
    var d := IndexDialect();
    var ext := InitialExt(d, xctx);
    IndexOperators();
    FieldLeaf(d, ext, f, v);
    assert EqOp([Key(f)], v, [], OpOptions([Key(f)], ext)) == Equals([Key(f)], v);
    RootOfOne(f, v, Equals([Key(f)], v), xctx);
    EveryOfOne(Equals([Key(f)], v), item, m);
    EqualityMeaning([Key(f)], v, [], OpOptions([Key(f)], ext), item, m);
  }

  /** `$and` of one child returns what the child returns, or throws what it
      throws. */
  lemma EveryOfOne(c: Pred, item: Doc, m: (Doc, Doc) -> bool)
    ensures Eval(Every([c]), item, m) == Eval(c, item, m)
  {
    var p := Every([c]);
    assert p.kids[0] == c;
    var r := Eval(c, item, m);
    if r.Success? && r.value {
      assert Scan(p, 1, item, m) == Success(true);
    }
  }

  /** The root `{ f: x }`, when `x` compiles cleanly to `c`, compiles to `$and`
      of `c`. */
  lemma RootOfOne(f: string, x: Doc, c: Pred, xctx: map<string, Doc>)
    requires Fold(Reducer(IndexDialect(), InitialExt(IndexDialect(), xctx)), x, [Key(f)]) == Step(Gen(c), [])
    ensures ToPredicate(Obj([(f, x)]), xctx) == Success(Every([c]))
  {
    var d := IndexDialect();
    var ext := InitialExt(d, xctx);
    IndexOperators();
    var q := Obj([(f, x)]);
    FoldSingleEntry(d, ext, f, x, []);
    assert RoleOf(d, []) == Root;
    assert OwnErrors(d, q, []) == [];
    assert Gens([Gen(c)]) == [c];
    var out := NodeOut(d, ext, [Gen(c)], q, [], false);
    assert out == Gen(AndOp([], q, [Gen(c)], OpOptions([], ext)));
    assert out == Gen(Every([c]));
    assert Run(d, ext, q) == Step(out, []);
  }

  /** `{ f: { $gt: v } }` is the predicate `Number(item[f]) > Number(v)`,
      which never throws: the operator's own key is not part of the path the
      field is read at. */
  lemma FieldGreater(f: string, v: Doc, xctx: map<string, Doc>, item: Doc, m: (Doc, Doc) -> bool)
    requires Parse(f).None? && v.Num?
    ensures var r := ToPredicate(Obj([(f, Obj([("$gt", v)]))]), xctx);
      r == Success(Every([Every([Compare(Greater, [Key(f)], v)])])) &&
      Eval(r.value, item, m) == Success(ToNumber(Get(item, [Key(f)])).Some? && ToNumber(Get(item, [Key(f)])).value > v.n)
  {
    var c := Compare(Greater, [Key(f)], v);
    GreaterCompiles(f, v, xctx);
    EveryOfOne(Every([c]), item, m);
    EveryOfOne(c, item, m);
    var x := ToNumber(Get(item, [Key(f)]));
    assert Eval(c, item, m) == Success(x.Some? && x.value > v.n);
  }

  lemma GreaterCompiles(f: string, v: Doc, xctx: map<string, Doc>)
    requires Parse(f).None? && v.Num?
    ensures ToPredicate(Obj([(f, Obj([("$gt", v)]))]), xctx) == Success(Every([Every([Compare(Greater, [Key(f)], v)])]))
  {
    var d := IndexDialect();
    var ext := InitialExt(d, xctx);
    IndexOperators();
    ParseName(Gt);
    OperatorLeaf(d, ext, f, Gt, v);
    FieldOfOne(f, "$gt", v, Compare(Greater, [Key(f)], v), ext);
    RootOfOne(f, Obj([("$gt", v)]), Every([Compare(Greater, [Key(f)], v)]), xctx);
  }

  /** The field expression `{ k: x }` under `f`, when `x` compiles cleanly to
      `c`, compiles to `$and` of `c`. */
  lemma FieldOfOne(f: string, k: string, x: Doc, c: Pred, ext: map<string, Doc>)
    requires Parse(f).None?
    requires Fold(Reducer(IndexDialect(), ext), x, [Key(f), Key(k)]) == Step(Gen(c), [])
    ensures Fold(Reducer(IndexDialect(), ext), Obj([(k, x)]), [Key(f)]) == Step(Gen(Every([c])), [])
  {
    var d := IndexDialect();
    IndexOperators();
    var p: seq<Seg> := [Key(f)];
    assert p == [] + [Key(f)];
    assert [Key(f), Key(k)] == p + [Key(k)];
    FoldSingleEntry(d, ext, k, x, p);
    FieldNode(d, ext, [Gen(c)], Obj([(k, x)]), [], f, false);
    assert OwnErrors(d, Obj([(k, x)]), p) == [];
    assert Gens([Gen(c)]) == [c];
    var out := NodeOut(d, ext, [Gen(c)], Obj([(k, x)]), p, false);
    assert out == Gen(AndOp(DataPath(p), Obj([(k, x)]), [Gen(c)], OpOptions(p, ext)));
    assert out == Gen(Every([c]));
  }
}
