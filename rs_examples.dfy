/** Whole calls of the RediSearch backend on the shapes its test suite uses:
    what the compiler makes of a one-field query, and the tuples
    `toRedisSearch` returns or the errors it throws. */
module RsExamples {
  import opened Wrappers
  import opened Text
  import opened Document
  import opened Operators
  import opened Utils
  import opened Errors
  import opened Validation
  import opened Types
  import opened Folding
  import opened Converter
  import opened ConverterFacts
  import opened RsOptions
  import opened RsFilter
  import opened RsFacts
  import opened RsSort
  import opened RsPaginate
  import opened RsIndex

  /** The configuration of the RediSearch dialect, read back from its
      definition: the mandatory operators, `dataDepth` 1, no hooks, and no
      `$exists`. The examples below use it to look the operators up. */
  lemma RsOperators()
    ensures var d := RsDialect();
      HasMandatory(d) && d.dataDepth == Some(1) && d.resolve.None? && d.reject.None? && d.extendCtx.None? &&
      d.operators[And] == AndOp && d.operators[Eq] == EqOp && Exists !in d.operators
  {
  }

  /** `{ f: v }`, for a field and a value `$eq` accepts, compiles to `$and`
      of the one match clause on `f`. */
  lemma FieldEquality(f: string, v: Doc)
    requires Parse(f).None? && !v.Arr? && !v.Obj?
    ensures RsCompile(Obj([(f, v)])) == Success(Group(AndGroup, [Match(f, v, false)]))
  {
    FieldMatch(f, v);
    RootOfOne(f, v, Match(f, v, false));
  }

  /** The value of a field `f` that `$eq` accepts folds, without errors, to the
      match clause on `f`. */
  lemma FieldMatch(f: string, v: Doc)
    requires Parse(f).None? && !v.Arr? && !v.Obj?
    ensures Fold(Reducer(RsDialect(), InitialExt(RsDialect(), map[])), v, [Key(f)]) == Step(Gen(Match(f, v, false)), [])
  {
    var d := RsDialect();
    var ext := InitialExt(d, map[]);
    RsOperators();
    FieldLeaf(d, ext, f, v);
    assert EqOp([Key(f)], v, [], OpOptions([Key(f)], ext)) == Match(f, v, false);
  }

  /** The root `{ f: x }`, when `x` folds cleanly to `c`, compiles to `$and`
      of `c`. */
  lemma RootOfOne(f: string, x: Doc, c: Clause)
    requires Fold(Reducer(RsDialect(), InitialExt(RsDialect(), map[])), x, [Key(f)]) == Step(Gen(c), [])
    ensures RsCompile(Obj([(f, x)])) == Success(Group(AndGroup, [c]))
  {
    var d := RsDialect();
    var ext := InitialExt(d, map[]);
    RsOperators();
    var q := Obj([(f, x)]);
    FoldSingleEntry(d, ext, f, x, []);
    assert RoleOf(d, []) == Root;
    assert OwnErrors(d, q, []) == [];
    assert Gens([Gen(c)]) == [c];
    var out := NodeOut(d, ext, [Gen(c)], q, [], false);
    assert out == Gen(AndOp([], q, [Gen(c)], OpOptions([], ext)));
    assert out == Gen(Group(AndGroup, [c]));
    assert Run(d, ext, q) == Step(out, []);
  }

  /** `toRedisSearch(['idx'], {})`: nothing to compile, the text is '*' and
      the options are `{ DIALECT: 2 }`. */
  lemma EmptyQuery()
    ensures Convert(BaseQuery("idx", None, None), []) == Success(("idx", "*", Options(Some(2), None, None, None)))
  {
    assert Conditions([]) == [];
    assert FieldValue([], "$sort") == Undefined;
  }

  /** `toRedisSearch(['idx'], { age: 30 })`, the entry point of `index.ts`
      called with a base query and the query of the `$eq` test on `age`
      (which passes the query alone): the number is matched as a one-value
      range and stored under its own placeholder. */
  lemma AgeEquals()
    ensures Convert(BaseQuery("idx", None, None), [("age", Num(30))])
         == Success(("idx", "@age:[$age $age]", Options(Some(2), Some(map["age" := Num(30)]), None, None)))
  {
    var query := [("age", Num(30))];
    var base := BaseQuery("idx", None, None);
    var run := Group(AndGroup, [Match("age", Num(30), false)]);
    var g := "@age:[$age $age]";
    AgeCompiled();
    AgeRendered();
    assert Start(base) == ("idx", "", Options(Some(2), None, None, None));
    WithConditions(base, query, run, g);
    SpaceThenText(g);
    NoOptionKeys(query, Options(Some(2), Some(map["age" := Num(30)]), None, None));
  }

  lemma AgeCompiled()
    ensures Conditions([("age", Num(30))]) == [("age", Num(30))]
    ensures RsCompile(Obj([("age", Num(30))])) == Success(Group(AndGroup, [Match("age", Num(30), false)]))
  {
    var query := [("age", Num(30))];
    assert query[..0] == [];
    assert Parse("age").None?;
    FieldEquality("age", Num(30));
  }

  lemma AgeRendered()
    ensures RenderSpec(Group(AndGroup, [Match("age", Num(30), false)]), None)
         == Outcome(Some("@age:[$age $age]"), Some(map["age" := Num(30)]))
  {
    assert WordName("age");
    MatchNumber("age", 30, false, None);
    AgeText();
    SingleAnd(Match("age", Num(30), false), None);
  }

  lemma AgeText()
    ensures Some(Created(None)["age" := Num(30)]) == Some(map["age" := Num(30)])
    ensures (if false then "-@" else "@") + "age" + ":[$" + "age" + " $" + "age" + "]" == "@age:[$age $age]"
  {
  }

  /** A query without option keys leaves the options as the filter left them. */
  lemma NoOptionKeys(query: seq<(string, Doc)>, o: Options)
    requires forall i :: 0 <= i < |query| ==> !IsOptionKey(query[i].0)
    ensures Arranged(query, o) == o
  {
    NoOptionValue(query, "$sort");
    NoOptionValue(query, "$skip");
    NoOptionValue(query, "$limit");
  }

  lemma {:induction false} NoOptionValue(query: seq<(string, Doc)>, k: string)
    requires IsOptionKey(k) && forall i :: 0 <= i < |query| ==> !IsOptionKey(query[i].0)
    ensures FieldValue(query, k) == Undefined
    decreases |query|
  {
    if query != [] {
      NoOptionValue(query[1..], k);
    }
  }

  /** Trimming the base text '' joined to a generated text gives back the
      generated text. */
  lemma SpaceThenText(g: string)
    requires g != [] && !IsSpace(g[0]) && !IsSpace(g[|g| - 1])
    ensures Trim("" + " " + g) == g
  {
    var s := "" + " " + g;
    assert s[0] == ' ' && s[1..] == g;
    assert TrimStart(s) == TrimStart(g) == g;
    assert TrimEnd(g) == g;
  }

  /** `toRedisSearch(['idx'], { $sort: { age: -1 }, $limit: 5 })`: no filter,
      descending order on `age`, and the first five results. */
  lemma SortAndLimit()
    ensures Convert(BaseQuery("idx", None, None), [("$sort", Obj([("age", Num(-1))])), ("$limit", Num(5))])
         == Success(("idx", "*", Options(Some(2), None, Some(SortBy("age", Desc)), Some(Page(Num(0), Num(5))))))
  {
    var query := [("$sort", Obj([("age", Num(-1))])), ("$limit", Num(5))];
    assert query[..1][..0] == [] && query[..1] == [query[0]];
    assert Conditions(query[..1]) == [];
    assert Conditions(query) == [];
    assert FieldValue(query, "$sort") == Obj([("age", Num(-1))]);
    assert FieldValue(query, "$limit") == Num(5);
    assert FieldValue(query, "$skip") == Undefined;
    assert SortOrder(Obj([("age", Num(-1))])) == Some(SortBy("age", Desc));
  }

  /** `toRedisSearch(['idx'], { f: { $exists: b } })` throws for every field
      `f`: the RediSearch dialect has no `$exists`. The `$exists` tests pass
      the query alone; here it is the second argument, as the entry point of
      `index.ts` takes it. */
  lemma ExistsNotSupported(f: string, b: bool)
    requires Parse(f).None? && !IsOptionKey(f)
    ensures Convert(BaseQuery("idx", None, None), [(f, Obj([("$exists", Bool(b))]))])
         == Failure(Rejected(JsError("Error", "QueryValidationError" + ": " + "'" + "$exists" + "' operator not supported at '" + "$." + f + "." + "$exists" + "'")))
  {
    var query := [(f, Obj([("$exists", Bool(b))]))];
    assert query[..0] == [];
    assert Conditions(query) == query;
    ExistsCompiled(f, b);
    RejectedFilter(BaseQuery("idx", None, None), query, JsError("Error", ErrorsText([ExistsError(f, b)])));
    ExistsMessage(f, b);
  }

  /** The error compiling `{ f: { $exists: b } }` throws. */
  lemma ExistsCompiled(f: string, b: bool)
    requires Parse(f).None?
    ensures RsCompile(Obj([(f, Obj([("$exists", Bool(b))]))])) == Failure(JsError("Error", ErrorsText([ExistsError(f, b)])))
  {
    var e := ExistsError(f, b);
    ExistsRun(f, b);
    assert Reverse([e]) == [e];
  }

  /** Folding the query ends without a generator at the root, with the one
      error. */
  lemma ExistsRun(f: string, b: bool)
    requires Parse(f).None?
    ensures var d := RsDialect();
      HasMandatory(d) && Run(d, InitialExt(d, map[]), Obj([(f, Obj([("$exists", Bool(b))]))])) == Step(Absent, [ExistsError(f, b)])
  {
    var d := RsDialect();
    var ext := InitialExt(d, map[]);
    RsOperators();
    var e := ExistsError(f, b);
    ExistsFolded(f, b);
    var node := Obj([("$exists", Bool(b))]);
    var q := Obj([(f, node)]);
    FoldSingleEntry(d, ext, f, node, []);
    assert RoleOf(d, []) == Root;
    assert OwnErrors(d, q, []) == [];
    assert [e] + [] == [e];
  }

  /** The error `$exists` records under `f`. */
  function ExistsError(f: string, b: bool): QueryValidationError {
    QueryValidationError(OperatorNotSupported, Bool(b), [Key(f), Key("$exists")], [Key(f)])
  }

  /** The field `f` folds with the one error of its unsupported child. */
  lemma ExistsFolded(f: string, b: bool)
    requires Parse(f).None?
    ensures var d := RsDialect();
      Fold(Reducer(d, InitialExt(d, map[])), Obj([("$exists", Bool(b))]), [Key(f)]).errors == [ExistsError(f, b)]
  {
    var d := RsDialect();
    var ext := InitialExt(d, map[]);
    RsOperators();
    var p: seq<Seg> := [Key(f)];
    var node := Obj([("$exists", Bool(b))]);
    ExistsLeaf(f, b);
    FoldSingleEntry(d, ext, "$exists", Bool(b), p);
    FieldNode(d, ext, [Absent], node, [], f, true);
    assert p == [] + [Key(f)];
    assert OwnErrors(d, node, p) == [];
    assert [ExistsError(f, b)] + [] == [ExistsError(f, b)];
  }

  /** `$exists` under `f` is handed on as absent, with its one error. */
  lemma ExistsLeaf(f: string, b: bool)
    requires Parse(f).None?
    ensures var d := RsDialect();
      Fold(Reducer(d, InitialExt(d, map[])), Bool(b), [Key(f)] + [Key("$exists")]) == Step(Absent, [ExistsError(f, b)])
  {
    var d := RsDialect();
    var ext := InitialExt(d, map[]);
    RsOperators();
    var p: seq<Seg> := [Key(f)];
    var p2 := p + [Key(Name(Exists))];
    assert p2 == [Key(f), Key("$exists")];
    DataPathKey([], f);
    assert p == [] + [Key(f)];
    assert Parse("$exists") == Some(Exists);
    DataPathKey(p, "$exists");
    assert DataPath(p2) == [Key(f)];
    FoldLeaf(d, ext, Bool(b), p2);
    UnsupportedOperator(d, ext, [], Bool(b), p, Exists, true);
  }

  lemma ExistsMessage(f: string, b: bool)
    ensures ErrorsText([ExistsError(f, b)])
         == "QueryValidationError" + ": " + "'" + "$exists" + "' operator not supported at '" + "$." + f + "." + "$exists" + "'"
  {
    var e := ExistsError(f, b);
    var s := "' operator not supported at '";
    assert PathText([Key(f)]) == "$" + "." + f;
    assert "$" + "." == "$.";
    assert PathText(e.path) == "$." + f + "." + "$exists";
    assert LastText(e.path) == "$exists";
    assert e.Details() == "$exists" + s + ("$." + f + "." + "$exists") + "'";
    assert e.Message() == "'" + e.Details();
    assert ErrorText(e) == "QueryValidationError" + ": " + e.Message();
    var ts := seq(1, i requires 0 <= i < 1 => ErrorText([e][i]));
    assert ts == [ErrorText(e)];
    Regroup("QueryValidationError", ": ", "'", "$exists", s, "$.", f, ".");
  }

  lemma Regroup(q: string, colon: string, quote: string, op: string, s: string, root: string, f: string, dot: string)
    ensures q + colon + (quote + (op + s + (root + f + dot + op) + quote))
         == q + colon + quote + op + s + root + f + dot + op + quote
  {
  }
}
