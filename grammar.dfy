/** The typed query grammar `CriteruimQuery<T>` / `CriteruimExpression<T>`:
    which documents the declared types admit for a record schema, and what
    the compiler does with a document of that shape. */
module Grammar {
  import opened Wrappers
  import opened Document
  import opened Operators
  import opened Utils
  import opened Validation
  import opened Types
  import opened Folding
  import opened Converter
  import opened ConverterFacts

  /** The field types the grammar distinguishes. `Boolean` stands for every
      type that is neither an object, an array, a number nor a string: its
      expression type is `never`. */
  datatype FieldType =
    | NumberT
    | StringT
    | BooleanT
    | ArrayT(elem: FieldType)
    | ObjectT(fields: seq<(string, FieldType)>)

  /** The type of the first field named `k`. */
  function FieldTypeOf(fields: seq<(string, FieldType)>, k: string): (r: Option<FieldType>)
    ensures r.Some? ==> exists i :: 0 <= i < |fields| && fields[i] == (k, r.value)
    ensures r.None? ==> forall i :: 0 <= i < |fields| ==> fields[i].0 != k
  {
    if fields == [] then None
    else if fields[0].0 == k then Some(fields[0].1)
    else FieldTypeOf(fields[1..], k)
  }

  /** No field name, at any depth, is one of the fifteen operator names. */
  predicate WellNamedType(t: FieldType) {
    match t
    case ArrayT(e) => WellNamedType(e)
    case ObjectT(fs) => forall i :: 0 <= i < |fs| ==> Parse(fs[i].0).None? && WellNamedType(fs[i].1)
    case _ => true
  }

  predicate WellNamed(fields: seq<(string, FieldType)>) {
    WellNamedType(ObjectT(fields))
  }

  /** A literal value of a scalar type. */
  predicate Literal(t: FieldType, v: Doc) {
    (t.NumberT? && v.Num?) || (t.StringT? && v.Str?)
  }

  /** An array of literals of type `t`. */
  predicate Literals(t: FieldType, v: Doc) {
    v.Arr? && forall j :: 0 <= j < |v.items| ==> Literal(t, v.items[j])
  }

  /** The operand an operator other than `$not` and `$exists` takes on a field
      of type `t`: numbers allow the comparisons, `$eq`, `$ne`, `$in` and
      `$nin`; strings allow `$eq`, `$ne`, `$like`, `$in` and `$nin`; arrays
      allow `$all` with an array of the element type. */
  predicate OperandFits(t: FieldType, op: Op, x: Doc) {
    match t
    case NumberT =>
      ((op == Gt || op == Gte || op == Lt || op == Lte || op == Eq || op == Ne) && x.Num?)
      || ((op == In || op == Nin) && Literals(NumberT, x))
    case StringT =>
      ((op == Eq || op == Ne || op == Like) && x.Str?)
      || ((op == In || op == Nin) && Literals(StringT, x))
    case ArrayT(e) => op == All && Literals(e, x)
    case _ => false
  }

  /** `CriteruimExpression<T>`. A number or string field also admits a bare
      value; every other form is an object of entries. `corrected` chooses
      between the type as declared and the type its branches evidently
      intend. As declared (`corrected` false), `T extends object` is tested
      before `T extends Array<any>`, so an array field takes the mapped form
      of its array type, an array of element expressions, and never reaches
      the `$all` arm; and `$not` takes any expression of the field's type,
      bare values included. Corrected, an array field takes the `$all` arm,
      and `$not` takes only the object form of an expression. */
  predicate ExprFits(t: FieldType, v: Doc, corrected: bool)
    decreases v, 1
  {
    !t.BooleanT? &&
    if t.ArrayT? && !corrected then
      v.Arr? && forall j :: 0 <= j < |v.items| ==> ExprFits(t.elem, v.items[j], corrected)
    else
      match v
      case Obj(fs) => forall i :: 0 <= i < |fs| ==> EntryFits(t, fs[i].0, fs[i].1, corrected)
      case _ => Literal(t, v)
  }

  predicate EntryFits(t: FieldType, k: string, x: Doc, corrected: bool)
    decreases x, 2
  {
    match Parse(k)
    case Some(Not) => (corrected ==> x.Obj?) && ExprFits(t, x, corrected)
    case Some(Exists) => x.Bool?
    case Some(op) => OperandFits(t, op, x)
    case None => t.ObjectT? && FieldTypeOf(t.fields, k).Some? && ExprFits(FieldTypeOf(t.fields, k).value, x, corrected)
  }

  /** `CriteruimQuery<T>`: an object of optional `$and`, `$or` and `$nor`
      arrays of sub-queries and optional expressions for fields. */
  predicate QueryFits(schema: seq<(string, FieldType)>, q: Doc, corrected: bool)
    decreases q, 1
  {
    match q
    case Obj(fs) => forall i :: 0 <= i < |fs| ==> QueryEntryFits(schema, fs[i].0, fs[i].1, corrected)
    case _ => false
  }

  predicate QueryEntryFits(schema: seq<(string, FieldType)>, k: string, x: Doc, corrected: bool)
    decreases x, 2
  {
    if Parse(k).Some? && IsLogicalArray(Parse(k).value) then
      match x
      case Arr(qs) => forall j :: 0 <= j < |qs| ==> QueryFits(schema, qs[j], corrected)
      case _ => false
    else FieldTypeOf(schema, k).Some? && ExprFits(FieldTypeOf(schema, k).value, x, corrected)
  }

  /** The query type as declared. */
  predicate Conforms(schema: seq<(string, FieldType)>, q: Doc) {
    QueryFits(schema, q, false)
  }

  /** The corrected query type: array fields take `$all`, and `$not` takes
      only the object form of an expression. */
  predicate ConformsCorrected(schema: seq<(string, FieldType)>, q: Doc) {
    QueryFits(schema, q, true)
  }

  /** A dialect that implements every operator and sets no depth limit. */
  predicate Complete<T, R>(d: Dialect<T, R>) {
    (forall op: Op :: op in d.operators) && (d.dataDepth.None? || d.dataDepth.value == 0)
  }

  /** `{ age: { $not: 5 } }` has the declared type for a numeric `age`, yet
      every dialect rejects it: `$not` demands a plain object. */
  lemma BareNotConformsButFails<T, R>(d: Dialect<T, R>, xctx: map<string, Doc>)
    requires HasMandatory(d)
    ensures var q := Obj([("age", Obj([("$not", Num(5))]))]);
      Conforms([("age", NumberT)], q) && Compile(d, q, xctx).Failure?
  {
    var q := Obj([("age", Obj([("$not", Num(5))]))]);
    BareNotConforms();
    BareNotUnclean(d);
    CompileSucceedsIffClean(d, q, xctx);
  }

  lemma BareNotConforms()
    ensures Conforms([("age", NumberT)], Obj([("age", Obj([("$not", Num(5))]))]))
  {
    var schema := [("age", NumberT)];
    var inner := Obj([("$not", Num(5))]);
    assert Parse("$not") == Some(Not) by { ParseName(Not); }
    assert Parse("age").None?;
    assert EntryFits(NumberT, "$not", Num(5), false);
    assert FieldTypeOf(schema, "age") == Some(NumberT);
    assert QueryEntryFits(schema, "age", inner, false);
  }

  lemma BareNotUnclean<T, R>(d: Dialect<T, R>)
    ensures !Clean(d, Obj([("age", Obj([("$not", Num(5))]))]), [])
  {
    var inner := Obj([("$not", Num(5))]);
    var q := Obj([("age", inner)]);
    assert Parse("$not") == Some(Not) by { ParseName(Not); }
    var p: seq<Seg> := [Key("age"), Key("$not")];
    assert p == [Key("age")] + [Key("$not")];
    DataPathKey([Key("age")], "$not");
    DataPathKey([], "age");
    assert OwnErrors(d, Num(5), p) != [];
    assert !Clean(d, inner, [Key("age")]) by {
      assert Kids(inner)[0] == (Key("$not"), Num(5));
      CleanKidAt(d, inner, [Key("age")], 0);
    }
    assert Kids(q)[0] == (Key("age"), inner);
    CleanKidAt(d, q, [], 0);
  }

  lemma FieldTypeOfWellNamed(fields: seq<(string, FieldType)>, k: string)
    requires WellNamed(fields) && FieldTypeOf(fields, k).Some?
    ensures Parse(k).None? && WellNamedType(FieldTypeOf(fields, k).value)
  {
    var i :| 0 <= i < |fields| && fields[i] == (k, FieldTypeOf(fields, k).value);
  }

  /** A field of a conforming shape compiles without error. */
  lemma {:induction false} FieldClean<T, R>(d: Dialect<T, R>, t: FieldType, v: Doc, p: seq<Seg>, k: string)
    requires Complete(d) && WellNamedType(t) && ExprFits(t, v, true)
    requires Parse(k).None?
    ensures Clean(d, v, p + [Key(k)])
    decreases v, 1
  {
    var q := p + [Key(k)];
    assert q[|q| - 1] == Key(k);
    DataPathKey(p, k);
    assert RoleOf(d, q) == Field;
    if v.Obj? {
      EntriesClean(d, t, v, q);
    } else {
      ValidatePasses(Eq, q, v, DataPath(q));
    }
  }

  /** The entries of a conforming object expression compile without error,
      given that the expression stands under some field. */
  lemma {:induction false} EntriesClean<T, R>(d: Dialect<T, R>, t: FieldType, v: Doc, p: seq<Seg>)
    requires Complete(d) && WellNamedType(t) && v.Obj? && ExprFits(t, v, true) && |DataPath(p)| > 0
    ensures CleanKids(d, v, p)
    decreases v, 0
  {
    forall i | 0 <= i < |v.fields|
      ensures Clean(d, v.fields[i].1, p + [Key(v.fields[i].0)])
    {
      EntryClean(d, t, v.fields[i].0, v.fields[i].1, p);
    }
  }

  lemma {:induction false} EntryClean<T, R>(d: Dialect<T, R>, t: FieldType, k: string, x: Doc, p: seq<Seg>)
    requires Complete(d) && WellNamedType(t) && EntryFits(t, k, x, true) && |DataPath(p)| > 0
    ensures Clean(d, x, p + [Key(k)])
    decreases x, 3
  {
    if Parse(k).None? {
      FieldTypeOfWellNamed(t.fields, k);
      FieldClean(d, FieldTypeOf(t.fields, k).value, x, p, k);
    } else {
      OperatorEntryClean(d, t, k, x, p);
    }
  }

  /** An operator entry of a conforming field expression compiles without
      error. */
  lemma {:induction false} OperatorEntryClean<T, R>(d: Dialect<T, R>, t: FieldType, k: string, x: Doc, p: seq<Seg>)
    requires Complete(d) && WellNamedType(t) && EntryFits(t, k, x, true) && |DataPath(p)| > 0
    requires Parse(k).Some?
    ensures Clean(d, x, p + [Key(k)])
    decreases x, 2
  {
    var op := Parse(k).value;
    var q := p + [Key(k)];
    assert q[|q| - 1] == Key(k);
    DataPathKey(p, k);
    assert RoleOf(d, q) == OperatorNode(op);
    assert DataPath(q) == DataPath(p);
    OperatorEntryAccepted(t, k, x);
    ValidatePasses(op, q, x, DataPath(q));
    if op == Not {
      EntriesClean(d, t, x, q);
    } else if x.Arr? {
      forall j | 0 <= j < |x.items|
        ensures Clean(d, x.items[j], q + [Idx(j)])
      {
        ElementNode(d, map[], [], x.items[j], q, j, false);
      }
    }
  }

  /** The operand of a conforming operator entry is one its operator accepts. */
  lemma OperatorEntryAccepted(t: FieldType, k: string, x: Doc)
    requires EntryFits(t, k, x, true) && Parse(k).Some?
    ensures Accepts(OperandOf(Parse(k).value), x)
  {
  }

  /** The sub-queries and field expressions of a conforming query compile
      without error. */
  lemma {:induction false} QueryKidsClean<T, R>(d: Dialect<T, R>, schema: seq<(string, FieldType)>, q: Doc, p: seq<Seg>)
    requires Complete(d) && WellNamed(schema) && QueryFits(schema, q, true)
    ensures CleanKids(d, q, p)
    decreases q, 1
  {
    forall i | 0 <= i < |q.fields|
      ensures Clean(d, q.fields[i].1, p + [Key(q.fields[i].0)])
    {
      QueryEntryClean(d, schema, q.fields[i].0, q.fields[i].1, p);
    }
  }

  lemma {:induction false} QueryEntryClean<T, R>(d: Dialect<T, R>, schema: seq<(string, FieldType)>, k: string, x: Doc, p: seq<Seg>)
    requires Complete(d) && WellNamed(schema) && QueryEntryFits(schema, k, x, true)
    ensures Clean(d, x, p + [Key(k)])
    decreases x, 0
  {
    var q := p + [Key(k)];
    assert q[|q| - 1] == Key(k);
    if Parse(k).Some? && IsLogicalArray(Parse(k).value) {
      var op := Parse(k).value;
      assert RoleOf(d, q) == OperatorNode(op);
      ValidatePasses(op, q, x, DataPath(q));
      forall j | 0 <= j < |x.items|
        ensures Clean(d, x.items[j], q + [Idx(j)])
      {
        ElementNode(d, map[], [], x.items[j], q, j, false);
        QueryKidsClean(d, schema, x.items[j], q + [Idx(j)]);
      }
    } else {
      FieldTypeOfWellNamed(schema, k);
      FieldClean(d, FieldTypeOf(schema, k).value, x, p, k);
    }
  }

  /** Corrected grammar: a query of the corrected type, over a schema whose
      field names are not operator names, compiles without any error on a
      dialect that implements every operator and sets no depth limit. */
  lemma CorrectedQueriesCompile<T, R>(d: Dialect<T, R>, schema: seq<(string, FieldType)>, q: Doc, xctx: map<string, Doc>)
    requires Complete(d) && WellNamed(schema) && ConformsCorrected(schema, q)
    ensures Clean(d, q, []) && Compile(d, q, xctx).Success?
  {
    QueryKidsClean(d, schema, q, []);
    CompileSucceedsIffClean(d, q, xctx);
  }

  /** As declared, `$all` cannot be written: for a `string[]` field `tags`,
      `{ tags: { $all: ['a'] } }` lacks the declared type and
      `{ tags: ['a'] }` has it; the corrected type takes the first and
      refuses the second. */
  lemma AllUntypeable()
    ensures var schema := [("tags", ArrayT(StringT))];
      var all := Obj([("tags", Obj([("$all", Arr([Str("a")]))]))]);
      var bare := Obj([("tags", Arr([Str("a")]))]);
      !Conforms(schema, all) && Conforms(schema, bare)
      && ConformsCorrected(schema, all) && !ConformsCorrected(schema, bare)
  {
    var schema := [("tags", ArrayT(StringT))];
    var inner := Obj([("$all", Arr([Str("a")]))]);
    var bare := Arr([Str("a")]);
    assert FieldTypeOf(schema, "tags") == Some(ArrayT(StringT));
    assert Parse("tags").None?;
    AllEntry();
    assert !QueryEntryFits(schema, "tags", inner, false);
    assert QueryEntryFits(schema, "tags", inner, true);
    assert QueryEntryFits(schema, "tags", bare, false);
    assert !QueryEntryFits(schema, "tags", bare, true);
    OneEntryQuery(schema, "tags", inner, false);
    OneEntryQuery(schema, "tags", inner, true);
    OneEntryQuery(schema, "tags", bare, false);
    OneEntryQuery(schema, "tags", bare, true);
  }

  lemma AllEntry()
    ensures ExprFits(ArrayT(StringT), Obj([("$all", Arr([Str("a")]))]), true)
  {
    assert Parse("$all") == Some(All) by { ParseName(All); }
    assert EntryFits(ArrayT(StringT), "$all", Arr([Str("a")]), true);
  }

  lemma OneEntryQuery(schema: seq<(string, FieldType)>, k: string, x: Doc, corrected: bool)
    ensures QueryFits(schema, Obj([(k, x)]), corrected) == QueryEntryFits(schema, k, x, corrected)
  {
    assert Obj([(k, x)]).fields[0] == (k, x);
  }

  /** No array type at any depth. */
  predicate ArrayFreeType(t: FieldType) {
    match t
    case ArrayT(_) => false
    case ObjectT(fs) => forall i :: 0 <= i < |fs| ==> ArrayFreeType(fs[i].1)
    case _ => true
  }

  lemma FieldTypeOfArrayFree(fields: seq<(string, FieldType)>, k: string)
    requires ArrayFreeType(ObjectT(fields)) && FieldTypeOf(fields, k).Some?
    ensures ArrayFreeType(FieldTypeOf(fields, k).value)
  {
    var i :| 0 <= i < |fields| && fields[i] == (k, FieldTypeOf(fields, k).value);
  }

  /** Over a schema without array fields, where the two readings order their
      arms alike, every query of the corrected type has the declared type. */
  lemma {:induction false} CorrectedConforms(schema: seq<(string, FieldType)>, q: Doc)
    requires ArrayFreeType(ObjectT(schema)) && ConformsCorrected(schema, q)
    ensures Conforms(schema, q)
  {
    CorrectedQueryFits(schema, q);
  }

  lemma {:induction false} CorrectedQueryFits(schema: seq<(string, FieldType)>, q: Doc)
    requires ArrayFreeType(ObjectT(schema)) && QueryFits(schema, q, true)
    ensures QueryFits(schema, q, false)
    decreases q, 1
  {
    forall i | 0 <= i < |q.fields|
      ensures QueryEntryFits(schema, q.fields[i].0, q.fields[i].1, false)
    {
      var k := q.fields[i].0;
      var x := q.fields[i].1;
      if Parse(k).Some? && IsLogicalArray(Parse(k).value) {
        forall j | 0 <= j < |x.items|
          ensures QueryFits(schema, x.items[j], false)
        {
          CorrectedQueryFits(schema, x.items[j]);
        }
      } else {
        FieldTypeOfArrayFree(schema, k);
        CorrectedExprFits(FieldTypeOf(schema, k).value, x);
      }
    }
  }

  lemma {:induction false} CorrectedExprFits(t: FieldType, v: Doc)
    requires ArrayFreeType(t) && ExprFits(t, v, true)
    ensures ExprFits(t, v, false)
    decreases v, 1
  {
    if v.Obj? {
      forall i | 0 <= i < |v.fields|
        ensures EntryFits(t, v.fields[i].0, v.fields[i].1, false)
      {
        var k := v.fields[i].0;
        var x := v.fields[i].1;
        if Parse(k) == Some(Not) {
          CorrectedExprFits(t, x);
        } else if Parse(k).None? {
          FieldTypeOfArrayFree(t.fields, k);
          CorrectedExprFits(FieldTypeOf(t.fields, k).value, x);
        }
      }
    }
  }
}
