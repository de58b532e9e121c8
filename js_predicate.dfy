/** The predicates the in-memory backend compiles a query into, and what they
    mean on an item. The fifteen operator functions are shared by the two
    dialects of the backend, which differ only in `$nor`. */
module JsPredicate {
  import opened Wrappers
  import opened Document
  import opened Operators
  import opened Errors
  import opened Types
  import opened JsOptions

  /** `coerce`: a non-boolean value that converts to a number becomes that
      number; any other value is left as it is. */
  function Coerce(v: Doc): (r: Doc)
    ensures r.Num? || r == v
    ensures !v.Bool? && ToNumber(v).Some? ==> r == Num(ToNumber(v).value)
    ensures v.Bool? || IsNaN(v) ==> r == v
  {
    if !v.Bool? && ToNumber(v).Some? then Num(ToNumber(v).value) else v
  }

  /** `a === b`: primitives are equal by value; objects, arrays, dates and
      regular expressions only to themselves, and every value taken from the
      query is a different object from every value of the data. */
  predicate StrictEq(a: Doc, b: Doc) {
    match a
    case Undefined => b.Undefined?
    case Null => b.Null?
    case Bool(x) => b.Bool? && b.b == x
    case Num(x) => b.Num? && b.n == x
    case Str(x) => b.Str? && b.s == x
    case _ => false
  }

  /** `Array.from(v)`: None where it throws (undefined and null), the
      characters of a string, the elements of an array, and nothing for any
      other value. */
  function ArrayFrom(v: Doc): Option<seq<Doc>> {
    match v
    case Undefined => None
    case Null => None
    case Str(s) => Some(seq(|s|, i requires 0 <= i < |s| => Str([s[i]])))
    case Arr(xs) => Some(xs)
    case _ => Some([])
  }

  /** `values.some((value) => coerce(value) === x)`. */
  function SomeEqual(values: seq<Doc>, x: Doc): bool {
    if values == [] then false else StrictEq(Coerce(values[0]), x) || SomeEqual(values[1..], x)
  }

  /** `nested.includes(x)` for the coerced elements `nested`. */
  function Includes(nested: seq<Doc>, x: Doc): bool {
    if nested == [] then false else StrictEq(Coerce(nested[0]), x) || Includes(nested[1..], x)
  }

  /** `values.every((value) => nested.includes(coerce(value)))`. */
  function EveryIncluded(values: seq<Doc>, nested: seq<Doc>): bool {
    if values == [] then true else Includes(nested, Coerce(values[0])) && EveryIncluded(values[1..], nested)
  }

  datatype Relation = Greater | GreaterEq | Less | LessEq

  /** A compiled predicate `(item) => boolean`. */
  datatype Pred =
    | Every(kids: seq<Pred>)
    | Any(kids: seq<Pred>)
    | NotEvery(kids: seq<Pred>)
    | NoneHold(kids: seq<Pred>)
    | ContainsAll(path: seq<Seg>, values: seq<Doc>)
    | OneOf(path: seq<Seg>, values: seq<Doc>)
    | NoneOf(path: seq<Seg>, values: seq<Doc>)
    | Compare(rel: Relation, path: seq<Seg>, operand: Doc)
    | Equals(path: seq<Seg>, operand: Doc)
    | Differs(path: seq<Seg>, operand: Doc)
    | Matches(path: seq<Seg>, pattern: Doc)
    | Present(path: seq<Seg>, flag: Doc)

  function Related(rel: Relation, x: int, y: int): bool {
    match rel
    case Greater => x > y
    case GreaterEq => x >= y
    case Less => x < y
    case LessEq => x <= y
  }

  /** The value calling the predicate on `item` returns when no call throws.
      `matches(pattern, subject)` stands for
      `(isRegExp(pattern) ? pattern : new RegExp(pattern)).test(subject)`.
      Where `Array.from` throws, `ContainsAll` is false here; `Eval` says
      when a call throws. */
  predicate Holds(p: Pred, item: Doc, matches: (Doc, Doc) -> bool)
    decreases p
  {
    match p
    case Every(ks) => forall i :: 0 <= i < |ks| ==> Holds(ks[i], item, matches)
    case Any(ks) => exists i :: 0 <= i < |ks| && Holds(ks[i], item, matches)
    case NotEvery(ks) => !(forall i :: 0 <= i < |ks| ==> Holds(ks[i], item, matches))
    case NoneHold(ks) => forall i :: 0 <= i < |ks| ==> !Holds(ks[i], item, matches)
    case ContainsAll(path, values) =>
      var nested := ArrayFrom(Get(item, path));
      nested.Some? && EveryIncluded(values, nested.value)
    case OneOf(path, values) => SomeEqual(values, Coerce(Get(item, path)))
    case NoneOf(path, values) => !SomeEqual(values, Coerce(Get(item, path)))
    case Compare(rel, path, operand) =>
      var x := ToNumber(Get(item, path));
      var y := ToNumber(operand);
      x.Some? && y.Some? && Related(rel, x.value, y.value)
    case Equals(path, operand) => StrictEq(Coerce(Get(item, path)), Coerce(operand))
    case Differs(path, operand) => !StrictEq(Coerce(Get(item, path)), Coerce(operand))
    case Matches(path, pattern) => matches(pattern, Get(item, path))
    case Present(path, flag) =>
      var v := Get(item, path);
      if Truthy(flag) then !v.Undefined? && !v.Null? else v.Undefined? || v.Null?
  }

  /** The TypeError `Array.from` throws for undefined and null. */
  const NotIterable := JsError("TypeError", "")

  function Negated(r: Result<bool, JsError>): Result<bool, JsError> {
    if r.Failure? then r else Success(!r.value)
  }

  /** The combinators' children are called in order until one decides:
      `every` stops at the first child returning false, `some` at the first
      returning true. */
  predicate Combinator(p: Pred) {
    p.Every? || p.Any? || p.NotEvery? || p.NoneHold?
  }

  /** The value a child returns when it decides its combinator. */
  function Decisive(p: Pred): bool {
    p.Any? || p.NoneHold?
  }

  /** Calling the predicate on `item`: the boolean it returns, or the
      TypeError `Array.from` throws for `$all` on an undefined or null field.
      `$and` and `$not` are `every` over their children, `$or` is `some`,
      and `createPredicate`'s `$nor`, `every(child => !child(item))`, stops
      where `some` does; a child after the one that decides is not called. */
  function Eval(p: Pred, item: Doc, matches: (Doc, Doc) -> bool): Result<bool, JsError>
    decreases p, 1
  {
    match p
    case Every(_) => Scan(p, 0, item, matches)
    case Any(_) => Scan(p, 0, item, matches)
    case NotEvery(_) => Negated(Scan(p, 0, item, matches))
    case NoneHold(_) => Negated(Scan(p, 0, item, matches))
    case ContainsAll(path, values) =>
      var nested := ArrayFrom(Get(item, path));
      if nested.None? then Failure(NotIterable) else Success(EveryIncluded(values, nested.value))
    case _ => Success(Holds(p, item, matches))
  }

  /** `every` (or `some`) over the children from `i` on: they are called in
      order until one returns the decisive value or throws. */
  function Scan(p: Pred, i: nat, item: Doc, matches: (Doc, Doc) -> bool): Result<bool, JsError>
    requires Combinator(p) && i <= |p.kids|
    decreases p, 0, |p.kids| - i
  {
    if i == |p.kids| then Success(!Decisive(p))
    else
      var r := Eval(p.kids[i], item, matches);
      if r.Failure? || r.value == Decisive(p) then r
      else Scan(p, i + 1, item, matches)
  }

  /** A scan that returns says whether some child from `i` on has the
      decisive value. */
  lemma {:induction false} ScanValue(p: Pred, i: nat, item: Doc, m: (Doc, Doc) -> bool)
    requires Combinator(p) && i <= |p.kids|
    ensures Scan(p, i, item, m).Success? ==>
      (Scan(p, i, item, m).value == Decisive(p) <==>
        exists j :: i <= j < |p.kids| && Holds(p.kids[j], item, m) == Decisive(p))
    decreases p, 0, |p.kids| - i
  {
    if i < |p.kids| {
      EvalHolds(p.kids[i], item, m);
      ScanValue(p, i + 1, item, m);
    }
  }

  /** When a call returns, it returns the value `Holds` gives. */
  lemma {:induction false} EvalHolds(p: Pred, item: Doc, m: (Doc, Doc) -> bool)
    ensures Eval(p, item, m).Success? ==> Eval(p, item, m).value == Holds(p, item, m)
    decreases p, 1
  {
    if Combinator(p) {
      ScanValue(p, 0, item, m);
    }
  }

  /** A scan throws exactly when some child from `i` on throws and every
      child before it returned the value that does not decide. */
  lemma {:induction false} ScanThrows(p: Pred, i: nat, item: Doc, m: (Doc, Doc) -> bool)
    requires Combinator(p) && i <= |p.kids|
    ensures Scan(p, i, item, m).Failure? <==>
      exists j :: i <= j < |p.kids| && Eval(p.kids[j], item, m).Failure? &&
        forall k :: i <= k < j ==> Eval(p.kids[k], item, m) == Success(!Decisive(p))
    decreases |p.kids| - i
  {
    if i < |p.kids| {
      ScanThrows(p, i + 1, item, m);
      var r := Eval(p.kids[i], item, m);
      if r.Success? && r.value != Decisive(p) {
        assert r == Success(!Decisive(p));
        if j :| i + 1 <= j < |p.kids| && Eval(p.kids[j], item, m).Failure? &&
               (forall k :: i + 1 <= k < j ==> Eval(p.kids[k], item, m) == Success(!Decisive(p))) {
          assert forall k :: i <= k < j ==> Eval(p.kids[k], item, m) == Success(!Decisive(p));
        }
      }
    }
  }

  /** A combinator throws exactly when one of its children throws and every
      child before it returned the value that does not decide. */
  lemma ThrowOrder(p: Pred, item: Doc, m: (Doc, Doc) -> bool)
    requires Combinator(p)
    ensures Eval(p, item, m).Failure? <==>
      exists j :: 0 <= j < |p.kids| && Eval(p.kids[j], item, m).Failure? &&
        forall k :: 0 <= k < j ==> Eval(p.kids[k], item, m) == Success(!Decisive(p))
  {
    ScanThrows(p, 0, item, m);
  }

  /** The only error a call throws is `Array.from`'s TypeError. */
  lemma {:induction false} EvalError(p: Pred, item: Doc, m: (Doc, Doc) -> bool)
    ensures Eval(p, item, m).Failure? ==> Eval(p, item, m).error == NotIterable
    decreases p, 1
  {
    if Combinator(p) {
      ScanError(p, 0, item, m);
    }
  }

  lemma {:induction false} ScanError(p: Pred, i: nat, item: Doc, m: (Doc, Doc) -> bool)
    requires Combinator(p) && i <= |p.kids|
    ensures Scan(p, i, item, m).Failure? ==> Scan(p, i, item, m).error == NotIterable
    decreases p, 0, |p.kids| - i
  {
    if i < |p.kids| {
      EvalError(p.kids[i], item, m);
      ScanError(p, i + 1, item, m);
    }
  }

  /** The elements of an operand array, `[]` when it is none. */
  function Items(v: Doc): seq<Doc> {
    if v.Arr? then v.items else []
  }

  function AndOp(dataPath: seq<Seg>, value: Doc, kids: seq<Out<Pred>>, o: OpOptions): Pred { Every(Gens(kids)) }
  function OrOp(dataPath: seq<Seg>, value: Doc, kids: seq<Out<Pred>>, o: OpOptions): Pred { Any(Gens(kids)) }
  function NotOp(dataPath: seq<Seg>, value: Doc, kids: seq<Out<Pred>>, o: OpOptions): Pred { NotEvery(Gens(kids)) }
  function AllOp(dataPath: seq<Seg>, value: Doc, kids: seq<Out<Pred>>, o: OpOptions): Pred { ContainsAll(dataPath, Items(value)) }
  function InOp(dataPath: seq<Seg>, value: Doc, kids: seq<Out<Pred>>, o: OpOptions): Pred { OneOf(dataPath, Items(value)) }
  function NinOp(dataPath: seq<Seg>, value: Doc, kids: seq<Out<Pred>>, o: OpOptions): Pred { NoneOf(dataPath, Items(value)) }
  function GtOp(dataPath: seq<Seg>, value: Doc, kids: seq<Out<Pred>>, o: OpOptions): Pred { Compare(Greater, dataPath, value) }
  function GteOp(dataPath: seq<Seg>, value: Doc, kids: seq<Out<Pred>>, o: OpOptions): Pred { Compare(GreaterEq, dataPath, value) }
  function LtOp(dataPath: seq<Seg>, value: Doc, kids: seq<Out<Pred>>, o: OpOptions): Pred { Compare(Less, dataPath, value) }
  function LteOp(dataPath: seq<Seg>, value: Doc, kids: seq<Out<Pred>>, o: OpOptions): Pred { Compare(LessEq, dataPath, value) }
  function NeOp(dataPath: seq<Seg>, value: Doc, kids: seq<Out<Pred>>, o: OpOptions): Pred { Differs(dataPath, value) }
  function EqOp(dataPath: seq<Seg>, value: Doc, kids: seq<Out<Pred>>, o: OpOptions): Pred { Equals(dataPath, value) }
  function LikeOp(dataPath: seq<Seg>, value: Doc, kids: seq<Out<Pred>>, o: OpOptions): Pred { Matches(dataPath, value) }
  function ExistsOp(dataPath: seq<Seg>, value: Doc, kids: seq<Out<Pred>>, o: OpOptions): Pred { Present(dataPath, value) }

  /** The fourteen operators both dialects share; `$nor` is added by each. */
  function SharedOperators(): map<Op, Operator<Pred>> {
    map[And := AndOp, Or := OrOp, Not := NotOp, All := AllOp, In := InOp, Nin := NinOp,
        Gt := GtOp, Gte := GteOp, Lt := LtOp, Lte := LteOp, Ne := NeOp, Eq := EqOp,
        Like := LikeOp, Exists := ExistsOp]
  }

  /** `$and` holds exactly when every generated child holds; for no children it holds. */
  lemma AndMeaning(dp: seq<Seg>, v: Doc, kids: seq<Out<Pred>>, o: OpOptions, item: Doc, m: (Doc, Doc) -> bool)
    ensures Holds(AndOp(dp, v, kids, o), item, m) <==> forall p :: Gen(p) in kids ==> Holds(p, item, m)
  {
    GensMembers(kids);
    var ps := Gens(kids);
    assert (forall i :: 0 <= i < |ps| ==> Holds(ps[i], item, m)) <==> (forall p :: p in ps ==> Holds(p, item, m));
  }

  /** `$or` holds exactly when some generated child holds. */
  lemma OrMeaning(dp: seq<Seg>, v: Doc, kids: seq<Out<Pred>>, o: OpOptions, item: Doc, m: (Doc, Doc) -> bool)
    ensures Holds(OrOp(dp, v, kids, o), item, m) <==> exists p :: Gen(p) in kids && Holds(p, item, m)
  {
    GensMembers(kids);
    var ps := Gens(kids);
    if p :| p in ps && Holds(p, item, m) {
      var i :| 0 <= i < |ps| && ps[i] == p;
    }
  }

  /** `$not` holds exactly when some generated child fails. */
  lemma NotMeaning(dp: seq<Seg>, v: Doc, kids: seq<Out<Pred>>, o: OpOptions, item: Doc, m: (Doc, Doc) -> bool)
    ensures Holds(NotOp(dp, v, kids, o), item, m) <==> exists p :: Gen(p) in kids && !Holds(p, item, m)
  {
    GensMembers(kids);
    var ps := Gens(kids);
    if p :| p in ps && !Holds(p, item, m) {
      var i :| 0 <= i < |ps| && ps[i] == p;
    }
  }

  /** `$ne` is the negation of `$eq`, and `$eq` compares the coerced values. */
  lemma EqualityMeaning(dp: seq<Seg>, v: Doc, kids: seq<Out<Pred>>, o: OpOptions, item: Doc, m: (Doc, Doc) -> bool)
    ensures Holds(EqOp(dp, v, kids, o), item, m) <==> StrictEq(Coerce(Get(item, dp)), Coerce(v))
    ensures Holds(NeOp(dp, v, kids, o), item, m) <==> !Holds(EqOp(dp, v, kids, o), item, m)
  {
  }

  lemma {:induction false} SomeEqualMeaning(values: seq<Doc>, x: Doc)
    ensures SomeEqual(values, x) <==> exists j :: 0 <= j < |values| && StrictEq(Coerce(values[j]), x)
  {
    if values != [] {
      SomeEqualMeaning(values[1..], x);
      assert forall j :: 1 <= j < |values| ==> values[1..][j - 1] == values[j];
    }
  }

  /** `$in` holds exactly when some coerced operand equals the coerced field;
      `$nin` is its negation. */
  lemma MembershipMeaning(dp: seq<Seg>, v: Doc, kids: seq<Out<Pred>>, o: OpOptions, item: Doc, m: (Doc, Doc) -> bool)
    requires v.Arr?
    ensures Holds(InOp(dp, v, kids, o), item, m)
        <==> exists j :: 0 <= j < |v.items| && StrictEq(Coerce(v.items[j]), Coerce(Get(item, dp)))
    ensures Holds(NinOp(dp, v, kids, o), item, m) <==> !Holds(InOp(dp, v, kids, o), item, m)
  {
    SomeEqualMeaning(v.items, Coerce(Get(item, dp)));
  }

  lemma {:induction false} IncludesMeaning(nested: seq<Doc>, x: Doc)
    ensures Includes(nested, x) <==> exists j :: 0 <= j < |nested| && StrictEq(Coerce(nested[j]), x)
  {
    if nested != [] {
      IncludesMeaning(nested[1..], x);
      assert forall j :: 1 <= j < |nested| ==> nested[1..][j - 1] == nested[j];
    }
  }

  lemma {:induction false} EveryIncludedMeaning(values: seq<Doc>, nested: seq<Doc>)
    ensures EveryIncluded(values, nested) <==> forall i :: 0 <= i < |values| ==> Includes(nested, Coerce(values[i]))
  {
    if values != [] {
      EveryIncludedMeaning(values[1..], nested);
      assert forall i :: 1 <= i < |values| ==> values[1..][i - 1] == values[i];
    }
  }

  /** `$all` throws exactly when the field is undefined or null; otherwise
      it holds exactly when every coerced operand equals some coerced
      element of `Array.from(field)`. */
  lemma AllMeaning(dp: seq<Seg>, v: Doc, kids: seq<Out<Pred>>, o: OpOptions, item: Doc, m: (Doc, Doc) -> bool)
    requires v.Arr?
    ensures var f := Get(item, dp);
      Eval(AllOp(dp, v, kids, o), item, m).Failure? <==> f.Undefined? || f.Null?
    ensures var nested := ArrayFrom(Get(item, dp));
      Eval(AllOp(dp, v, kids, o), item, m).Success? ==>
        (Eval(AllOp(dp, v, kids, o), item, m).value <==>
           forall i :: 0 <= i < |v.items| ==>
             exists j :: 0 <= j < |nested.value| && StrictEq(Coerce(nested.value[j]), Coerce(v.items[i])))
  {
    var nested := ArrayFrom(Get(item, dp));
    if nested.Some? {
      EveryIncludedMeaning(v.items, nested.value);
      forall i | 0 <= i < |v.items| {
        IncludesMeaning(nested.value, Coerce(v.items[i]));
      }
    }
  }

  /** `$exists: true` holds exactly when the field is neither undefined nor
      null, and `$exists: false` exactly when it is one of them. */
  lemma ExistsMeaning(dp: seq<Seg>, kids: seq<Out<Pred>>, o: OpOptions, item: Doc, m: (Doc, Doc) -> bool)
    ensures var f := Get(item, dp);
      (Holds(ExistsOp(dp, Bool(true), kids, o), item, m) <==> !f.Undefined? && !f.Null?) &&
      (Holds(ExistsOp(dp, Bool(false), kids, o), item, m) <==> f.Undefined? || f.Null?)
  {
  }

  /** The comparisons compare `Number(field)` with `Number(operand)`. */
  lemma ComparisonMeaning(dp: seq<Seg>, v: Doc, kids: seq<Out<Pred>>, o: OpOptions, item: Doc, m: (Doc, Doc) -> bool)
    ensures var x := ToNumber(Get(item, dp)); var y := ToNumber(v);
      (Holds(GtOp(dp, v, kids, o), item, m) <==> x.Some? && y.Some? && x.value > y.value) &&
      (Holds(GteOp(dp, v, kids, o), item, m) <==> x.Some? && y.Some? && x.value >= y.value) &&
      (Holds(LtOp(dp, v, kids, o), item, m) <==> x.Some? && y.Some? && x.value < y.value) &&
      (Holds(LteOp(dp, v, kids, o), item, m) <==> x.Some? && y.Some? && x.value <= y.value)
  {
    assert Holds(GtOp(dp, v, kids, o), item, m) == Holds(Compare(Greater, dp, v), item, m);
    assert Holds(GteOp(dp, v, kids, o), item, m) == Holds(Compare(GreaterEq, dp, v), item, m);
    assert Holds(LtOp(dp, v, kids, o), item, m) == Holds(Compare(Less, dp, v), item, m);
    assert Holds(LteOp(dp, v, kids, o), item, m) == Holds(Compare(LessEq, dp, v), item, m);
  }

  /** A field or operand that is NaN fails both `$gt` and `$lte`, so the two
      are complements only on numbers. */
  lemma GreaterOrAtMost(dp: seq<Seg>, v: Doc, kids: seq<Out<Pred>>, o: OpOptions, item: Doc, m: (Doc, Doc) -> bool)
    ensures IsNaN(Get(item, dp)) || IsNaN(v) ==>
      !Holds(GtOp(dp, v, kids, o), item, m) && !Holds(LteOp(dp, v, kids, o), item, m)
    ensures !IsNaN(Get(item, dp)) && !IsNaN(v) ==>
      (Holds(GtOp(dp, v, kids, o), item, m) <==> !Holds(LteOp(dp, v, kids, o), item, m))
  {
    ComparisonMeaning(dp, v, kids, o, item, m);
  }

  /** A missing field satisfies no comparison. */
  lemma MissingFieldComparesFalse(dp: seq<Seg>, v: Doc, kids: seq<Out<Pred>>, o: OpOptions, item: Doc, m: (Doc, Doc) -> bool)
    requires Get(item, dp) == Undefined
    ensures !Holds(GtOp(dp, v, kids, o), item, m) && !Holds(GteOp(dp, v, kids, o), item, m)
    ensures !Holds(LtOp(dp, v, kids, o), item, m) && !Holds(LteOp(dp, v, kids, o), item, m)
  {
    ComparisonMeaning(dp, v, kids, o, item, m);
  }
}
