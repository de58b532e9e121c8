/** The `createPredicate` dialect and `filter(query)(arr)`: the same
    operators as `compile`, except that `$nor` means "no child holds". */
module JsFilter {
  import opened Wrappers
  import opened Document
  import opened Operators
  import opened Utils
  import opened Errors
  import opened Types
  import opened Converter
  import opened ConverterFacts
  import opened Grammar
  import opened JsPredicate
  import opened JsOptions
  import JsIndex

  function NorOp(dataPath: seq<Seg>, value: Doc, kids: seq<Out<Pred>>, o: OpOptions): Pred { NoneHold(Gens(kids)) }

  function FilterDialect(): Dialect<Pred, Pred> {
    Dialect(SharedOperators()[Nor := NorOp], None, None, None, None)
  }

  lemma FilterDialectComplete()
    ensures Complete(FilterDialect()) && HasMandatory(FilterDialect())
  {
    var ops := FilterDialect().operators;
    forall op: Op ensures op in ops {
      match op
      case And => case Or => case Nor => case Not => case In => case All => case Nin =>
      case Gt => case Gte => case Lt => case Lte => case Ne => case Eq => case Like => case Exists =>
    }
  }

  /** `createPredicate(query)`: the predicate, or the error the call throws. */
  function CreatePredicate(query: Doc): (r: Result<Pred, JsError>)
    ensures r.Success? <==> Clean(FilterDialect(), query, [])
  {
    FilterDialectComplete();
    CompileSucceedsIffClean(FilterDialect(), query, map[]);
    var c := Compile(FilterDialect(), query, map[]);
    if c.Success? then Success(c.value.artifact) else Failure(c.error)
  }

  /** `$nor` holds exactly when no generated child holds. */
  lemma NorMeaning(dp: seq<Seg>, v: Doc, kids: seq<Out<Pred>>, o: OpOptions, item: Doc, m: (Doc, Doc) -> bool)
    ensures FilterDialect().operators[Nor] == NorOp
    ensures Holds(FilterDialect().operators[Nor](dp, v, kids, o), item, m)
        <==> forall p :: Gen(p) in kids ==> !Holds(p, item, m)
  {
    GensMembers(kids);
    var ps := Gens(kids);
    assert (forall i :: 0 <= i < |ps| ==> !Holds(ps[i], item, m)) <==> (forall p :: p in ps ==> !Holds(p, item, m));
  }

  /** The two dialects disagree on `$nor` when one child holds and another
      fails: `compile` accepts the item, `createPredicate` rejects it. */
  lemma NorDialectsDiffer(dp: seq<Seg>, v: Doc, o: OpOptions, item: Doc, m: (Doc, Doc) -> bool)
    ensures var kids := [Gen(Every([])), Gen(NotEvery([]))];
      Holds(JsIndex.IndexDialect().operators[Nor](dp, v, kids, o), item, m) &&
      !Holds(FilterDialect().operators[Nor](dp, v, kids, o), item, m)
  {
    var kids := [Gen(Every([])), Gen(NotEvery([]))];
    JsIndex.NorIsNand(dp, v, kids, o, item, m);
    NorMeaning(dp, v, kids, o, item, m);
    assert kids[1] == Gen(NotEvery([]));
    assert !Holds(NotEvery([]), item, m);
    assert Holds(Every([]), item, m);
  }

  /** `arr.filter(predicate)`: the predicate is called on the elements from
      first to last, and the first throw ends the call. */
  function Select(p: Pred, arr: seq<Doc>, m: (Doc, Doc) -> bool): Result<seq<Doc>, JsError>
    decreases |arr|
  {
    if arr == [] then Success([])
    else
      var n := |arr| - 1;
      var front := Select(p, arr[..n], m);
      if front.Failure? then front
      else
        var r := Eval(p, arr[n], m);
        if r.Failure? then Failure(r.error)
        else Success(front.value + (if r.value then [arr[n]] else []))
  }

  /** `filter(query)(arr)`: the elements the compiled predicate accepts, or
      the error compiling the query throws, or the error a call of the
      predicate throws. */
  function Filter(query: Doc, arr: seq<Doc>, m: (Doc, Doc) -> bool): (r: Result<seq<Doc>, JsError>)
    ensures CreatePredicate(query).Failure? ==> r == Failure(CreatePredicate(query).error)
    ensures CreatePredicate(query).Success? ==>
      (r.Failure? <==> exists i :: 0 <= i < |arr| && Eval(CreatePredicate(query).value, arr[i], m).Failure?)
  {
    var p := CreatePredicate(query);
    if p.Success? then
      SelectThrows(p.value, arr, m);
      Select(p.value, arr, m)
    else Failure(p.error)
  }

  /** The selection throws exactly when the predicate throws on some element. */
  lemma {:induction false} SelectThrows(p: Pred, arr: seq<Doc>, m: (Doc, Doc) -> bool)
    ensures Select(p, arr, m).Failure? <==> exists i :: 0 <= i < |arr| && Eval(p, arr[i], m).Failure?
    decreases |arr|
  {
    if arr != [] {
      var n := |arr| - 1;
      SelectThrows(p, arr[..n], m);
      assert forall i :: 0 <= i < n ==> arr[..n][i] == arr[i];
    }
  }

  /** `filter` over `[{ tags: ['a'] }, { name: 'x' }]` with the predicate of
      `{ tags: { $all: ['a'] } }` throws: the second item has no `tags`, and
      the first item's acceptance is lost with the throw. */
  lemma MissingArrayThrows(m: (Doc, Doc) -> bool)
    ensures var p := Every([ContainsAll([Key("tags")], [Str("a")])]);
      Select(p, [Obj([("tags", Arr([Str("a")]))]), Obj([("name", Str("x"))])], m) == Failure(NotIterable)
  {
    var c := ContainsAll([Key("tags")], [Str("a")]);
    var p := Every([c]);
    var first, second := Obj([("tags", Arr([Str("a")]))]), Obj([("name", Str("x"))]);
    var arr := [first, second];
    assert arr[..1] == [first];
    assert Get(second, [Key("tags")]) == Undefined;
    assert Eval(c, second, m) == Failure(NotIterable);
    JsIndex.EveryOfOne(c, second, m);
    assert Eval(p, second, m) == Failure(NotIterable);
    assert Select(p, [first], m).Success? by {
      assert [first][..0] == [];
      assert Get(first, [Key("tags")]) == Arr([Str("a")]);
      JsIndex.EveryOfOne(c, first, m);
    }
  }

  /** The selection keeps the accepted elements in their original order. */
  lemma {:induction false} SelectInOrder(p: Pred, arr: seq<Doc>, m: (Doc, Doc) -> bool)
    ensures Select(p, arr, m).Success? ==> IsSubsequence(Select(p, arr, m).value, arr)
    decreases |arr|
  {
    if arr != [] && Select(p, arr, m).Success? {
      var n := |arr| - 1;
      var front := Select(p, arr[..n], m).value;
      SelectInOrder(p, arr[..n], m);
      assert arr[..n] + [arr[n]] == arr;
      if Eval(p, arr[n], m).value {
        var r := front + [arr[n]];
        assert r[..|r| - 1] == front;
      } else {
        assert Select(p, arr, m).value == front + [];
        SubsequenceAppend(front, arr[..n], arr[n]);
        assert front + [] == front;
      }
    }
  }

  /** How many times `x` occurs in `s`. */
  function Occurrences(s: seq<Doc>, x: Doc): nat
    decreases |s|
  {
    if s == [] then 0
    else Occurrences(s[..|s| - 1], x) + (if s[|s| - 1] == x then 1 else 0)
  }

  /** `Occurrences` is the multiplicity in the multiset of `s`. */
  lemma {:induction false} OccurrencesMultiplicity(s: seq<Doc>, x: Doc)
    ensures Occurrences(s, x) == multiset(s)[x]
    decreases |s|
  {
    if s != [] {
      var n := |s| - 1;
      OccurrencesMultiplicity(s[..n], x);
      assert s == s[..n] + [s[n]];
      assert multiset(s)[x] == multiset(s[..n])[x] + multiset{s[n]}[x];
    }
  }

  /** A selection that returns holds each accepted element as often as the
      input does, and no other element. */
  lemma SelectCounts(p: Pred, arr: seq<Doc>, m: (Doc, Doc) -> bool)
    requires Select(p, arr, m).Success?
    ensures forall x :: multiset(Select(p, arr, m).value)[x] == if Holds(p, x, m) then multiset(arr)[x] else 0
  {
    var sel := Select(p, arr, m).value;
    forall x ensures multiset(sel)[x] == if Holds(p, x, m) then multiset(arr)[x] else 0 {
      SelectOccurrences(p, arr, m, x);
      OccurrencesMultiplicity(arr, x);
      OccurrencesMultiplicity(sel, x);
    }
  }

  lemma {:induction false} SelectOccurrences(p: Pred, arr: seq<Doc>, m: (Doc, Doc) -> bool, x: Doc)
    ensures Select(p, arr, m).Success? ==>
      Occurrences(Select(p, arr, m).value, x) == if Holds(p, x, m) then Occurrences(arr, x) else 0
    decreases |arr|
  {
    if arr != [] && Select(p, arr, m).Success? {
      var n := |arr| - 1;
      var front, last := arr[..n], arr[n];
      SelectStep(p, arr, m);
      var sel, frontSel := Select(p, arr, m).value, Select(p, front, m).value;
      SelectOccurrences(p, front, m, x);
      assert Occurrences(arr, x) == Occurrences(front, x) + (if last == x then 1 else 0);
      if Holds(p, last, m) {
        assert sel[..|sel| - 1] == frontSel;
      } else {
        assert sel == frontSel;
      }
    }
  }

  /** A selection that returns is the front's selection, then the last
      element if it is accepted. */
  lemma SelectStep(p: Pred, arr: seq<Doc>, m: (Doc, Doc) -> bool)
    requires arr != [] && Select(p, arr, m).Success?
    ensures var n := |arr| - 1;
      Select(p, arr[..n], m).Success? &&
      Select(p, arr, m).value == Select(p, arr[..n], m).value + (if Holds(p, arr[n], m) then [arr[n]] else [])
  {
    var n := |arr| - 1;
    EvalHolds(p, arr[n], m);
    assert Select(p, arr[..n], m).value + [] == Select(p, arr[..n], m).value;
  }

  /** In a selection that returns, an element is selected exactly when it
      occurs in the input and the predicate accepts it. */
  lemma SelectMembers(p: Pred, arr: seq<Doc>, m: (Doc, Doc) -> bool)
    requires Select(p, arr, m).Success?
    ensures forall x :: x in Select(p, arr, m).value <==> x in arr && Holds(p, x, m)
  {
    var sel := Select(p, arr, m).value;
    forall x ensures x in sel <==> x in arr && Holds(p, x, m) {
      SelectOccurrences(p, arr, m, x);
      OccursIn(sel, x);
      OccursIn(arr, x);
    }
  }

  /** `x` occurs in `s` exactly when it is counted at least once. */
  lemma {:induction false} OccursIn(s: seq<Doc>, x: Doc)
    ensures x in s <==> Occurrences(s, x) > 0
    decreases |s|
  {
    if s != [] {
      var n := |s| - 1;
      OccursIn(s[..n], x);
      assert s == s[..n] + [s[n]];
    }
  }
}
