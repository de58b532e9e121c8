/** The in-memory backend's ordering: a total comparison over values (kinds
    first, then values of the same kind), a multi-key comparator built from
    a `$sort` specification, and an in-place sort with it. */
module JsSort {
  import opened Wrappers
  import opened Document
  import Errors

  /** `compareNSB` on numbers. */
  function Nsb(a: int, b: int): (c: int)
    ensures c == -1 <==> a < b
    ensures c == 1 <==> a > b
    ensures c == 0 <==> a == b
  {
    if a < b then -1 else if a > b then 1 else 0
  }

  /** `a < b` on strings: lexicographic order of the characters. */
  predicate StrLess(a: string, b: string)
    decreases |a|
  {
    if a == [] then b != []
    else b != [] && (a[0] < b[0] || (a[0] == b[0] && StrLess(a[1..], b[1..])))
  }

  /** `compareNSB` on strings. */
  function StrCmp(a: string, b: string): int {
    if StrLess(a, b) then -1 else if StrLess(b, a) then 1 else 0
  }

  lemma {:induction false} StrLessAsymmetric(a: string, b: string)
    ensures !(StrLess(a, b) && StrLess(b, a))
    decreases |a|
  {
    if a != [] && b != [] && a[0] == b[0] {
      StrLessAsymmetric(a[1..], b[1..]);
    }
  }

  lemma {:induction false} StrLessTotal(a: string, b: string)
    ensures a == b || StrLess(a, b) || StrLess(b, a)
    decreases |a|
  {
    if a != [] && b != [] && a[0] == b[0] {
      StrLessTotal(a[1..], b[1..]);
      if a[1..] == b[1..] {
        assert a == [a[0]] + a[1..] && b == [b[0]] + b[1..];
      }
    }
  }

  lemma StrCmpAntisymmetric(a: string, b: string)
    ensures StrCmp(a, b) == -StrCmp(b, a)
  {
    StrLessAsymmetric(a, b);
  }

  lemma {:induction false} StrLessIrreflexive(a: string)
    ensures !StrLess(a, a)
    decreases |a|
  {
    if a != [] {
      StrLessIrreflexive(a[1..]);
    }
  }

  function BoolInt(b: bool): int {
    if b then 1 else 0
  }

  /** The kind order: undefined, null, number, string, boolean, Date, array,
      then every other object (a regular expression is an object without
      own enumerable keys). */
  function Rank(d: Doc): nat {
    match d
    case Undefined => 0
    case Null => 1
    case Num(_) => 2
    case Str(_) => 3
    case Bool(_) => 4
    case Date(_) => 5
    case Arr(_) => 6
    case _ => 7
  }

  /** Number of own enumerable keys of an object. */
  function KeyCount(d: Doc): nat {
    if d.Obj? then |d.fields| else 0
  }

  /** `Object.keys(a).sort()` as positions into the object's fields: field
      indices ordered by key, ties kept in field order. */
  function KeyOrder(fs: seq<(string, Doc)>): (r: seq<nat>)
    ensures |r| == |fs| && forall i :: 0 <= i < |r| ==> r[i] < |fs|
  {
    SortIndices(fs, |fs|)
  }

  function SortIndices(fs: seq<(string, Doc)>, n: nat): (r: seq<nat>)
    requires n <= |fs|
    ensures |r| == n && forall i :: 0 <= i < |r| ==> r[i] < n
  {
    if n == 0 then [] else InsertIndex(fs, n - 1, SortIndices(fs, n - 1))
  }

  lemma {:induction false} SortIndicesPermutation(fs: seq<(string, Doc)>, n: nat)
    requires n <= |fs|
    ensures multiset(SortIndices(fs, n)) == multiset(Range(n))
  {
    if n > 0 {
      var front := SortIndices(fs, n - 1);
      SortIndicesPermutation(fs, n - 1);
      InsertIndexCount(fs, n - 1, front);
      assert SortIndices(fs, n) == InsertIndex(fs, n - 1, front);
      RangeStep(n);
    }
  }

  lemma RangeStep(n: nat)
    requires n > 0
    ensures multiset(Range(n)) == multiset(Range(n - 1)) + multiset{(n - 1) as nat}
  {
    assert Range(n) == Range(n - 1) + [n - 1];
  }

  /** `[0, 1, ..., n - 1]`. */
  function Range(n: nat): (r: seq<nat>)
    ensures |r| == n && forall i :: 0 <= i < n ==> r[i] == i
  {
    seq(n, i requires 0 <= i < n => i)
  }

  /** Insert index `j` after every index whose key is not greater than `j`'s. */
  function InsertIndex(fs: seq<(string, Doc)>, j: nat, s: seq<nat>): (r: seq<nat>)
    requires j < |fs| && forall i :: 0 <= i < |s| ==> s[i] < |fs|
    ensures |r| == |s| + 1 && forall i :: 0 <= i < |r| ==> r[i] == j || r[i] in s
    ensures r[0] == j || r[0] == s[0]
  {
    if s == [] then [j]
    else if StrLess(fs[j].0, fs[s[0]].0) then [j] + s
    else [s[0]] + InsertIndex(fs, j, s[1..])
  }

  lemma {:induction false} InsertIndexCount(fs: seq<(string, Doc)>, j: nat, s: seq<nat>)
    requires j < |fs| && forall i :: 0 <= i < |s| ==> s[i] < |fs|
    ensures multiset(InsertIndex(fs, j, s)) == multiset(s) + multiset{j}
    decreases |s|
  {
    if s != [] && !StrLess(fs[j].0, fs[s[0]].0) {
      InsertIndexCount(fs, j, s[1..]);
      assert s == [s[0]] + s[1..];
    }
  }

  /** Neighbouring indices never have their keys out of order. */
  predicate KeySorted(fs: seq<(string, Doc)>, s: seq<nat>)
    requires forall i :: 0 <= i < |s| ==> s[i] < |fs|
  {
    forall i :: 0 <= i < |s| - 1 ==> !StrLess(fs[s[i + 1]].0, fs[s[i]].0)
  }

  lemma {:induction false} InsertIndexSorted(fs: seq<(string, Doc)>, j: nat, s: seq<nat>)
    requires j < |fs| && forall i :: 0 <= i < |s| ==> s[i] < |fs|
    requires KeySorted(fs, s)
    ensures KeySorted(fs, InsertIndex(fs, j, s))
    decreases |s|
  {
    if s != [] {
      if StrLess(fs[j].0, fs[s[0]].0) {
        StrLessAsymmetric(fs[j].0, fs[s[0]].0);
      } else {
        var t := InsertIndex(fs, j, s[1..]);
        InsertIndexSorted(fs, j, s[1..]);
        var r := [s[0]] + t;
        assert r == InsertIndex(fs, j, s);
        forall i | 0 <= i < |r| - 1
          ensures !StrLess(fs[r[i + 1]].0, fs[r[i]].0)
        {
          if i > 0 {
            assert r[i] == t[i - 1] && r[i + 1] == t[i];
          }
        }
      }
    }
  }

  lemma {:induction false} SortIndicesSorted(fs: seq<(string, Doc)>, n: nat)
    requires n <= |fs|
    ensures KeySorted(fs, SortIndices(fs, n))
  {
    if n > 0 {
      var front := SortIndices(fs, n - 1);
      SortIndicesSorted(fs, n - 1);
      InsertIndexSorted(fs, n - 1, front);
      assert SortIndices(fs, n) == InsertIndex(fs, n - 1, front);
    }
  }

  /** The key order holds every field position exactly once, and the keys
      along it never decrease. */
  lemma KeyOrderSpec(fs: seq<(string, Doc)>)
    ensures multiset(KeyOrder(fs)) == multiset(Range(|fs|))
    ensures KeySorted(fs, KeyOrder(fs))
  {
    SortIndicesPermutation(fs, |fs|);
    SortIndicesSorted(fs, |fs|);
  }

  /** The value under the `i`-th key in key order. */
  function ValueAt(a: Doc, i: nat): (v: Doc)
    requires i < KeyCount(a)
    ensures v < a
  {
    a.fields[KeyOrder(a.fields)[i]].1
  }

  /** `compare(a, b)`. */
  function Cmp(a: Doc, b: Doc): (c: int)
    ensures -1 <= c <= 1
    decreases a, 1
  {
    if Rank(a) != Rank(b) then Nsb(Rank(a), Rank(b))
    else
      match a
      case Num(x) => Nsb(x, b.n)
      case Str(x) => StrCmp(x, b.s)
      case Bool(x) => Nsb(BoolInt(x), BoolInt(b.b))
      case Date(t) => Nsb(t, b.time)
      case Arr(_) => CmpItems(a, b, 0)
      case Obj(_) => CmpFields(a, b, 0)
      case Regex(_) => CmpFields(a, b, 0)
      case _ => 0
  }

  /** `compareArrays(a, b)` from position `i` on. */
  function CmpItems(a: Doc, b: Doc, i: nat): (c: int)
    requires a.Arr? && b.Arr?
    ensures -1 <= c <= 1
    decreases a, 0, |a.items| - i
  {
    if i < |a.items| && i < |b.items| then
      var c := Cmp(a.items[i], b.items[i]);
      if c != 0 then c else CmpItems(a, b, i + 1)
    else Nsb(|a.items|, |b.items|)
  }

  /** The object branch of `compare(a, b)` from key position `i` on. */
  function CmpFields(a: Doc, b: Doc, i: nat): (c: int)
    ensures -1 <= c <= 1
    decreases a, 0, KeyCount(a) - i
  {
    if i < KeyCount(a) && i < KeyCount(b) then
      var c := Cmp(ValueAt(a, i), ValueAt(b, i));
      if c != 0 then c else CmpFields(a, b, i + 1)
    else Nsb(KeyCount(a), KeyCount(b))
  }

  /** Values of different kinds compare by kind alone. */
  lemma KindOrder(a: Doc, b: Doc)
    requires Rank(a) != Rank(b)
    ensures Cmp(a, b) == if Rank(a) < Rank(b) then -1 else 1
  {
  }

  /** Every value equals itself. */
  lemma {:induction false} CmpReflexive(a: Doc)
    ensures Cmp(a, a) == 0
    decreases a, 1
  {
    match a
    case Str(s) => StrLessIrreflexive(s);
    case Arr(_) => CmpItemsReflexive(a, 0);
    case Obj(_) => CmpFieldsReflexive(a, 0);
    case Regex(_) => CmpFieldsReflexive(a, 0);
    case _ =>
  }

  lemma {:induction false} CmpItemsReflexive(a: Doc, i: nat)
    requires a.Arr?
    ensures CmpItems(a, a, i) == 0
    decreases a, 0, |a.items| - i
  {
    if i < |a.items| {
      CmpReflexive(a.items[i]);
      CmpItemsReflexive(a, i + 1);
    }
  }

  lemma {:induction false} CmpFieldsReflexive(a: Doc, i: nat)
    ensures CmpFields(a, a, i) == 0
    decreases a, 0, KeyCount(a) - i
  {
    if i < KeyCount(a) {
      CmpReflexive(ValueAt(a, i));
      CmpFieldsReflexive(a, i + 1);
    }
  }

  /** Swapping the arguments negates the result. */
  lemma {:induction false} CmpAntisymmetric(a: Doc, b: Doc)
    ensures Cmp(a, b) == -Cmp(b, a)
    decreases a, 1
  {
    if Rank(a) == Rank(b) {
      match a
      case Str(x) => StrCmpAntisymmetric(x, b.s);
      case Arr(_) => CmpItemsAntisymmetric(a, b, 0);
      case Obj(_) => CmpFieldsAntisymmetric(a, b, 0);
      case Regex(_) => CmpFieldsAntisymmetric(a, b, 0);
      case _ =>
    }
  }

  lemma {:induction false} CmpItemsAntisymmetric(a: Doc, b: Doc, i: nat)
    requires a.Arr? && b.Arr?
    ensures CmpItems(a, b, i) == -CmpItems(b, a, i)
    decreases a, 0, |a.items| - i
  {
    if i < |a.items| && i < |b.items| {
      CmpAntisymmetric(a.items[i], b.items[i]);
      CmpItemsAntisymmetric(a, b, i + 1);
    }
  }

  lemma {:induction false} CmpFieldsAntisymmetric(a: Doc, b: Doc, i: nat)
    ensures CmpFields(a, b, i) == -CmpFields(b, a, i)
    decreases a, 0, KeyCount(a) - i
  {
    if i < KeyCount(a) && i < KeyCount(b) {
      CmpAntisymmetric(ValueAt(a, i), ValueAt(b, i));
      CmpFieldsAntisymmetric(a, b, i + 1);
    }
  }

  /** Arrays whose common prefix compares equal compare by length. */
  lemma {:induction false} ArraysEqualPrefix(a: Doc, b: Doc, i: nat)
    requires a.Arr? && b.Arr?
    requires forall k :: i <= k < |a.items| && k < |b.items| ==> Cmp(a.items[k], b.items[k]) == 0
    ensures CmpItems(a, b, i) == Nsb(|a.items|, |b.items|)
    decreases |a.items| - i
  {
    if i < |a.items| && i < |b.items| {
      ArraysEqualPrefix(a, b, i + 1);
    }
  }

  /** Arrays compare like their first pair of elements that differ. */
  lemma {:induction false} ArraysFirstDifference(a: Doc, b: Doc, i: nat, k: nat)
    requires a.Arr? && b.Arr? && i <= k < |a.items| && k < |b.items|
    requires Cmp(a.items[k], b.items[k]) != 0
    requires forall j :: i <= j < k ==> Cmp(a.items[j], b.items[j]) == 0
    ensures CmpItems(a, b, i) == Cmp(a.items[k], b.items[k])
    decreases k - i
  {
    if i < k {
      ArraysFirstDifference(a, b, i + 1, k);
    }
  }

  /** An array comes before every longer array it is a prefix of. */
  lemma PrefixComesFirst(xs: seq<Doc>, ys: seq<Doc>)
    requires ys != []
    ensures Cmp(Arr(xs), Arr(xs + ys)) == -1
  {
    forall k | 0 <= k < |xs| ensures Cmp(xs[k], (xs + ys)[k]) == 0 {
      CmpReflexive(xs[k]);
    }
    ArraysEqualPrefix(Arr(xs), Arr(xs + ys), 0);
  }

  /** The values of an object in key order. */
  function SortedValues(a: Doc): (vs: seq<Doc>)
    ensures |vs| == KeyCount(a)
  {
    seq(KeyCount(a), i requires 0 <= i < KeyCount(a) => ValueAt(a, i))
  }

  /** An object compares like the array of its values in key order: the
      keys themselves are never compared. */
  lemma ObjectsAsArrays(a: Doc, b: Doc)
    requires (a.Obj? || a.Regex?) && (b.Obj? || b.Regex?)
    ensures Cmp(a, b) == Cmp(Arr(SortedValues(a)), Arr(SortedValues(b)))
  {
    FieldsAsItems(a, b, 0);
  }

  lemma {:induction false} FieldsAsItems(a: Doc, b: Doc, i: nat)
    ensures CmpFields(a, b, i) == CmpItems(Arr(SortedValues(a)), Arr(SortedValues(b)), i)
    decreases KeyCount(a) - i
  {
    if i < KeyCount(a) && i < KeyCount(b) {
      FieldsAsItems(a, b, i + 1);
    }
  }

  /** Two one-key objects with equal values are equal, whatever their keys. */
  lemma KeysNotCompared(k1: string, k2: string, v: Doc)
    ensures Cmp(Obj([(k1, v)]), Obj([(k2, v)])) == 0
  {
    var a := Obj([(k1, v)]);
    var b := Obj([(k2, v)]);
    assert KeyOrder(a.fields) == [0] && KeyOrder(b.fields) == [0];
    assert ValueAt(a, 0) == v && ValueAt(b, 0) == v;
    CmpReflexive(v);
    assert CmpFields(a, b, 1) == 0;
    assert CmpFields(a, b, 0) == 0;
  }

  /** `compare(a, b)`, with its early returns in the source's order. */
  method Compare(a: Doc, b: Doc) returns (c: int)
    ensures c == Cmp(a, b)
    decreases a, 1
  {
    if a.Undefined? {
      return if b.Undefined? then 0 else -1;
    }
    if b.Undefined? {
      return 1;
    }
    if a.Null? {
      return if b.Null? then 0 else -1;
    }
    if b.Null? {
      return 1;
    }
    if a.Num? {
      return if b.Num? then Nsb(a.n, b.n) else -1;
    }
    if b.Num? {
      return 1;
    }
    if a.Str? {
      return if b.Str? then StrCmp(a.s, b.s) else -1;
    }
    if b.Str? {
      return 1;
    }
    if a.Bool? {
      return if b.Bool? then Nsb(BoolInt(a.b), BoolInt(b.b)) else -1;
    }
    if b.Bool? {
      return 1;
    }
    if a.Date? {
      return if b.Date? then Nsb(a.time, b.time) else -1;
    }
    if b.Date? {
      return 1;
    }
    if a.Arr? {
      if b.Arr? {
        c := CompareArrays(a, b);
        return;
      }
      return -1;
    }
    if b.Arr? {
      return 1;
    }
    var n := if KeyCount(a) < KeyCount(b) then KeyCount(a) else KeyCount(b);
    var i := 0;
    while i < n
      invariant 0 <= i <= n
      invariant CmpFields(a, b, i) == CmpFields(a, b, 0)
    {
      var comp := Compare(ValueAt(a, i), ValueAt(b, i));
      if comp != 0 {
        return comp;
      }
      i := i + 1;
    }
    return Nsb(KeyCount(a), KeyCount(b));
  }

  /** `compareArrays(a, b)`. */
  method CompareArrays(a: Doc, b: Doc) returns (c: int)
    requires a.Arr? && b.Arr?
    ensures c == CmpItems(a, b, 0)
    decreases a, 0
  {
    var n := if |a.items| < |b.items| then |a.items| else |b.items|;
    var i := 0;
    while i < n
      invariant 0 <= i <= n
      invariant CmpItems(a, b, i) == CmpItems(a, b, 0)
    {
      var comp := Compare(a.items[i], b.items[i]);
      if comp != 0 {
        return comp;
      }
      i := i + 1;
    }
    return Nsb(|a.items|, |b.items|);
  }

  /** One `$sort` criterion: a key and its direction (1 or -1). */
  datatype Criterion = Criterion(key: string, direction: int)

  /** The comparator `sorter($sort)` returns, from criterion `i` on: the
      direction times the comparison of the first key on which the items
      differ, or 0. */
  function SortOrder(criteria: seq<Criterion>, a: Doc, b: Doc, i: nat): int
    decreases |criteria| - i
  {
    if i < |criteria| then
      var c := criteria[i].direction * Cmp(Prop(a, Key(criteria[i].key)), Prop(b, Key(criteria[i].key)));
      if c != 0 then c else SortOrder(criteria, a, b, i + 1)
    else 0
  }

  function Term(c: Criterion, a: Doc, b: Doc): int {
    c.direction * Cmp(Prop(a, Key(c.key)), Prop(b, Key(c.key)))
  }

  /** The comparator's result is that of the first criterion that differs;
      when none differs it is 0. */
  lemma {:induction false} SortOrderFirstDifference(criteria: seq<Criterion>, a: Doc, b: Doc, i: nat, k: nat)
    requires i <= k <= |criteria|
    requires forall j :: i <= j < k ==> Term(criteria[j], a, b) == 0
    requires k < |criteria| ==> Term(criteria[k], a, b) != 0
    ensures SortOrder(criteria, a, b, i) == if k < |criteria| then Term(criteria[k], a, b) else 0
    decreases k - i
  {
    if i < k {
      SortOrderFirstDifference(criteria, a, b, i + 1, k);
    }
  }

  /** Swapping the items negates the comparator. */
  lemma {:induction false} SortOrderAntisymmetric(criteria: seq<Criterion>, a: Doc, b: Doc, i: nat)
    ensures SortOrder(criteria, a, b, i) == -SortOrder(criteria, b, a, i)
    decreases |criteria| - i
  {
    if i < |criteria| {
      TermAntisymmetric(criteria[i], a, b);
      SortOrderAntisymmetric(criteria, a, b, i + 1);
      assert SortOrder(criteria, a, b, i) == StepOrder(Term(criteria[i], a, b), SortOrder(criteria, a, b, i + 1));
      assert SortOrder(criteria, b, a, i) == StepOrder(Term(criteria[i], b, a), SortOrder(criteria, b, a, i + 1));
    }
  }

  /** One criterion's term decides unless it is 0. */
  function StepOrder(t: int, rest: int): int {
    if t != 0 then t else rest
  }

  lemma TermAntisymmetric(c: Criterion, a: Doc, b: Doc)
    ensures Term(c, a, b) == -Term(c, b, a)
  {
    var x, y := Prop(a, Key(c.key)), Prop(b, Key(c.key));
    CmpAntisymmetric(x, y);
    assert Term(c, a, b) == c.direction * Cmp(x, y);
    assert Term(c, b, a) == c.direction * Cmp(y, x);
  }

  /** The TypeError that reading a property of null or undefined throws. */
  const NullMember := Errors.JsError("TypeError", "")

  predicate Nullish(x: Doc) {
    x.Undefined? || x.Null?
  }

  /** The comparator `sorter($sort)` returns, applied to `a` and `b`: it
      throws when there is a criterion and `a` or `b` is null or undefined,
      since `a[criterion.key]` then throws. */
  method Sorter(criteria: seq<Criterion>, a: Doc, b: Doc) returns (c: Result<int, Errors.JsError>)
    ensures c == if |criteria| > 0 && (Nullish(a) || Nullish(b)) then Failure(NullMember)
                 else Success(SortOrder(criteria, a, b, 0))
  {
    var i := 0;
    while i < |criteria|
      invariant 0 <= i <= |criteria|
      invariant i > 0 ==> !Nullish(a) && !Nullish(b)
      invariant SortOrder(criteria, a, b, i) == SortOrder(criteria, a, b, 0)
    {
      var criterion := criteria[i];
      if Nullish(a) || Nullish(b) {
        return Failure(NullMember);
      }
      var comp := Compare(Prop(a, Key(criterion.key)), Prop(b, Key(criterion.key)));
      var localCompare := criterion.direction * comp;
      if localCompare != 0 {
        return Success(localCompare);
      }
      i := i + 1;
    }
    return Success(0);
  }

  /** Neighbours in `s[lo..hi]` are in comparator order. */
  ghost predicate SortedBetween(criteria: seq<Criterion>, s: seq<Doc>, lo: int, hi: int)
    requires 0 <= lo && hi <= |s|
  {
    forall k :: lo <= k < hi - 1 ==> SortOrder(criteria, s[k], s[k + 1], 0) <= 0
  }

  /** The elements that are not undefined, in their order. `Array.prototype.sort`
      compares only these and puts the undefined elements after them. */
  function Defined(s: seq<Doc>): (r: seq<Doc>)
    ensures |r| <= |s|
    ensures forall k :: 0 <= k < |r| ==> !r[k].Undefined?
  {
    if s == [] then []
    else (if s[0].Undefined? then [] else [s[0]]) + Defined(s[1..])
  }

  function Undefineds(n: nat): (r: seq<Doc>)
    ensures |r| == n && forall k :: 0 <= k < n ==> r[k] == Undefined
  {
    if n == 0 then [] else [Undefined] + Undefineds(n - 1)
  }

  /** The defined elements of a sequence are its elements other than
      undefined, each as often; the rest are undefined. */
  lemma {:induction false} DefinedSplit(s: seq<Doc>)
    ensures multiset(Defined(s)) == multiset(s)[Undefined := 0]
    ensures multiset(s)[Undefined] == |s| - |Defined(s)|
  {
    if s != [] {
      var t := s[1..];
      DefinedSplit(t);
      assert s == [s[0]] + t;
      assert multiset(s) == multiset{s[0]} + multiset(t);
      if s[0].Undefined? {
        assert Defined(s) == Defined(t);
      } else {
        assert Defined(s) == [s[0]] + Defined(t);
        assert multiset(Defined(s)) == multiset{s[0]} + multiset(Defined(t));
      }
    }
  }

  lemma {:induction false} UndefinedsCount(n: nat)
    ensures multiset(Undefineds(n)) == multiset{}[Undefined := n]
  {
    if n > 0 {
      UndefinedsCount(n - 1);
      assert multiset(Undefineds(n)) == multiset{Undefined} + multiset(Undefineds(n - 1));
    }
  }

  /** Sorting the defined elements `ds` throws exactly when there is a
      criterion, two or more elements and a null among them: the comparator
      is then called on the null element. */
  predicate Throws(criteria: seq<Criterion>, ds: seq<Doc>) {
    |criteria| > 0 && |ds| >= 2 && Null in ds
  }

  /** Sorting `s` throws when sorting its defined elements does. With one
      defined element the comparator is never called. */
  predicate SortThrows(criteria: seq<Criterion>, s: seq<Doc>) {
    Throws(criteria, Defined(s))
  }

  /** What `datas.sort(compareFn)` makes of `s` when the comparator does not
      throw: a permutation of `s` whose first `|Defined(s)|` elements are
      the defined ones, in comparator order, followed by the undefined ones. */
  ghost predicate SortedFrom(criteria: seq<Criterion>, s: seq<Doc>, t: seq<Doc>) {
    multiset(t) == multiset(s) && |t| == |s| &&
    (forall k :: 0 <= k < |t| ==> (t[k].Undefined? <==> k >= |Defined(s)|)) &&
    SortedBetween(criteria, t, 0, |Defined(s)|)
  }

  /** `[undefined, { a: 1 }]` sorts as `[{ a: 1 }, undefined]` whatever the
      criteria: the undefined element goes last without being compared. */
  lemma UndefinedSortsLast(criteria: seq<Criterion>, t: seq<Doc>)
    requires SortedFrom(criteria, [Undefined, Obj([("a", Num(1))])], t)
    ensures t == [Obj([("a", Num(1))]), Undefined]
  {
    var s := [Undefined, Obj([("a", Num(1))])];
    assert Defined(s) == [Obj([("a", Num(1))])] by {
      assert Defined(s[1..]) == [s[1]] + Defined(s[1..][1..]);
      assert s[1..][1..] == [];
    }
    assert t[1] == Undefined;
    assert t[0] in multiset(s);
  }

  /** With a criterion, `[null, { a: 1 }]` throws, while `[null, undefined]`
      does not: the null element is never compared there. */
  lemma NullSortExamples()
    ensures SortThrows([Criterion("a", 1)], [Null, Obj([("a", Num(1))])])
    ensures !SortThrows([Criterion("a", 1)], [Null, Undefined])
    ensures !SortThrows([], [Null, Obj([("a", Num(1))])])
  {
    var s := [Null, Obj([("a", Num(1))])];
    assert Defined(s) == s by {
      assert Defined(s[1..]) == [s[1]] + Defined(s[1..][1..]);
      assert s[1..][1..] == [];
    }
    var u := [Null, Undefined];
    assert Defined(u) == [Null] by {
      assert Defined(u[1..]) == Defined(u[1..][1..]);
      assert u[1..][1..] == [];
    }
  }

  /** `sort($sort)(datas)`: `datas.sort(compareFn)`. The elements that are not
      undefined are sorted by the comparator and the undefined ones follow,
      in place, and the same array is returned; or the comparator throws and
      `datas` is left as it was. */
  method Sort(criteria: seq<Criterion>, datas: array<Doc>) returns (r: Result<array<Doc>, Errors.JsError>)
    modifies datas
    ensures r.Success? <==> !SortThrows(criteria, old(datas[..]))
    ensures r.Failure? ==> r.error == NullMember && datas[..] == old(datas[..])
    ensures r.Success? ==> r.value == datas && SortedFrom(criteria, old(datas[..]), datas[..])
  {
    ghost var s0 := datas[..];
    var items := CollectDefined(datas);
    var ok := SortDefined(criteria, items);
    if !ok {
      return Failure(NullMember);
    }
    ghost var sorted := items[..];
    WriteBack(datas, items);
    Reassembled(criteria, s0, sorted, datas[..]);
    return Success(datas);
  }

  /** A fresh array of the defined elements, the list that
      `Array.prototype.sort` sorts before writing it back. */
  method CollectDefined(datas: array<Doc>) returns (items: array<Doc>)
    ensures fresh(items) && items[..] == Defined(datas[..])
  {
    var ds := Defined(datas[..]);
    items := new Doc[|ds|](k requires 0 <= k < |ds| => ds[k]);
    assert items[..] == ds;
  }

  /** Writes the sorted defined elements back, followed by undefined ones. */
  method WriteBack(datas: array<Doc>, items: array<Doc>)
    requires items.Length <= datas.Length && items != datas
    modifies datas
    ensures datas[..] == items[..] + Undefineds(datas.Length - items.Length)
  {
    forall k | 0 <= k < datas.Length {
      datas[k] := if k < items.Length then items[k] else Undefined;
    }
  }

  lemma UndefinedLast(t: seq<Doc>, n: nat)
    requires AllDefined(t)
    ensures forall k :: 0 <= k < |t| + n ==> ((t + Undefineds(n))[k].Undefined? <==> k >= |t|)
  {
  }

  lemma SortedPrefix(criteria: seq<Criterion>, t: seq<Doc>, u: seq<Doc>)
    requires SortedBetween(criteria, t, 0, |t|)
    ensures SortedBetween(criteria, t + u, 0, |t|)
  {
    forall k | 0 <= k < |t| - 1 ensures SortOrder(criteria, (t + u)[k], (t + u)[k + 1], 0) <= 0 {
      assert (t + u)[k] == t[k] && (t + u)[k + 1] == t[k + 1];
    }
  }

  /** The defined elements, rearranged in comparator order, followed by the
      undefined ones, are what sorting makes of the sequence. */
  lemma Reassembled(criteria: seq<Criterion>, s: seq<Doc>, sorted: seq<Doc>, t: seq<Doc>)
    requires multiset(sorted) == multiset(Defined(s))
    requires AllDefined(sorted)
    requires SortedBetween(criteria, sorted, 0, |sorted|)
    requires |sorted| == |Defined(s)| && t == sorted + Undefineds(|s| - |sorted|)
    ensures SortedFrom(criteria, s, t)
  {
    var u := Undefineds(|s| - |Defined(s)|);
    DefinedSplit(s);
    UndefinedsCount(|u|);
    Restore(multiset(s), Undefined);
    SortedPrefix(criteria, sorted, u);
    UndefinedLast(sorted, |u|);
  }

  lemma Restore(m: multiset<Doc>, x: Doc)
    ensures m[x := 0] + multiset{}[x := m[x]] == m
  {
    assert forall y :: (m[x := 0] + multiset{}[x := m[x]])[y] == m[y];
  }

  /** Sorts the defined elements, in place, by insertion with the
      comparator; fails when the comparator throws. */
  method SortDefined(criteria: seq<Criterion>, items: array<Doc>) returns (ok: bool)
    requires AllDefined(items[..])
    modifies items
    ensures ok <==> !Throws(criteria, old(items[..]))
    ensures ok ==> multiset(items[..]) == multiset(old(items[..]))
    ensures ok ==> AllDefined(items[..])
    ensures ok ==> SortedBetween(criteria, items[..], 0, items.Length)
  {
    ghost var ds := items[..];
    if items.Length >= 2 {
      var i := 1;
      while i < items.Length
        invariant 1 <= i <= items.Length
        invariant multiset(items[..]) == multiset(ds)
        invariant items[i..] == ds[i..]
        invariant i == 1 ==> items[..] == ds
        invariant AllDefined(items[..])
        invariant SortedBetween(criteria, items[..], 0, i)
        invariant |criteria| > 0 && i >= 2 ==> NoNullBelow(ds, i) && NoNullBelow(items[..], i)
      {
        assert items[i] == ds[i];
        var ok := InsertInto(criteria, items, i);
        if !ok {
          ThrowWitness(ds, i);
          return false;
        }
        NullFreeStep(criteria, ds, i);
        i := i + 1;
      }
    }
    NoThrowWitness(criteria, ds);
    return true;
  }

  /** A null at position 0 or `i` of the defined elements, with `i >= 1`,
      is a reason to throw. */
  lemma ThrowWitness(ds: seq<Doc>, i: int)
    requires 1 <= i < |ds| && (ds[i].Null? || ds[0].Null?)
    ensures |ds| >= 2 && Null in ds
  {
    assert ds[0] in ds && ds[i] in ds;
  }

  lemma NullFreeStep(criteria: seq<Criterion>, ds: seq<Doc>, i: int)
    requires 1 <= i < |ds|
    requires |criteria| > 0 ==> !ds[i].Null? && !ds[0].Null?
    requires |criteria| > 0 && i >= 2 ==> NoNullBelow(ds, i)
    ensures |criteria| > 0 ==> NoNullBelow(ds, i + 1)
  {
  }

  /** Sorting all the defined elements without a throw means there was no
      reason to throw. */
  lemma NoThrowWitness(criteria: seq<Criterion>, ds: seq<Doc>)
    requires |criteria| > 0 && |ds| >= 2 ==> NoNullBelow(ds, |ds|)
    ensures |criteria| > 0 && |ds| >= 2 ==> Null !in ds
  {
  }

  /** While `a[i]` moves down to position `j`: both sorted runs around it,
      and the elements around the gap in order. */
  ghost predicate Inserting(criteria: seq<Criterion>, s: seq<Doc>, i: int, j: int)
    requires 0 <= j <= i < |s|
  {
    SortedBetween(criteria, s, 0, j) && SortedBetween(criteria, s, j + 1, i + 1) &&
    (0 < j < i ==> SortOrder(criteria, s[j - 1], s[j + 1], 0) <= 0) &&
    (j < i ==> SortOrder(criteria, s[j], s[j + 1], 0) <= 0)
  }

  /** Swapping the moving element with a greater left neighbour keeps the
      insertion state one position further down. */
  lemma SwapDown(criteria: seq<Criterion>, s: seq<Doc>, i: int, j: int)
    requires 0 < j <= i < |s| && Inserting(criteria, s, i, j)
    requires SortOrder(criteria, s[j - 1], s[j], 0) > 0
    ensures Inserting(criteria, s[j - 1 := s[j]][j := s[j - 1]], i, j - 1)
  {
    SortOrderAntisymmetric(criteria, s[j - 1], s[j], 0);
    var t := s[j - 1 := s[j]][j := s[j - 1]];
    assert SortedBetween(criteria, t, 0, j - 1) by {
      forall k | 0 <= k < j - 2 ensures SortOrder(criteria, t[k], t[k + 1], 0) <= 0 {
        assert t[k] == s[k] && t[k + 1] == s[k + 1];
      }
    }
    assert SortedBetween(criteria, t, j, i + 1) by {
      forall k | j <= k < i ensures SortOrder(criteria, t[k], t[k + 1], 0) <= 0 {
        if k > j {
          assert t[k] == s[k] && t[k + 1] == s[k + 1];
        }
      }
    }
  }

  /** Once the left neighbour is not greater, the prefix `s[..i + 1]` is sorted. */
  lemma InsertDone(criteria: seq<Criterion>, s: seq<Doc>, i: int, j: int)
    requires 0 <= j <= i < |s| && Inserting(criteria, s, i, j)
    requires j > 0 ==> SortOrder(criteria, s[j - 1], s[j], 0) <= 0
    ensures SortedBetween(criteria, s, 0, i + 1)
  {
  }

  ghost predicate AllDefined(s: seq<Doc>) {
    forall k :: 0 <= k < |s| ==> !s[k].Undefined?
  }

  /** No null among `s[..hi]`. */
  ghost predicate NoNullBelow(s: seq<Doc>, hi: int)
    requires hi <= |s|
  {
    forall k :: 0 <= k < hi ==> !s[k].Null?
  }

  /** Swapping neighbours `j - 1` and `j` at or below `i` keeps the contents,
      the part after `i` and the absence of undefined and null elements. */
  lemma SwapKeeps(s: seq<Doc>, i: int, j: int)
    requires 0 < j <= i < |s|
    ensures var t := s[j - 1 := s[j]][j := s[j - 1]];
      multiset(t) == multiset(s) && t[i + 1..] == s[i + 1..] &&
      (AllDefined(s) ==> AllDefined(t)) && (NoNullBelow(s, i + 1) ==> NoNullBelow(t, i + 1))
  {
    var t := s[j - 1 := s[j]][j := s[j - 1]];
    if NoNullBelow(s, i + 1) {
      forall k | 0 <= k < i + 1 ensures !t[k].Null? {
        assert t[k] == s[k] || t[k] == s[j] || t[k] == s[j - 1];
      }
    }
    if AllDefined(s) {
      forall k | 0 <= k < |t| ensures !t[k].Undefined? {
        assert t[k] == s[k] || t[k] == s[j] || t[k] == s[j - 1];
      }
    }
  }

  /** Moves `a[i]` down into the sorted prefix `a[..i]`, unless the
      comparator throws: that happens exactly when there is a criterion and
      `a[i]` or `a[i - 1]` is null, since the first comparison is of these
      two and later ones are with the elements before `a[i - 1]`. */
  method InsertInto(criteria: seq<Criterion>, a: array<Doc>, i: int) returns (ok: bool)
    requires 1 <= i < a.Length
    requires SortedBetween(criteria, a[..], 0, i)
    requires AllDefined(a[..])
    requires |criteria| > 0 && i >= 2 ==> NoNullBelow(a[..], i)
    modifies a
    ensures ok <==> !(|criteria| > 0 && (old(a[i]).Null? || old(a[i - 1]).Null?))
    ensures multiset(a[..]) == multiset(old(a[..]))
    ensures a[i + 1..] == old(a[i + 1..])
    ensures AllDefined(a[..])
    ensures ok ==> SortedBetween(criteria, a[..], 0, i + 1)
    ensures ok && |criteria| > 0 ==> NoNullBelow(a[..], i + 1)
  {
    var c := Sorter(criteria, a[i - 1], a[i]);
    if c.Failure? {
      return false;
    }
    if c.value <= 0 {
      InsertDone(criteria, a[..], i, i);
    } else {
      FirstSwap(criteria, a, i);
      MoveDown(criteria, a, i, i - 1);
    }
    return true;
  }

  /** The first swap, after `a[i - 1]` compared greater than `a[i]`. */
  method FirstSwap(criteria: seq<Criterion>, a: array<Doc>, i: int)
    requires 1 <= i < a.Length
    requires SortedBetween(criteria, a[..], 0, i)
    requires AllDefined(a[..])
    requires |criteria| > 0 && i >= 2 ==> NoNullBelow(a[..], i)
    requires |criteria| > 0 ==> !a[i].Null? && !a[i - 1].Null?
    requires SortOrder(criteria, a[i - 1], a[i], 0) > 0
    modifies a
    ensures multiset(a[..]) == multiset(old(a[..]))
    ensures a[i + 1..] == old(a[i + 1..])
    ensures AllDefined(a[..])
    ensures Inserting(criteria, a[..], i, i - 1)
    ensures |criteria| > 0 ==> NoNullBelow(a[..], i + 1)
  {
    if |criteria| > 0 {
      assert NoNullBelow(a[..], i + 1) by {
        if i >= 2 {
          assert NoNullBelow(a[..], i);
        }
      }
    }
    SwapDown(criteria, a[..], i, i);
    SwapKeeps(a[..], i, i);
    a[i - 1], a[i] := a[i], a[i - 1];
  }

  /** Goes on moving the element at `j` down once the first comparison has
      been made; no comparison throws, since none involves null. */
  method MoveDown(criteria: seq<Criterion>, a: array<Doc>, i: int, j0: int)
    requires 0 <= j0 < i < a.Length
    requires Inserting(criteria, a[..], i, j0)
    requires AllDefined(a[..])
    requires |criteria| > 0 ==> NoNullBelow(a[..], i + 1)
    modifies a
    ensures multiset(a[..]) == multiset(old(a[..]))
    ensures a[i + 1..] == old(a[i + 1..])
    ensures AllDefined(a[..])
    ensures SortedBetween(criteria, a[..], 0, i + 1)
    ensures |criteria| > 0 ==> NoNullBelow(a[..], i + 1)
  {
    var j := j0;
    while j > 0
      invariant 0 <= j <= j0
      invariant multiset(a[..]) == multiset(old(a[..]))
      invariant a[i + 1..] == old(a[i + 1..])
      invariant AllDefined(a[..])
      invariant Inserting(criteria, a[..], i, j)
      invariant |criteria| > 0 ==> NoNullBelow(a[..], i + 1)
    {
      var c := Sorter(criteria, a[j - 1], a[j]);
      assert c.Success?;
      if c.value <= 0 {
        InsertDone(criteria, a[..], i, j);
        return;
      }
      SwapDown(criteria, a[..], i, j);
      SwapKeeps(a[..], i, j);
      a[j - 1], a[j] := a[j], a[j - 1];
      j := j - 1;
    }
    InsertDone(criteria, a[..], i, j);
  }
}
