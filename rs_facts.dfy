/** What the RediSearch generator produces: how `coerce` and `getType` agree,
    what `placeholder` stores in `PARAMS` and what it leaves alone, and the
    query text of the operators. */
module RsFacts {
  import opened Wrappers
  import opened Document
  import opened Text
  import opened Utils
  import opened RsFilter

  /** A string that starts with neither white space, a sign nor a digit, and
      does not end in white space, is NaN. */
  lemma NotNumberText(s: string)
    requires s != [] && !IsSpace(s[0]) && !IsSpace(s[|s| - 1])
    requires !IsDigit(s[0]) && s[0] != '-' && s[0] != '+'
    ensures StrToNumber(s) == None
  {
    TrimUnpadded(s);
  }

  /** `coerce` keeps the type `getType` gives, except that booleans become
      text; it gives a number exactly for numeric values. */
  lemma CoercedType(v: Doc)
    ensures GetType(Coerce(v)) == (if v.Bool? then TEXT else GetType(v))
    ensures Coerce(v).Num? <==> GetType(v) == NUMERIC
  {
    if v.Bool? {
      CoercedBoolean(v);
    } else if !IsNaN(v) {
      assert Coerce(v) == Num(ToNumber(v).value);
    } else {
      CoercedNaN(v);
    }
  }

  lemma CoercedBoolean(v: Doc)
    requires v.Bool?
    ensures Coerce(v) == Str(if v.b then "true" else "false") && GetType(Coerce(v)) == TEXT
  {
    CoerceOfBoolean(v);
    BooleanTextNaN(v.b);
    NaNStringIsText(if v.b then "true" else "false");
  }

  lemma CoerceOfBoolean(v: Doc)
    requires v.Bool?
    ensures Coerce(v) == Str(if v.b then "true" else "false")
  {
  }

  /** The text of a boolean is NaN. */
  lemma BooleanTextNaN(b: bool)
    ensures StrToNumber(if b then "true" else "false") == None
  {
    var t := if b then "true" else "false";
    assert t[0] == 't' || t[0] == 'f';
    assert t[|t| - 1] == 'e';
    LetterIsNaN(t);
  }

  /** A string that is NaN has the type TEXT. */
  lemma NaNStringIsText(s: string)
    requires StrToNumber(s) == None
    ensures GetType(Str(s)) == TEXT
  {
  }

  lemma CoercedNaN(v: Doc)
    requires !v.Bool? && IsNaN(v)
    ensures Coerce(v) == Str(JsString(v)) && GetType(Coerce(v)) == TEXT && GetType(v) == TEXT
  {
    TextOfNaN(v);
    NaNStringIsText(JsString(v));
  }

  /** The text of a value that is NaN is itself NaN. */
  lemma TextOfNaN(v: Doc)
    requires !v.Bool? && IsNaN(v)
    ensures StrToNumber(JsString(v)) == None
  {
    match v
    case Undefined => LetterIsNaN("undefined");
    case Regex(src) => NotNumberText("/" + src + "/");
    case Obj(_) => NotNumberText("[object Object]");
    case Str(_) =>
    case Arr(_) =>
  }

  /** `placeholder` throws exactly for a text value that is not a string
      (it has no `split`); in particular never for a coerced value. */
  lemma PlaceThrows(p: Option<map<string, Doc>>, prop: string, val: Doc)
    ensures Place(p, prop, val).text.None? <==> GetType(val) == TEXT && !val.Str?
    ensures Place(p, prop, Coerce(val)).text.Some?
  {
    CoercedType(val);
  }

  /** A numeric or boolean value is stored whole under `prop` and referred to
      as `$prop`; `PARAMS` is created when absent. */
  lemma PlaceWhole(p: Option<map<string, Doc>>, prop: string, val: Doc)
    requires GetType(val) != TEXT
    ensures var o := Place(p, prop, val);
      o.text == Some("$" + prop) && o.params.Some? &&
      prop in o.params.value && o.params.value[prop] == val &&
      (p.None? ==> o.params.value == map[prop := val])
  {
  }

  /** `prop` followed by different indices names different keys. */
  lemma IndexedKeysDiffer(prop: string, i: nat, j: nat)
    requires i != j
    ensures prop + NatText(i) != prop + NatText(j)
  {
    if prop + NatText(i) == prop + NatText(j) {
      assert (prop + NatText(i))[|prop|..] == NatText(i);
      assert (prop + NatText(j))[|prop|..] == NatText(j);
      NatTextInjective(i, j);
    }
  }

  /** After storing `parts[..n]`, each non-empty part `i < n` is found under
      `prop<i>`. */
  lemma {:induction false} StoredPart(m: map<string, Doc>, prop: string, parts: seq<string>, n: nat, i: nat)
    requires i < n <= |parts| && parts[i] != ""
    ensures var q := StoreParts(m, prop, parts, n);
      prop + NatText(i) in q && q[prop + NatText(i)] == Str(parts[i])
  {
    var front := StoreParts(m, prop, parts, n - 1);
    var key := prop + NatText(n - 1);
    assert StoreParts(m, prop, parts, n) == if parts[n - 1] != "" then front[key := Str(parts[n - 1])] else front;
    if i < n - 1 {
      StoredPart(m, prop, parts, n - 1, i);
      IndexedKeysDiffer(prop, n - 1, i);
    }
  }

  predicate StartsWith(s: string, prefix: string) {
    |prefix| <= |s| && s[..|prefix|] == prefix
  }

  /** Storing the parts of a text under `prop` leaves every key that does not
      start with `prop` as it was. */
  lemma {:induction false} StorePartsKeepsOthers(m: map<string, Doc>, prop: string, parts: seq<string>, n: nat, k: string)
    requires n <= |parts| && !StartsWith(k, prop)
    ensures var q := StoreParts(m, prop, parts, n);
      (k in q <==> k in m) && (k in m ==> q[k] == m[k])
  {
    if n > 0 {
      StorePartsKeepsOthers(m, prop, parts, n - 1, k);
      assert (prop + NatText(n - 1))[..|prop|] == prop;
    }
  }

  /** `placeholder(ctx, prop, val)` leaves every `PARAMS` entry whose key does
      not start with `prop` as it was. */
  lemma PlaceKeepsOthers(p: Option<map<string, Doc>>, prop: string, val: Doc, k: string)
    requires !StartsWith(k, prop)
    ensures var o := Place(p, prop, val);
      (k in o.params.value <==> k in Created(p)) && (k in Created(p) ==> o.params.value[k] == Created(p)[k])
  {
    assert prop[..|prop|] == prop;
    if GetType(val) == TEXT && val.Str? {
      StorePartsKeepsOthers(Created(p), prop, Split(val.s, ' '), |Split(val.s, ' ')|, k);
    }
  }

  /** What a token of the query text stands for: the string `PARAMS` holds
      under the name after its '$'; the empty token stands for ''. */
  function Substitute(m: map<string, Doc>, token: string): (r: string)
    ensures token == "" ==> r == ""
  {
    if token != [] && token[1..] in m && m[token[1..]].Str? then m[token[1..]].s else ""
  }

  /** A text value round-trips through `PARAMS`: substituting each token of
      the placeholder and joining with ' ' gives the value back. */
  lemma PlaceTextRoundTrip(p: Option<map<string, Doc>>, prop: string, s: string)
    requires GetType(Str(s)) == TEXT
    ensures var o := Place(p, prop, Str(s)); var parts := Split(s, ' '); var ts := Tokens(prop, parts);
      o.text == Some(Join(ts, " ")) &&
      Join(seq(|ts|, i requires 0 <= i < |ts| => Substitute(o.params.value, ts[i])), " ") == s
  {
    var parts := Split(s, ' ');
    assert Place(p, prop, Str(s))
        == Outcome(Some(Join(Tokens(prop, parts), " ")), Some(StoreParts(Created(p), prop, parts, |parts|)));
    SubstitutedTokens(Created(p), prop, parts);
    SplitJoin(s, ' ');
  }

  /** Each token of the stored parts stands for its part. */
  lemma SubstitutedTokens(m: map<string, Doc>, prop: string, parts: seq<string>)
    ensures var q := StoreParts(m, prop, parts, |parts|); var ts := Tokens(prop, parts);
      seq(|ts|, i requires 0 <= i < |ts| => Substitute(q, ts[i])) == parts
  {
    var ts := Tokens(prop, parts);
    var q := StoreParts(m, prop, parts, |parts|);
    var back := seq(|ts|, i requires 0 <= i < |ts| => Substitute(q, ts[i]));
    forall i | 0 <= i < |parts|
      ensures back[i] == parts[i]
    {
      if parts[i] != "" {
        StoredPart(m, prop, parts, |parts|, i);
        assert ts[i] == "$" + prop + NatText(i);
        DropDollar(prop, NatText(i));
      }
    }
  }

  lemma DropDollar(prop: string, k: string)
    ensures ("$" + prop + k)[1..] == prop + k
  {
  }

  /** A field name of `\w` characters only. */
  predicate WordName(f: string) {
    forall i :: 0 <= i < |f| ==> IsWordChar(f[i])
  }

  /** A field name of word characters only is used as it is. */
  lemma {:induction false} EscapeWordName(f: string)
    requires WordName(f)
    ensures EscapeName(f) == f
  {
    EscapeWordChars(f);
  }

  lemma {:induction false} EscapeWordChars(f: string)
    requires forall i :: 0 <= i < |f| ==> IsWordChar(f[i])
    ensures '\\' !in f && EscapeEach(NeedsEscape, f) == f && Escape(NeedsEscape, f) == f
  {
    if f != [] {
      EscapeWordChars(f[1..]);
      assert f == [f[0]] + f[1..];
      EscapeWithoutBackslashes(NeedsEscape, f);
    }
  }

  /** `{ f: n }` or `{ f: { $ne: n } }` on a number: `@f:[$f $f]` (with a
      leading '-' for `$ne`), the number stored under `f`. */
  lemma MatchNumber(f: string, n: int, negated: bool, p: Option<map<string, Doc>>)
    requires WordName(f)
    ensures RenderMatch(Match(f, Num(n), negated), p)
         == Outcome(Some((if negated then "-@" else "@") + f + ":[$" + f + " $" + f + "]"), Some(Created(p)[f := Num(n)]))
  {
    EscapeWordName(f);
    assert Coerce(Num(n)) == Num(n);
    assert GetType(Num(n)) == NUMERIC;
    var o := Place(p, f, Num(n));
    assert o == Outcome(Some("$" + f), Some(Created(p)[f := Num(n)]));
    assert FormatVariable("$" + f, NUMERIC) == "[$" + f + " $" + f + "]";
    var head := (if negated then "-@" else "@") + f + ":";
    assert RenderMatch(Match(f, Num(n), negated), p) == Outcome(Some(head + FormatVariable("$" + f, NUMERIC)), o.params);
    assert head + ("[$" + f + " $" + f + "]") == (if negated then "-@" else "@") + f + ":[$" + f + " $" + f + "]";
  }

  /** `{ f: b }` on a boolean is a tag query on the text "true" or "false",
      which `placeholder` stores as the first part of a text, under `f0`. */
  lemma MatchBoolean(f: string, b: bool, negated: bool, p: Option<map<string, Doc>>)
    requires WordName(f)
    ensures var t := if b then "true" else "false";
      RenderMatch(Match(f, Bool(b), negated), p)
        == Outcome(Some((if negated then "-@" else "@") + f + ":{$" + f + "0}"), Some(Created(p)[f + "0" := Str(t)]))
  {
    var t := if b then "true" else "false";
    EscapeWordName(f);
    CoercedBoolean(Bool(b));
    BooleanWord(b);
    PlaceOneWord(p, f, t);
    var head := (if negated then "-@" else "@") + f + ":";
    assert RenderMatch(Match(f, Bool(b), negated), p)
        == Outcome(Some(head + FormatVariable("$" + f + "0", TAG)), Some(Created(p)[f + "0" := Str(t)]));
    TagText(negated, f);
  }

  lemma TagText(negated: bool, f: string)
    ensures (if negated then "-@" else "@") + f + ":" + FormatVariable("$" + f + "0", TAG)
         == (if negated then "-@" else "@") + f + ":{$" + f + "0}"
  {
  }

  /** The text of a boolean is one word. */
  lemma BooleanWord(b: bool)
    ensures var t := if b then "true" else "false"; t != "" && ' ' !in t
  {
  }

  /** A text of one word is stored under `prop0` and referred to as
      `$prop0`. */
  lemma PlaceOneWord(p: Option<map<string, Doc>>, prop: string, t: string)
    requires GetType(Str(t)) == TEXT && t != "" && ' ' !in t
    ensures Place(p, prop, Str(t)) == Outcome(Some("$" + prop + "0"), Some(Created(p)[prop + "0" := Str(t)]))
  {
    assert Split(t, ' ') == [t];
    assert NatText(0) == "0";
    assert Tokens(prop, [t]) == ["$" + prop + "0"];
    assert StoreParts(Created(p), prop, [t], 1) == Created(p)[prop + "0" := Str(t)];
  }

  /** `$gt`, `$gte`, `$lt` and `$lte` on a value that converts to a number
      store that number under `f` and bound `@f` by `$f`; on one that does
      not, `placeholder` is handed NaN and throws. */
  lemma RangeNumber(f: string, b: Bound, v: Doc, p: Option<map<string, Doc>>)
    requires WordName(f)
    ensures ToNumber(v).Some? ==>
      RenderRange(Range(f, b, v), p)
        == Outcome(Some("@" + f + ":" + RangeText(b, "$" + f)), Some(Created(p)[f := Num(ToNumber(v).value)]))
    ensures ToNumber(v).Some? && b == Above ==>
      RenderRange(Range(f, b, v), p).text == Some("@" + f + ":[($" + f + " +inf]")
    ensures ToNumber(v).Some? && b == AtLeast ==>
      RenderRange(Range(f, b, v), p).text == Some("@" + f + ":[$" + f + " +inf]")
    ensures ToNumber(v).Some? && b == Below ==>
      RenderRange(Range(f, b, v), p).text == Some("@" + f + ":[-inf ($" + f + "]")
    ensures ToNumber(v).Some? && b == AtMost ==>
      RenderRange(Range(f, b, v), p).text == Some("@" + f + ":[-inf $" + f + "]")
    ensures ToNumber(v).None? ==> RenderRange(Range(f, b, v), p).text.None?
  {
    EscapeWordName(f);
    if ToNumber(v).Some? {
      assert GetType(Num(ToNumber(v).value)) == NUMERIC;
      BoundText(f, b);
    }
  }

  lemma BoundText(f: string, b: Bound)
    ensures "@" + f + ":" + RangeText(b, "$" + f) == match b
      case Above => "@" + f + ":[($" + f + " +inf]"
      case AtLeast => "@" + f + ":[$" + f + " +inf]"
      case Below => "@" + f + ":[-inf ($" + f + "]"
      case AtMost => "@" + f + ":[-inf $" + f + "]"
  {
    var x := "$" + f;
    match b
    case Above => assert "@" + f + ":" + ("[(" + x + " +inf]") == "@" + f + ":[($" + f + " +inf]";
    case AtLeast => assert "@" + f + ":" + ("[" + x + " +inf]") == "@" + f + ":[$" + f + " +inf]";
    case Below => assert "@" + f + ":" + ("[-inf (" + x + "]") == "@" + f + ":[-inf ($" + f + "]";
    case AtMost => assert "@" + f + ":" + ("[-inf " + x + "]") == "@" + f + ":[-inf $" + f + "]";
  }

  /** A group of no clauses: '' for `$and`, "()" for `$or`, "-()" for `$nor`
      and `$not`; `PARAMS` is untouched. */
  lemma EmptyGroup(k: Combinator, p: Option<map<string, Doc>>)
    ensures RenderSpec(Group(k, []), p).params == p
    ensures RenderSpec(Group(k, []), p).text
         == Some(match k case AndGroup => "" case OrGroup => "()" case NorGroup => "-()" case NotGroup => "-()")
  {
    assert RenderParts(Group(k, []), 0, p) == Rendered(Some([]), p);
    assert NonEmpty([]) == [];
    match k
    case AndGroup =>
    case OrGroup => assert "(" + "" + ")" == "()";
    case NorGroup => assert "-(" + "" + ")" == "-()";
    case NotGroup => assert "-(" + "" + ")" == "-()";
  }

  /** `$and` of one clause renders as that clause. */
  lemma SingleAnd(c: Clause, p: Option<map<string, Doc>>)
    ensures RenderSpec(Group(AndGroup, [c]), p) == RenderSpec(c, p)
  {
    var g := Group(AndGroup, [c]);
    assert g.parts[0] == c;
    assert RenderParts(g, 0, p) == Rendered(Some([]), p);
    var o := RenderSpec(c, p);
    if o.text.Some? {
      var x := o.text.value;
      var none: seq<string> := [];
      assert none + [x] == [x];
      assert RenderParts(g, 1, p) == Rendered(Some([x]), o.params);
      assert NonEmpty([x]) == if x != "" then [x] else [];
    }
  }

  /** `.filter(Boolean)` keeps the non-empty texts, in order. */
  lemma {:induction false} NonEmptyKeeps(ts: seq<string>)
    ensures forall t :: t in NonEmpty(ts) <==> t in ts && t != ""
    ensures (forall i :: 0 <= i < |ts| ==> ts[i] != "") ==> NonEmpty(ts) == ts
  {
    if ts != [] {
      NonEmptyKeeps(ts[1..]);
      assert ts == [ts[0]] + ts[1..];
    }
  }

  /** Two equalities on the same field share its `PARAMS` entry: the text
      names `$f` twice and the later value is the one that is kept. */
  lemma SharedField(f: string, a: int, b: int, p: Option<map<string, Doc>>)
    requires WordName(f)
    ensures var t := "@" + f + ":[$" + f + " $" + f + "]";
      RenderSpec(Group(OrGroup, [Match(f, Num(a), false), Match(f, Num(b), false)]), p)
        == Outcome(Some("(" + t + "|" + t + ")"), Some(Created(p)[f := Num(b)]))
  {
    var g := Group(OrGroup, [Match(f, Num(a), false), Match(f, Num(b), false)]);
    var t := "@" + f + ":[$" + f + " $" + f + "]";
    var p1 := Some(Created(p)[f := Num(a)]);
    var p2 := Some(Created(p)[f := Num(b)]);
    EqualityOnNumber(f, a, p);
    EqualityOnNumber(f, b, p1);
    assert Created(p1)[f := Num(b)] == p2.value;
    TwoParts(g, p, t, p1, t, p2);
    OrOfTwo(t, t);
  }

  /** `{ f: n }` renders as `@f:[$f $f]`, the number stored under `f`. */
  lemma EqualityOnNumber(f: string, n: int, p: Option<map<string, Doc>>)
    requires WordName(f)
    ensures RenderMatch(Match(f, Num(n), false), p) == Outcome(Some("@" + f + ":[$" + f + " $" + f + "]"), Some(Created(p)[f := Num(n)]))
  {
    MatchNumber(f, n, false, p);
  }

  /** A group of two clauses that both render. */
  lemma TwoParts(g: Clause, p: Option<map<string, Doc>>, x: string, p1: Option<map<string, Doc>>, y: string, p2: Option<map<string, Doc>>)
    requires g.Group? && |g.parts| == 2
    requires RenderSpec(g.parts[0], p) == Outcome(Some(x), p1) && RenderSpec(g.parts[1], p1) == Outcome(Some(y), p2)
    ensures RenderParts(g, 2, p) == Rendered(Some([x, y]), p2)
  {
    var none: seq<string> := [];
    assert RenderParts(g, 0, p) == Rendered(Some(none), p);
    assert none + [x] == [x];
    assert RenderParts(g, 1, p) == Rendered(Some([x]), p1);
    assert [x] + [y] == [x, y];
  }

  /** `$or` of two non-empty texts. */
  lemma OrOfTwo(x: string, y: string)
    requires x != "" && y != ""
    ensures GroupText(OrGroup, NonEmpty([x, y])) == "(" + x + "|" + y + ")"
  {
    NonEmptyKeeps([x, y]);
    assert Join([x, y], "|") == x + "|" + y;
    assert "(" + (x + "|" + y) + ")" == "(" + x + "|" + y + ")";
  }

  /** Placing numbers: one `$<ep><i>` token per number, each stored under
      `<ep><i>`. */
  lemma {:induction false} PlaceEachNumbers(p: Option<map<string, Doc>>, ep: string, cs: seq<Doc>, n: nat)
    requires n <= |cs| && forall i :: 0 <= i < |cs| ==> cs[i].Num?
    ensures var r := PlaceEach(p, ep, cs, n);
      r.texts == Some(NumberTokens(ep, n)) &&
      forall i :: 0 <= i < n ==> r.params.Some? && ep + NatText(i) in r.params.value && r.params.value[ep + NatText(i)] == cs[i]
  {
    if n > 0 {
      PlaceEachNumbers(p, ep, cs, n - 1);
      var front := PlaceEach(p, ep, cs, n - 1);
      var key := ep + NatText(n - 1);
      PlaceWhole(front.params, key, cs[n - 1]);
      var o := Place(front.params, key, cs[n - 1]);
      assert PlaceEach(p, ep, cs, n) == Rendered(Some(front.texts.value + ["$" + key]), o.params);
      PlaceKeepsEarlierKeys(front.params, ep, cs, n - 1);
      NumberTokensStep(ep, n);
    }
  }

  /** The tokens `$<ep>0`, ..., `$<ep><n-1>`. */
  function NumberTokens(ep: string, n: nat): (ts: seq<string>)
    ensures |ts| == n
  {
    seq(n, i requires 0 <= i < n => "$" + ep + NatText(i))
  }

  lemma NumberTokensStep(ep: string, n: nat)
    requires n > 0
    ensures NumberTokens(ep, n - 1) + ["$" + (ep + NatText(n - 1))] == NumberTokens(ep, n)
  {
    var s1 := NumberTokens(ep, n - 1);
    var s2 := NumberTokens(ep, n);
    forall i | 0 <= i < n
      ensures (s1 + ["$" + (ep + NatText(n - 1))])[i] == s2[i]
    {
      if i == n - 1 {
        assert "$" + (ep + NatText(n - 1)) == "$" + ep + NatText(n - 1);
      }
    }
  }

  /** Storing a value under `<ep><n>` keeps what is stored under the keys
      `<ep><i>`, `i < n`. */
  lemma PlaceKeepsEarlierKeys(q: Option<map<string, Doc>>, ep: string, cs: seq<Doc>, n: nat)
    requires n < |cs| && cs[n].Num?
    requires forall i :: 0 <= i < n ==> q.Some? && ep + NatText(i) in q.value && q.value[ep + NatText(i)] == cs[i]
    ensures var o := Place(q, ep + NatText(n), cs[n]);
      forall i :: 0 <= i <= n ==> o.params.Some? && ep + NatText(i) in o.params.value && o.params.value[ep + NatText(i)] == cs[i]
  {
    PlaceWhole(q, ep + NatText(n), cs[n]);
    forall i | 0 <= i < n
      ensures ep + NatText(i) != ep + NatText(n)
    {
      IndexedKeysDiffer(ep, i, n);
    }
  }

  function Nums(ns: seq<int>): (vs: seq<Doc>)
    ensures |vs| == |ns| && forall i :: 0 <= i < |ns| ==> vs[i] == Num(ns[i])
  {
    seq(|ns|, i requires 0 <= i < |ns| => Num(ns[i]))
  }

  /** `$in` / `$nin` on numbers: `(@f:[$f0 $f0]|@f:[$f1 $f1]|...)`, with a
      leading '-' for `$nin`, and number `i` stored under `f<i>`. */
  lemma MembersNumbers(f: string, ns: seq<int>, excluded: bool, p: Option<map<string, Doc>>)
    requires WordName(f)
    ensures var o := RenderMembers(Members(f, Nums(ns), excluded), p);
      o.text == Some((if excluded then "-" else "") + "(" +
                     Join(seq(|ns|, i requires 0 <= i < |ns| => var v := "$" + f + NatText(i); "@" + f + ":[" + v + " " + v + "]"), "|") + ")") &&
      forall i :: 0 <= i < |ns| ==> o.params.Some? && f + NatText(i) in o.params.value && o.params.value[f + NatText(i)] == Num(ns[i])
  {
    var vs := Nums(ns);
    EscapeWordName(f);
    CoercedNumbers(vs);
    PlaceEachNumbers(p, f, vs, |vs|);
    NumericTerms(f, vs);
  }

  /** The alternatives of `$in` on numbers, with their placeholders. */
  lemma NumericTerms(f: string, vs: seq<Doc>)
    requires forall i :: 0 <= i < |vs| ==> vs[i].Num?
    ensures var vars := NumberTokens(f, |vs|);
      seq(|vars|, i requires 0 <= i < |vars| => "@" + f + ":" + FormatVariable(vars[i], GetType(vs[i])))
        == seq(|vs|, i requires 0 <= i < |vs| => var v := "$" + f + NatText(i); "@" + f + ":[" + v + " " + v + "]")
  {
    var vars := NumberTokens(f, |vs|);
    var terms := seq(|vars|, i requires 0 <= i < |vars| => "@" + f + ":" + FormatVariable(vars[i], GetType(vs[i])));
    var expected := seq(|vs|, i requires 0 <= i < |vs| => var v := "$" + f + NatText(i); "@" + f + ":[" + v + " " + v + "]");
    forall i | 0 <= i < |vs|
      ensures terms[i] == expected[i]
    {
      NumericTerm(f, vs[i], vars[i]);
    }
    assert terms == expected;
  }

  /** The term of one number. */
  lemma NumericTerm(f: string, x: Doc, v: string)
    requires x.Num?
    ensures "@" + f + ":" + FormatVariable(v, GetType(x)) == "@" + f + ":[" + v + " " + v + "]"
  {
    assert GetType(x) == NUMERIC;
    assert "@" + f + ":" + ("[" + v + " " + v + "]") == "@" + f + ":[" + v + " " + v + "]";
  }

  /** `coerce` leaves numbers as they are. */
  lemma CoercedNumbers(vs: seq<Doc>)
    requires forall i :: 0 <= i < |vs| ==> vs[i].Num?
    ensures CoerceEach(vs) == vs
  {
    forall i | 0 <= i < |vs|
      ensures CoerceEach(vs)[i] == vs[i]
    {
      assert !IsNaN(vs[i]);
    }
  }

  /** `$all` on numbers: `@f:{$f0} @f:{$f1} ...`, number `i` stored under
      `f<i>`. */
  lemma TagsNumbers(f: string, ns: seq<int>, p: Option<map<string, Doc>>)
    requires WordName(f)
    ensures var o := RenderTags(Tags(f, Nums(ns)), p);
      o.text == Some(Join(seq(|ns|, i requires 0 <= i < |ns| => var v := "$" + f + NatText(i); "@" + f + ":{" + v + "}"), " ")) &&
      forall i :: 0 <= i < |ns| ==> o.params.Some? && f + NatText(i) in o.params.value && o.params.value[f + NatText(i)] == Num(ns[i])
  {
    var vs := Nums(ns);
    EscapeWordName(f);
    CoercedNumbers(vs);
    PlaceEachNumbers(p, f, vs, |vs|);
    var vars := NumberTokens(f, |ns|);
    assert seq(|vars|, i requires 0 <= i < |vars| => "@" + f + ":{" + vars[i] + "}")
        == seq(|ns|, i requires 0 <= i < |ns| => var v := "$" + f + NatText(i); "@" + f + ":{" + v + "}");
  }

  /** `$nin` is `$in` with a leading '-'; both store the same `PARAMS`. */
  lemma NinNegatesIn(f: string, vs: seq<Doc>, p: Option<map<string, Doc>>)
    ensures var a := RenderMembers(Members(f, vs, false), p); var b := RenderMembers(Members(f, vs, true), p);
      b.params == a.params && (b.text.Some? <==> a.text.Some?) && (a.text.Some? ==> b.text.value == "-" + a.text.value)
  {
    var ep := EscapeName(f);
    var r := PlaceEach(p, ep, CoerceEach(vs), |vs|);
    if r.texts.Some? {
      MembersTextNegated(ep, r.texts.value, vs);
    }
  }

  lemma MembersTextNegated(ep: string, vars: seq<string>, vs: seq<Doc>)
    requires |vars| == |vs|
    ensures MembersText(ep, vars, vs, true) == "-" + MembersText(ep, vars, vs, false)
  {
    var j := Join(seq(|vars|, i requires 0 <= i < |vars| => "@" + ep + ":" + FormatVariable(vars[i], GetType(vs[i]))), "|");
    assert MembersText(ep, vars, vs, false) == "" + "(" + j + ")";
    assert MembersText(ep, vars, vs, true) == "-" + "(" + j + ")";
    Parenthesised(j);
  }

  lemma Parenthesised(j: string)
    ensures "-" + "(" + j + ")" == "-" + ("" + "(" + j + ")")
  {
  }

  /** `$ne` is `$eq` with a leading '-'; both store the same `PARAMS`. */
  lemma NeNegatesEq(f: string, v: Doc, p: Option<map<string, Doc>>)
    ensures var a := RenderMatch(Match(f, v, false), p); var b := RenderMatch(Match(f, v, true), p);
      b.params == a.params && (b.text.Some? <==> a.text.Some?) && (a.text.Some? ==> b.text.value == "-" + a.text.value)
  {
    var ep := EscapeName(f);
    var o := Place(p, ep, Coerce(v));
    if o.text.Some? {
      DashPrefix(ep, FormatVariable(o.text.value, GetType(v)));
    }
  }

  lemma DashPrefix(ep: string, x: string)
    ensures "-@" + ep + ":" + x == "-" + ("@" + ep + ":" + x)
  {
  }

  /** `$nor` is `$or` with a leading '-'; both store the same `PARAMS`. */
  lemma NorNegatesOr(cs: seq<Clause>, p: Option<map<string, Doc>>)
    ensures var a := RenderSpec(Group(OrGroup, cs), p); var b := RenderSpec(Group(NorGroup, cs), p);
      b.params == a.params && (b.text.Some? <==> a.text.Some?) && (a.text.Some? ==> b.text.value == "-" + a.text.value)
  {
    RenderPartsOfCombinator(OrGroup, NorGroup, cs, |cs|, p);
  }

  /** The children render the same whatever the combinator. */
  lemma {:induction false} RenderPartsOfCombinator(k1: Combinator, k2: Combinator, cs: seq<Clause>, n: nat, p: Option<map<string, Doc>>)
    requires n <= |cs|
    ensures RenderParts(Group(k1, cs), n, p) == RenderParts(Group(k2, cs), n, p)
  {
    if n > 0 {
      RenderPartsOfCombinator(k1, k2, cs, n - 1, p);
    }
  }
}
