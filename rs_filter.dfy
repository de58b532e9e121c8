/** The RediSearch `compile` dialect: a query becomes a deferred query-string
    generator. Each clause, when rendered against a `SearchOptions` record,
    stores its values in `PARAMS` and refers to them as `$name` placeholders.
    This module holds the generator's values and the functions that say what
    rendering produces; the rendering itself, which changes the record, is in
    `RsRender`. */
module RsFilter {
  import opened Wrappers
  import opened Document
  import opened Text
  import opened Operators
  import opened Utils
  import opened Errors
  import opened Types
  import opened Converter
  import opened ConverterFacts

  /** The three RediSearch field types the generator tells apart. */
  datatype Datatype = TEXT | NUMERIC | TAG

  /** `getType(val)`: booleans are tags, values that convert to a number are
      numeric, everything else is text. */
  function GetType(v: Doc): Datatype {
    if v.Bool? then TAG else if !IsNaN(v) then NUMERIC else TEXT
  }

  /** `coerce(val)`: the number a non-boolean numeric value converts to,
      otherwise the value's text. */
  function Coerce(v: Doc): (r: Doc)
    ensures r.Num? || r.Str?
  {
    if !v.Bool? && !IsNaN(v) then Num(ToNumber(v).value) else Str(JsString(v))
  }

  /** `Number(value)`; NaN, which `placeholder` handles like any other text
      value that is not a string, is written as undefined. */
  function NumberOf(v: Doc): Doc {
    if ToNumber(v).Some? then Num(ToNumber(v).value) else Undefined
  }

  /** `formatVariable(variable, type)`. */
  function FormatVariable(variable: string, t: Datatype): string {
    match t
    case NUMERIC => "[" + variable + " " + variable + "]"
    case TAG => "{" + variable + "}"
    case TEXT => "\"" + variable + "\""
  }

  /** The characters of `\w`. */
  predicate IsWordChar(c: char) {
    'a' <= c <= 'z' || 'A' <= c <= 'Z' || '0' <= c <= '9' || c == '_'
  }

  /** The charset `[^\w\d_]` of the escape the generator uses. */
  predicate NeedsEscape(c: char) {
    !IsWordChar(c)
  }

  /** `escape(prop.toString())`. */
  function EscapeName(s: string): string {
    Escape(NeedsEscape, s)
  }

  datatype Combinator = AndGroup | OrGroup | NorGroup | NotGroup

  datatype Bound = Above | AtLeast | Below | AtMost

  /** The closure an operator returns, as the data it captured. The field is
      `prop`, the first segment of the operator's data path. */
  datatype Clause =
    | Group(combinator: Combinator, parts: seq<Clause>)         // $and, $or, $nor, $not
    | Members(field: string, values: seq<Doc>, excluded: bool)  // $in, $nin
    | Tags(field: string, values: seq<Doc>)                     // $all
    | Range(field: string, bound: Bound, value: Doc)            // $gt, $gte, $lt, $lte
    | Match(field: string, value: Doc, negated: bool)           // $eq, $ne
    | Wildcard(field: string, pattern: Doc)                     // $like
    | Unnamed   // an operator with an empty data path: `prop.toString()` throws

  /** The children of `$in`, `$nin` and `$all`: the array's elements. An
      element that is an object was compiled to a closure; it stands here as
      undefined. */
  function ElementValues(kids: seq<Out<Clause>>): (vs: seq<Doc>)
    ensures |vs| == |kids|
  {
    seq(|kids|, i requires 0 <= i < |kids| => if kids[i].Lit? then kids[i].value else Undefined)
  }

  function AndOp(dp: seq<Seg>, v: Doc, kids: seq<Out<Clause>>, o: OpOptions): Clause { Group(AndGroup, Gens(kids)) }
  function OrOp(dp: seq<Seg>, v: Doc, kids: seq<Out<Clause>>, o: OpOptions): Clause { Group(OrGroup, Gens(kids)) }
  function NorOp(dp: seq<Seg>, v: Doc, kids: seq<Out<Clause>>, o: OpOptions): Clause { Group(NorGroup, Gens(kids)) }
  function NotOp(dp: seq<Seg>, v: Doc, kids: seq<Out<Clause>>, o: OpOptions): Clause { Group(NotGroup, Gens(kids)) }
  function InOp(dp: seq<Seg>, v: Doc, kids: seq<Out<Clause>>, o: OpOptions): Clause {
    if dp == [] then Unnamed else Members(SegText(dp[0]), ElementValues(kids), false)
  }
  function NinOp(dp: seq<Seg>, v: Doc, kids: seq<Out<Clause>>, o: OpOptions): Clause {
    if dp == [] then Unnamed else Members(SegText(dp[0]), ElementValues(kids), true)
  }
  function AllOp(dp: seq<Seg>, v: Doc, kids: seq<Out<Clause>>, o: OpOptions): Clause {
    if dp == [] then Unnamed else Tags(SegText(dp[0]), ElementValues(kids))
  }
  function GtOp(dp: seq<Seg>, v: Doc, kids: seq<Out<Clause>>, o: OpOptions): Clause {
    if dp == [] then Unnamed else Range(SegText(dp[0]), Above, v)
  }
  function GteOp(dp: seq<Seg>, v: Doc, kids: seq<Out<Clause>>, o: OpOptions): Clause {
    if dp == [] then Unnamed else Range(SegText(dp[0]), AtLeast, v)
  }
  function LtOp(dp: seq<Seg>, v: Doc, kids: seq<Out<Clause>>, o: OpOptions): Clause {
    if dp == [] then Unnamed else Range(SegText(dp[0]), Below, v)
  }
  function LteOp(dp: seq<Seg>, v: Doc, kids: seq<Out<Clause>>, o: OpOptions): Clause {
    if dp == [] then Unnamed else Range(SegText(dp[0]), AtMost, v)
  }
  function NeOp(dp: seq<Seg>, v: Doc, kids: seq<Out<Clause>>, o: OpOptions): Clause {
    if dp == [] then Unnamed else Match(SegText(dp[0]), v, true)
  }
  function EqOp(dp: seq<Seg>, v: Doc, kids: seq<Out<Clause>>, o: OpOptions): Clause {
    if dp == [] then Unnamed else Match(SegText(dp[0]), v, false)
  }
  function LikeOp(dp: seq<Seg>, v: Doc, kids: seq<Out<Clause>>, o: OpOptions): Clause {
    if dp == [] then Unnamed else Wildcard(SegText(dp[0]), v)
  }

  /** The dialect: every operator but `$exists`, and fields at most one
      level deep. */
  function RsDialect(): Dialect<Clause, Clause> {
    Dialect(
      map[And := AndOp, Or := OrOp, Nor := NorOp, Not := NotOp, In := InOp, All := AllOp, Nin := NinOp,
          Gt := GtOp, Gte := GteOp, Lt := LtOp, Lte := LteOp, Ne := NeOp, Eq := EqOp, Like := LikeOp],
      None, Some(1), None, None)
  }

  /** `compile(query)`: the generator, or the error compiling throws. */
  function RsCompile(query: Doc): (r: Result<Clause, JsError>)
    ensures r.Success? <==> Clean(RsDialect(), query, [])
  {
    assert HasMandatory(RsDialect());
    CompileSucceedsIffClean(RsDialect(), query, map[]);
    var c := Compile(RsDialect(), query, map[]);
    if c.Success? then Success(c.value.artifact) else Failure(c.error)
  }

  /** `PARAMS` as `placeholder` finds it: created empty when absent. */
  function Created(p: Option<map<string, Doc>>): map<string, Doc> {
    if p.Some? then p.value else map[]
  }

  /** The placeholders of a text split on ' ': `$prop<i>` for each non-empty
      part `i`; an empty part gives undefined, which joins as ''. */
  function Tokens(prop: string, parts: seq<string>): (ts: seq<string>)
    ensures |ts| == |parts|
  {
    seq(|parts|, i requires 0 <= i < |parts| => if parts[i] != "" then "$" + prop + NatText(i) else "")
  }

  /** `PARAMS` after storing `parts[..n]`, each non-empty part `i` under
      `prop<i>`, in order. */
  function StoreParts(m: map<string, Doc>, prop: string, parts: seq<string>, n: nat): map<string, Doc>
    requires n <= |parts|
  {
    if n == 0 then m
    else
      var q := StoreParts(m, prop, parts, n - 1);
      if parts[n - 1] != "" then q[prop + NatText(n - 1) := Str(parts[n - 1])] else q
  }

  /** What rendering gives: its text, or None where it throws, and `PARAMS`
      afterwards (None while still absent). */
  datatype Outcome = Outcome(text: Option<string>, params: Option<map<string, Doc>>)

  /** `placeholder(ctx, prop, val)` on `PARAMS` `p`. A text value is split on
      ' ' and stored part by part; a text value that is not a string has no
      `split` and throws; any other value is stored under `prop`. */
  function Place(p: Option<map<string, Doc>>, prop: string, val: Doc): (o: Outcome)
    ensures o.params.Some?
  {
    var m := Created(p);
    if GetType(val) == TEXT then
      if val.Str? then
        var parts := Split(val.s, ' ');
        Outcome(Some(Join(Tokens(prop, parts), " ")), Some(StoreParts(m, prop, parts, |parts|)))
      else Outcome(None, Some(m))
    else Outcome(Some("$" + prop), Some(m[prop := val]))
  }

  /** Rendering a sequence of steps in order: their texts, or None once one
      throws, and `PARAMS` afterwards. */
  datatype Rendered = Rendered(texts: Option<seq<string>>, params: Option<map<string, Doc>>)

  /** `.filter(Boolean)` on strings: the non-empty ones. */
  function NonEmpty(ts: seq<string>): (r: seq<string>)
    ensures forall i :: 0 <= i < |r| ==> r[i] != ""
  {
    if ts == [] then [] else (if ts[0] != "" then [ts[0]] else []) + NonEmpty(ts[1..])
  }

  function GroupText(k: Combinator, ts: seq<string>): string {
    match k
    case AndGroup => Join(ts, " ")
    case OrGroup => "(" + Join(ts, "|") + ")"
    case NorGroup => "-(" + Join(ts, "|") + ")"
    case NotGroup => "-(" + Join(ts, " ") + ")"
  }

  function RangeText(b: Bound, variable: string): string {
    match b
    case Above => "[(" + variable + " +inf]"
    case AtLeast => "[" + variable + " +inf]"
    case Below => "[-inf (" + variable + "]"
    case AtMost => "[-inf " + variable + "]"
  }

  /** `$in`/`$nin`: the alternatives `@prop:<formatted variable>`, formatted
      by the type of the original element. */
  function MembersText(ep: string, vars: seq<string>, vs: seq<Doc>, excluded: bool): string
    requires |vars| == |vs|
  {
    (if excluded then "-" else "") + "(" +
    Join(seq(|vars|, i requires 0 <= i < |vars| => "@" + ep + ":" + FormatVariable(vars[i], GetType(vs[i]))), "|") + ")"
  }

  function TagsText(ep: string, vars: seq<string>): string {
    Join(seq(|vars|, i requires 0 <= i < |vars| => "@" + ep + ":{" + vars[i] + "}"), " ")
  }

  /** Calling the closure `c` against `PARAMS` `p`. */
  function RenderSpec(c: Clause, p: Option<map<string, Doc>>): Outcome
    decreases c, 1
  {
    match c
    case Group(k, parts) =>
      var r := RenderParts(c, |parts|, p);
      Outcome(if r.texts.Some? then Some(GroupText(k, NonEmpty(r.texts.value))) else None, r.params)
    case Members(_, _, _) => RenderMembers(c, p)
    case Tags(_, _) => RenderTags(c, p)
    case Range(_, _, _) => RenderRange(c, p)
    case Match(_, _, _) => RenderMatch(c, p)
    case Wildcard(_, _) => RenderWildcard(c, p)
    case Unnamed => Outcome(None, p)
  }

  /** The closure of `$in` (`excluded` false) and `$nin`. */
  function RenderMembers(c: Clause, p: Option<map<string, Doc>>): Outcome
    requires c.Members?
  {
    var ep := EscapeName(c.field);
    var r := PlaceEach(p, ep, CoerceEach(c.values), |c.values|);
    Outcome(if r.texts.Some? then Some(MembersText(ep, r.texts.value, c.values, c.excluded)) else None, r.params)
  }

  /** The closure of `$all`. */
  function RenderTags(c: Clause, p: Option<map<string, Doc>>): Outcome
    requires c.Tags?
  {
    var ep := EscapeName(c.field);
    var r := PlaceEach(p, ep, CoerceEach(c.values), |c.values|);
    Outcome(if r.texts.Some? then Some(TagsText(ep, r.texts.value)) else None, r.params)
  }

  /** The closure of `$gt`, `$gte`, `$lt` and `$lte`. */
  function RenderRange(c: Clause, p: Option<map<string, Doc>>): Outcome
    requires c.Range?
  {
    var ep := EscapeName(c.field);
    var o := Place(p, ep, NumberOf(c.value));
    Outcome(if o.text.Some? then Some("@" + ep + ":" + RangeText(c.bound, o.text.value)) else None, o.params)
  }

  /** The closure of `$eq` (`negated` false) and `$ne`. */
  function RenderMatch(c: Clause, p: Option<map<string, Doc>>): Outcome
    requires c.Match?
  {
    var ep := EscapeName(c.field);
    var o := Place(p, ep, Coerce(c.value));
    Outcome(if o.text.Some? then Some((if c.negated then "-@" else "@") + ep + ":" + FormatVariable(o.text.value, GetType(c.value))) else None, o.params)
  }

  /** The closure of `$like`. */
  function RenderWildcard(c: Clause, p: Option<map<string, Doc>>): Outcome
    requires c.Wildcard?
  {
    if !c.pattern.Str? then Outcome(None, p)
    else
      var ep := EscapeName(c.field);
      var parts := Split(c.pattern.s, '*');
      var r := PlaceParts(p, ep, parts, CoerceEach(StringValues(parts)), |parts|);
      Outcome(if r.texts.Some? then Some("@" + ep + ":" + Join(r.texts.value, "*")) else None, r.params)
  }

  /** `children.map(child => child(ctx))` for the first `n` children. */
  function RenderParts(c: Clause, n: nat, p: Option<map<string, Doc>>): (r: Rendered)
    requires c.Group? && n <= |c.parts|
    ensures r.texts.Some? ==> |r.texts.value| == n
    decreases c, 0, n
  {
    if n == 0 then Rendered(Some([]), p)
    else
      var front := RenderParts(c, n - 1, p);
      if front.texts.None? then front
      else
        var o := RenderSpec(c.parts[n - 1], front.params);
        Rendered(if o.text.Some? then Some(front.texts.value + [o.text.value]) else None, o.params)
  }

  /** `coerce` applied to every element. */
  function CoerceEach(vs: seq<Doc>): (cs: seq<Doc>)
    ensures |cs| == |vs|
  {
    seq(|vs|, i requires 0 <= i < |vs| => Coerce(vs[i]))
  }

  /** The parts of a pattern as string values. */
  function StringValues(parts: seq<string>): (vs: seq<Doc>)
    ensures |vs| == |parts|
  {
    seq(|parts|, i requires 0 <= i < |parts| => Str(parts[i]))
  }

  /** One placeholder `<ep><i>` per value `i < n`, holding that (already
      coerced) value. */
  function PlaceEach(p: Option<map<string, Doc>>, ep: string, cs: seq<Doc>, n: nat): (r: Rendered)
    requires n <= |cs|
    ensures r.texts.Some? ==> |r.texts.value| == n
  {
    if n == 0 then Rendered(Some([]), p)
    else
      var front := PlaceEach(p, ep, cs, n - 1);
      if front.texts.None? then front
      else
        var o := Place(front.params, ep + NatText(n - 1), cs[n - 1]);
        Rendered(if o.text.Some? then Some(front.texts.value + [o.text.value]) else None, o.params)
  }

  /** `$like`: one trimmed placeholder `<ep><i>` per non-empty part `i < n`
      of the pattern split on '*', holding the coerced part `cs[i]`; an
      empty part gives ''. */
  function PlaceParts(p: Option<map<string, Doc>>, ep: string, parts: seq<string>, cs: seq<Doc>, n: nat): (r: Rendered)
    requires n <= |parts| == |cs|
    ensures r.texts.Some? ==> |r.texts.value| == n
  {
    if n == 0 then Rendered(Some([]), p)
    else PartStep(PlaceParts(p, ep, parts, cs, n - 1), ep, parts[n - 1], cs[n - 1], n - 1)
  }

  /** Part `i` of a `$like` pattern, after the parts before it gave `front`. */
  function PartStep(front: Rendered, ep: string, part: string, c: Doc, i: nat): (r: Rendered)
    ensures front.texts.Some? && r.texts.Some? ==> |r.texts.value| == |front.texts.value| + 1
    ensures front.texts.None? ==> r == front
  {
    if front.texts.None? then front
    else if part == "" then Rendered(Some(front.texts.value + [""]), front.params)
    else
      var o := Place(front.params, ep + NatText(i), c);
      Rendered(if o.text.Some? then Some(front.texts.value + [Trim(o.text.value)]) else None, o.params)
  }
}
