/** Calling the generator: `placeholder` and the operator closures change the
    `PARAMS` of the `SearchOptions` record they are given, and return the
    query text. Each method is proved to do what `RsFilter.RenderSpec` and
    `RsFilter.Place` say. */
module RsRender {
  import opened Wrappers
  import opened Document
  import opened Text
  import opened RsOptions
  import opened RsFilter

  /** `placeholder(ctx, prop, val)`. */
  method Placeholder(ctx: SearchOptions, prop: string, val: Doc) returns (r: Option<string>)
    modifies ctx
    ensures Outcome(r, ctx.params) == Place(old(ctx.params), prop, val)
    ensures ctx.Snapshot() == old(ctx.Snapshot()).(params := ctx.params)
  {
    if ctx.params.None? {
      ctx.params := Some(map[]);
    }
    if GetType(val) == TEXT {
      if !val.Str? {
        return None;
      }
      var parts := Split(val.s, ' ');
      var tokens := StoreTextParts(ctx, prop, parts);
      return Some(Join(tokens, " "));
    }
    ctx.params := Some(ctx.params.value[prop := val]);
    return Some("$" + prop);
  }

  /** `val.split(' ').map(...)`: stores each non-empty part `i` under
      `prop<i>` and returns the tokens. */
  method StoreTextParts(ctx: SearchOptions, prop: string, parts: seq<string>) returns (tokens: seq<string>)
    requires ctx.params.Some?
    modifies ctx
    ensures tokens == Tokens(prop, parts)
    ensures ctx.params == Some(StoreParts(old(ctx.params.value), prop, parts, |parts|))
    ensures ctx.Snapshot() == old(ctx.Snapshot()).(params := ctx.params)
  {
    tokens := [];
    var i := 0;
    while i < |parts|
      invariant 0 <= i <= |parts|
      invariant tokens == Tokens(prop, parts)[..i]
      invariant ctx.params == Some(StoreParts(old(ctx.params.value), prop, parts, i))
      invariant ctx.Snapshot() == old(ctx.Snapshot()).(params := ctx.params)
    {
      if parts[i] != "" {
        ctx.params := Some(ctx.params.value[prop + NatText(i) := Str(parts[i])]);
        tokens := tokens + ["$" + prop + NatText(i)];
      } else {
        tokens := tokens + [""];
      }
      i := i + 1;
    }
    assert Tokens(prop, parts)[..i] == Tokens(prop, parts);
  }

  /** Calling the closure `c` with `ctx`. */
  method Render(ctx: SearchOptions, c: Clause) returns (r: Option<string>)
    modifies ctx
    ensures Outcome(r, ctx.params) == RenderSpec(c, old(ctx.params))
    ensures ctx.Snapshot() == old(ctx.Snapshot()).(params := ctx.params)
    decreases c, 1
  {
    match c {
      case Group(k, parts) =>
        var texts := RenderChildren(ctx, c);
        r := if texts.Some? then Some(GroupText(k, NonEmpty(texts.value))) else None;
      case Members(_, _, _) => r := MembersClosure(ctx, c);
      case Tags(_, _) => r := TagsClosure(ctx, c);
      case Range(_, _, _) => r := RangeClosure(ctx, c);
      case Match(_, _, _) => r := MatchClosure(ctx, c);
      case Wildcard(_, _) => r := WildcardClosure(ctx, c);
      case Unnamed => r := None;
    }
  }

  /** The closure of `$in` and `$nin`. */
  method MembersClosure(ctx: SearchOptions, c: Clause) returns (r: Option<string>)
    requires c.Members?
    modifies ctx
    ensures Outcome(r, ctx.params) == RenderSpec(c, old(ctx.params))
    ensures ctx.Snapshot() == old(ctx.Snapshot()).(params := ctx.params)
  {
    var f, vs, excluded := c.field, c.values, c.excluded;
    CaseOfMembers(c, ctx.params);
    var ep := EscapeName(f);
    var vars := PlaceElements(ctx, ep, CoerceEach(vs));
    r := if vars.Some? then Some(MembersText(ep, vars.value, vs, excluded)) else None;
  }

  /** The closure of `$all`. */
  method TagsClosure(ctx: SearchOptions, c: Clause) returns (r: Option<string>)
    requires c.Tags?
    modifies ctx
    ensures Outcome(r, ctx.params) == RenderSpec(c, old(ctx.params))
    ensures ctx.Snapshot() == old(ctx.Snapshot()).(params := ctx.params)
  {
    var f, vs := c.field, c.values;
    CaseOfTags(c, ctx.params);
    var ep := EscapeName(f);
    var vars := PlaceElements(ctx, ep, CoerceEach(vs));
    r := if vars.Some? then Some(TagsText(ep, vars.value)) else None;
  }

  /** The closure of `$gt`, `$gte`, `$lt` and `$lte`. */
  method RangeClosure(ctx: SearchOptions, c: Clause) returns (r: Option<string>)
    requires c.Range?
    modifies ctx
    ensures Outcome(r, ctx.params) == RenderSpec(c, old(ctx.params))
    ensures ctx.Snapshot() == old(ctx.Snapshot()).(params := ctx.params)
  {
    var f, b, v := c.field, c.bound, c.value;
    CaseOfRange(c, ctx.params);
    var ep := EscapeName(f);
    var variable := Placeholder(ctx, ep, NumberOf(v));
    r := if variable.Some? then Some("@" + ep + ":" + RangeText(b, variable.value)) else None;
  }

  /** The closure of `$eq` and `$ne`. */
  method MatchClosure(ctx: SearchOptions, c: Clause) returns (r: Option<string>)
    requires c.Match?
    modifies ctx
    ensures Outcome(r, ctx.params) == RenderSpec(c, old(ctx.params))
    ensures ctx.Snapshot() == old(ctx.Snapshot()).(params := ctx.params)
  {
    var f, v, negated := c.field, c.value, c.negated;
    CaseOfMatch(c, ctx.params);
    var ep := EscapeName(f);
    var t := GetType(v);
    var variable := Placeholder(ctx, ep, Coerce(v));
    r := if variable.Some? then Some((if negated then "-@" else "@") + ep + ":" + FormatVariable(variable.value, t)) else None;
  }

  /** The closure of `$like`. */
  method WildcardClosure(ctx: SearchOptions, c: Clause) returns (r: Option<string>)
    requires c.Wildcard?
    modifies ctx
    ensures Outcome(r, ctx.params) == RenderSpec(c, old(ctx.params))
    ensures ctx.Snapshot() == old(ctx.Snapshot()).(params := ctx.params)
  {
    var f, pattern := c.field, c.pattern;
    CaseOfWildcard(c, ctx.params);
    var ep := EscapeName(f);
    if !pattern.Str? {
      return None;
    }
    var parts := Split(pattern.s, '*');
    var texts := PlacePatternParts(ctx, ep, parts, CoerceEach(StringValues(parts)));
    r := if texts.Some? then Some("@" + ep + ":" + Join(texts.value, "*")) else None;
  }

  lemma CaseOfMembers(c: Clause, p: Option<map<string, Doc>>)
    requires c.Members?
    ensures RenderSpec(c, p) == RenderMembers(c, p)
  {
  }

  lemma CaseOfTags(c: Clause, p: Option<map<string, Doc>>)
    requires c.Tags?
    ensures RenderSpec(c, p) == RenderTags(c, p)
  {
  }

  lemma CaseOfRange(c: Clause, p: Option<map<string, Doc>>)
    requires c.Range?
    ensures RenderSpec(c, p) == RenderRange(c, p)
  {
  }

  lemma CaseOfMatch(c: Clause, p: Option<map<string, Doc>>)
    requires c.Match?
    ensures RenderSpec(c, p) == RenderMatch(c, p)
  {
  }

  lemma CaseOfWildcard(c: Clause, p: Option<map<string, Doc>>)
    requires c.Wildcard?
    ensures RenderSpec(c, p) == RenderWildcard(c, p)
  {
  }

  /** `children.map(child => child(ctx))`: the children's texts in order;
      None once a child throws. */
  method RenderChildren(ctx: SearchOptions, c: Clause) returns (texts: Option<seq<string>>)
    requires c.Group?
    modifies ctx
    ensures Rendered(texts, ctx.params) == RenderParts(c, |c.parts|, old(ctx.params))
    ensures ctx.Snapshot() == old(ctx.Snapshot()).(params := ctx.params)
    decreases c, 0
  {
    var done: seq<string> := [];
    var i := 0;
    while i < |c.parts|
      invariant 0 <= i <= |c.parts|
      invariant Rendered(Some(done), ctx.params) == RenderParts(c, i, old(ctx.params))
      invariant ctx.Snapshot() == old(ctx.Snapshot()).(params := ctx.params)
    {
      var t := Render(ctx, c.parts[i]);
      if t.None? {
        PartsStayFailed(c, i + 1, |c.parts|, old(ctx.params));
        return None;
      }
      done := done + [t.value];
      i := i + 1;
    }
    return Some(done);
  }

  /** The placeholders of `$in`, `$nin` and `$all`, one per (coerced)
      element. */
  method PlaceElements(ctx: SearchOptions, ep: string, cs: seq<Doc>) returns (vars: Option<seq<string>>)
    modifies ctx
    ensures Rendered(vars, ctx.params) == PlaceEach(old(ctx.params), ep, cs, |cs|)
    ensures ctx.Snapshot() == old(ctx.Snapshot()).(params := ctx.params)
  {
    var done: seq<string> := [];
    var i := 0;
    while i < |cs|
      invariant 0 <= i <= |cs|
      invariant Rendered(Some(done), ctx.params) == PlaceEach(old(ctx.params), ep, cs, i)
      invariant ctx.Snapshot() == old(ctx.Snapshot()).(params := ctx.params)
    {
      var t := Placeholder(ctx, ep + NatText(i), cs[i]);
      if t.None? {
        EachStaysFailed(old(ctx.params), ep, cs, i + 1, |cs|);
        return None;
      }
      done := done + [t.value];
      i := i + 1;
    }
    return Some(done);
  }

  /** The placeholders of `$like`, one per non-empty part of the pattern,
      holding the coerced part. */
  method PlacePatternParts(ctx: SearchOptions, ep: string, parts: seq<string>, cs: seq<Doc>) returns (texts: Option<seq<string>>)
    requires |parts| == |cs|
    modifies ctx
    ensures Rendered(texts, ctx.params) == PlaceParts(old(ctx.params), ep, parts, cs, |parts|)
    ensures ctx.Snapshot() == old(ctx.Snapshot()).(params := ctx.params)
  {
    var done: seq<string> := [];
    var i := 0;
    while i < |parts|
      invariant 0 <= i <= |parts|
      invariant Rendered(Some(done), ctx.params) == PlaceParts(old(ctx.params), ep, parts, cs, i)
      invariant ctx.Snapshot() == old(ctx.Snapshot()).(params := ctx.params)
    {
      var t := PlacePart(ctx, ep, parts[i], cs[i], i, done);
      if t.None? {
        PartsOfPatternStayFailed(old(ctx.params), ep, parts, cs, i + 1, |parts|);
        return None;
      }
      done := t.value;
      i := i + 1;
    }
    return Some(done);
  }

  /** One part of a `$like` pattern: '' for an empty part, else the trimmed
      placeholder of the coerced part, after the texts `done`. */
  method PlacePart(ctx: SearchOptions, ep: string, part: string, c: Doc, i: nat, done: seq<string>) returns (texts: Option<seq<string>>)
    modifies ctx
    ensures Rendered(texts, ctx.params) == PartStep(Rendered(Some(done), old(ctx.params)), ep, part, c, i)
    ensures ctx.Snapshot() == old(ctx.Snapshot()).(params := ctx.params)
  {
    if part == "" {
      return Some(done + [""]);
    }
    var t := Placeholder(ctx, ep + NatText(i), c);
    if t.None? {
      return None;
    }
    return Some(done + [Trim(t.value)]);
  }

  /** Once a child throws, the later children are not called. */
  lemma {:induction false} PartsStayFailed(c: Clause, n: nat, m: nat, p: Option<map<string, Doc>>)
    requires c.Group? && n <= m <= |c.parts| && RenderParts(c, n, p).texts.None?
    ensures RenderParts(c, m, p) == RenderParts(c, n, p)
    decreases m - n
  {
    if n < m {
      PartsStayFailed(c, n, m - 1, p);
    }
  }

  lemma {:induction false} EachStaysFailed(p: Option<map<string, Doc>>, ep: string, cs: seq<Doc>, n: nat, m: nat)
    requires n <= m <= |cs| && PlaceEach(p, ep, cs, n).texts.None?
    ensures PlaceEach(p, ep, cs, m) == PlaceEach(p, ep, cs, n)
    decreases m - n
  {
    if n < m {
      EachStaysFailed(p, ep, cs, n, m - 1);
    }
  }

  lemma {:induction false} PartsOfPatternStayFailed(p: Option<map<string, Doc>>, ep: string, parts: seq<string>, cs: seq<Doc>, n: nat, m: nat)
    requires n <= m <= |parts| == |cs| && PlaceParts(p, ep, parts, cs, n).texts.None?
    ensures PlaceParts(p, ep, parts, cs, m) == PlaceParts(p, ep, parts, cs, n)
    decreases m - n
  {
    if n < m {
      PartsOfPatternStayFailed(p, ep, parts, cs, n, m - 1);
      var front := PlaceParts(p, ep, parts, cs, m - 1);
      assert PlaceParts(p, ep, parts, cs, m) == PartStep(front, ep, parts[m - 1], cs[m - 1], m - 1);
    }
  }

  /** The function the default export of the filter module returns, called
      with `(index, rsQuery, ctx)`: the same index and record, and the base
      query and the generated text joined by a space and trimmed; None when
      rendering throws. */
  method Apply(run: Clause, index: string, rsQuery: string, ctx: SearchOptions) returns (r: Option<(string, string, SearchOptions)>)
    modifies ctx
    ensures var o := RenderSpec(run, old(ctx.params));
      ctx.params == o.params && (r.Some? <==> o.text.Some?) &&
      (r.Some? ==> r.value == (index, Trim(rsQuery + " " + o.text.value), ctx))
    ensures ctx.Snapshot() == old(ctx.Snapshot()).(params := ctx.params)
  {
    var text := Render(ctx, run);
    if text.None? {
      return None;
    }
    assert Join([rsQuery, text.value], " ") == rsQuery + " " + text.value;
    return Some((index, Trim(Join([rsQuery, text.value], " ")), ctx));
  }
}
