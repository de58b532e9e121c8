/** The RediSearch entry point: `toRedisSearch(baseQuery, query)` turns a
    query into the `[index, query text, options]` tuple a FT.SEARCH call takes.
    `$sort`, `$limit` and `$skip` become `SORTBY` and `LIMIT`; every other key
    is compiled as the filter. */
module RsIndex {
  import opened Wrappers
  import opened Document
  import opened Text
  import opened Utils
  import opened Errors
  import opened RsOptions
  import opened RsFilter
  import opened RsRender
  import opened RsSort
  import opened RsPaginate

  /** `[index]`, `[index, text]` or `[index, text, options]`, where the text
      and the options may also be undefined. */
  datatype BaseQuery = BaseQuery(index: string, text: Option<string>, options: Option<Options>)

  /** What a call throws: the error compiling the filter throws, or the
      TypeError generating the text raises (a text placeholder for a value that
      is not a string, a `$like` pattern that is not a string). */
  datatype Thrown = Rejected(error: JsError) | GenerationTypeError

  /** The keys taken out of the query before it is compiled. */
  predicate IsOptionKey(k: string) {
    k == "$sort" || k == "$limit" || k == "$skip"
  }

  /** `const { $sort, $limit, $skip, ...conditions } = query`: the other
      entries, in their order. */
  function Conditions(fields: seq<(string, Doc)>): (r: seq<(string, Doc)>)
    ensures forall e :: e in r <==> e in fields && !IsOptionKey(e.0)
    ensures IsSubsequence(r, fields)
    decreases |fields|
  {
    if fields == [] then []
    else
      var n := |fields| - 1;
      var front := Conditions(fields[..n]);
      assert fields[..n] + [fields[n]] == fields;
      if IsOptionKey(fields[n].0) then
        SubsequenceAppend(front, fields[..n], fields[n]);
        front
      else
        var r := front + [fields[n]];
        assert r[..|r| - 1] == front;
        r
  }

  /** The tuple `rsQuery` starts as: the index, the base text or '', and the
      caller's options over `DIALECT: 2`. */
  function Start(base: BaseQuery): (string, string, Options) {
    (base.index,
     if base.text.Some? then base.text.value else "",
     WithDefaults(if base.options.Some? then base.options.value else NoOptions))
  }

  /** The filter step: '*' in place of an empty text when there are no
      conditions; otherwise the compiled filter appended to the text, with the
      placeholders' values in `PARAMS`. */
  function Filtered(conds: seq<(string, Doc)>, q: (string, string, Options)): Result<(string, string, Options), Thrown> {
    if conds == [] then Success((q.0, if q.1 == "" then "*" else q.1, q.2))
    else
      var run := RsCompile(Obj(conds));
      if run.Failure? then Failure(Rejected(run.error))
      else
        var o := RenderSpec(run.value, q.2.params);
        if o.text.None? then Failure(GenerationTypeError)
        else Success((q.0, Trim(q.1 + " " + o.text.value), q.2.(params := o.params)))
  }

  /** Sorting applies when `$sort` is truthy and has a key. */
  predicate SortApplies(sorts: Doc) {
    Truthy(sorts) && Entries(sorts) != []
  }

  /** Paginating applies when `$skip` or `$limit` is a number. */
  predicate PageApplies(skip: Doc, limit: Doc) {
    skip.Num? || limit.Num?
  }

  /** The sort and paginate steps, on the options after the filter step. */
  function Arranged(query: seq<(string, Doc)>, o: Options): Options {
    var sorts := FieldValue(query, "$sort");
    var skip := FieldValue(query, "$skip");
    var limit := FieldValue(query, "$limit");
    var sorted := if SortApplies(sorts) then o.(sortBy := SortOrder(sorts)) else o;
    if PageApplies(skip, limit) then Paginated(sorted, skip, limit) else sorted
  }

  /** The whole call, on values. */
  function Convert(base: BaseQuery, query: seq<(string, Doc)>): Result<(string, string, Options), Thrown> {
    var f := Filtered(Conditions(query), Start(base));
    if f.Failure? then f else Success((f.value.0, f.value.1, Arranged(query, f.value.2)))
  }

  /** `toRedisSearch(baseQuery, query)`: a new options record, filled in as
      `Convert` says. */
  method ToRedisSearch(base: BaseQuery, query: Doc) returns (r: Result<(string, string, SearchOptions), Thrown>)
    requires query.Obj?
    ensures var c := Convert(base, query.fields);
      (r.Success? <==> c.Success?) &&
      (r.Failure? ==> r.error == c.error) &&
      (r.Success? ==> r.value.0 == c.value.0 && r.value.1 == c.value.1 &&
                      fresh(r.value.2) && r.value.2.Snapshot() == c.value.2)
  {
    var f := FilterStep(base, Conditions(query.fields));
    if f.Failure? {
      return Failure(f.error);
    }
    var (index, text, ctx) := f.value;
    index, text, ctx := ArrangeStep(query.fields, index, text, ctx);
    return Success((index, text, ctx));
  }

  /** Lines 12-28: the options record, and the filter applied to it. */
  method FilterStep(base: BaseQuery, conds: seq<(string, Doc)>) returns (r: Result<(string, string, SearchOptions), Thrown>)
    ensures var c := Filtered(conds, Start(base));
      (r.Success? <==> c.Success?) &&
      (r.Failure? ==> r.error == c.error) &&
      (r.Success? ==> r.value.0 == c.value.0 && r.value.1 == c.value.1 &&
                      fresh(r.value.2) && r.value.2.Snapshot() == c.value.2)
  {
    var index := base.index;
    var text := if base.text.Some? then base.text.value else "";
    var ctx := new SearchOptions.Spread(if base.options.Some? then base.options.value else NoOptions);
    if |conds| > 0 {
      var run := RsCompile(Obj(conds));
      if run.Failure? {
        return Failure(Rejected(run.error));
      }
      var t := Apply(run.value, index, text, ctx);
      if t.None? {
        return Failure(GenerationTypeError);
      }
      return Success(t.value);
    }
    if text == "" {
      text := "*";
    }
    return Success((index, text, ctx));
  }

  /** Lines 30-36: sorting and paginating, each when it applies. */
  method ArrangeStep(query: seq<(string, Doc)>, index: string, text: string, ctx: SearchOptions) returns (index': string, text': string, ctx': SearchOptions)
    modifies ctx
    ensures index' == index && text' == text && ctx' == ctx
    ensures ctx.Snapshot() == Arranged(query, old(ctx.Snapshot()))
  {
    index', text', ctx' := index, text, ctx;
    var sorts := FieldValue(query, "$sort");
    var skip := FieldValue(query, "$skip");
    var limit := FieldValue(query, "$limit");
    if Truthy(sorts) && |Entries(sorts)| > 0 {
      var t := Sort(sorts, index', text', ctx');
      index', text', ctx' := t.value.0, t.value.1, t.value.2;
    }
    if skip.Num? || limit.Num? {
      var t := Paginate(skip, limit, index', text', ctx');
      index', text', ctx' := t.0, t.1, t.2;
    }
  }

  /** The call is the filter step followed by the sort and paginate steps. */
  lemma ConvertSteps(base: BaseQuery, query: seq<(string, Doc)>)
    ensures var r := Convert(base, query); var f := Filtered(Conditions(query), Start(base));
      (r.Success? <==> f.Success?) &&
      (r.Success? ==> r.value == (f.value.0, f.value.1, Arranged(query, f.value.2)))
  {
  }

  /** The filter step changes nothing but the text and `PARAMS`. */
  lemma FilteredKeepsOptions(conds: seq<(string, Doc)>, q: (string, string, Options))
    ensures var f := Filtered(conds, q);
      f.Success? ==> f.value.0 == q.0 && f.value.2 == q.2.(params := f.value.2.params)
  {
  }

  /** The index name comes back as given. */
  lemma KeepsIndex(base: BaseQuery, query: seq<(string, Doc)>)
    ensures Convert(base, query).Success? ==> Convert(base, query).value.0 == base.index
  {
    ConvertSteps(base, query);
    FilteredKeepsOptions(Conditions(query), Start(base));
  }

  /** `DIALECT` is 2 unless the caller's options set it. */
  lemma DialectDefaultsToTwo(base: BaseQuery, query: seq<(string, Doc)>)
    ensures var r := Convert(base, query);
      r.Success? ==> r.value.2.dialect == if base.options.Some? && base.options.value.dialect.Some? then base.options.value.dialect else Some(2)
  {
    ConvertSteps(base, query);
    FilteredKeepsOptions(Conditions(query), Start(base));
  }

  /** Without conditions nothing is compiled and nothing can throw; an empty
      text becomes '*' and a non-empty one is kept. */
  lemma NoConditions(base: BaseQuery, query: seq<(string, Doc)>)
    requires Conditions(query) == []
    ensures var r := Convert(base, query);
      r.Success? && r.value.1 == (if Start(base).1 == "" then "*" else Start(base).1) &&
      r.value.2.params == Start(base).2.params
  {
  }

  /** With conditions, the generated text follows the base text after a
      space, the whole trimmed, and `PARAMS` holds what generating put there. */
  lemma WithConditions(base: BaseQuery, query: seq<(string, Doc)>, run: Clause, g: string)
    requires Conditions(query) != [] && RsCompile(Obj(Conditions(query))) == Success(run)
    requires RenderSpec(run, Start(base).2.params).text == Some(g)
    ensures var r := Convert(base, query);
      r.Success? && r.value.1 == Trim(Start(base).1 + " " + g) &&
      r.value.2.params == RenderSpec(run, Start(base).2.params).params
  {
  }

  /** A filter that does not compile makes the call throw compiling's error,
      whatever the options keys say. */
  lemma RejectedFilter(base: BaseQuery, query: seq<(string, Doc)>, e: JsError)
    requires Conditions(query) != [] && RsCompile(Obj(Conditions(query))) == Failure(e)
    ensures Convert(base, query) == Failure(Rejected(e))
  {
  }

  /** `SORTBY` is set exactly when `$sort` has a key; otherwise it is the
      caller's. */
  lemma SortsOnlyWithKeys(base: BaseQuery, query: seq<(string, Doc)>)
    ensures var r := Convert(base, query);
      var sorts := FieldValue(query, "$sort");
      r.Success? ==>
        (SortApplies(sorts) ==> r.value.2.sortBy == SortOrder(sorts) && r.value.2.sortBy.Some?) &&
        (!SortApplies(sorts) ==> r.value.2.sortBy == Start(base).2.sortBy)
  {
    ConvertSteps(base, query);
    FilteredKeepsOptions(Conditions(query), Start(base));
  }

  /** `LIMIT` is set exactly when `$skip` or `$limit` is a number; otherwise
      it is the caller's. */
  lemma PaginatesOnlyWithNumbers(base: BaseQuery, query: seq<(string, Doc)>)
    ensures var r := Convert(base, query);
      var skip := FieldValue(query, "$skip");
      var limit := FieldValue(query, "$limit");
      r.Success? ==>
        (PageApplies(skip, limit) ==> r.value.2.limit == Some(PageOf(skip, limit))) &&
        (!PageApplies(skip, limit) ==> r.value.2.limit == Start(base).2.limit)
  {
    ConvertSteps(base, query);
    FilteredKeepsOptions(Conditions(query), Start(base));
  }

  /** The options keys never reach the filter: adding one leaves the
      conditions as they were. */
  lemma OptionKeysNotCompiled(query: seq<(string, Doc)>, k: string, v: Doc)
    requires IsOptionKey(k)
    ensures Conditions(query + [(k, v)]) == Conditions(query)
  {
    var q := query + [(k, v)];
    assert q[..|q| - 1] == query;
  }
}
