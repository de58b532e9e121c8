/** `paginate(skip, limit)`: the `LIMIT` of the options record, with the
    RediSearch defaults of offset 0 and ten results. */
module RsPaginate {
  import opened Document
  import opened Wrappers
  import opened RsOptions

  /** The `LIMIT` that `paginate(skip, limit)` sets: both bounds always, each
      the value given or its default when undefined. */
  function PageOf(skip: Doc, limit: Doc): (p: Page)
    ensures skip.Undefined? ==> p.from == Num(0)
    ensures !skip.Undefined? ==> p.from == skip
    ensures limit.Undefined? ==> p.size == Num(10)
    ensures !limit.Undefined? ==> p.size == limit
  {
    Page(if skip.Undefined? then Num(0) else skip, if limit.Undefined? then Num(10) else limit)
  }

  /** `paginate(skip, limit)(index, rsQuery, ctx)`: replaces `LIMIT` and
      returns the index, the query text and the same record. */
  method Paginate(skip: Doc, limit: Doc, index: string, rsQuery: string, ctx: SearchOptions) returns (r: (string, string, SearchOptions))
    modifies ctx
    ensures r == (index, rsQuery, ctx)
    ensures ctx.Snapshot() == old(ctx.Snapshot()).(limit := Some(PageOf(skip, limit)))
  {
    ctx.limit := Some(Page(if skip.Undefined? then Num(0) else skip, if limit.Undefined? then Num(10) else limit));
    return (index, rsQuery, ctx);
  }

  /** The options record after `LIMIT` is replaced. */
  function Paginated(o: Options, skip: Doc, limit: Doc): Options {
    o.(limit := Some(PageOf(skip, limit)))
  }

  /** Paginating replaces `LIMIT` instead of combining with it: the last call
      decides, and nothing but `LIMIT` changes. */
  lemma LastPageWins(o: Options, skip: Doc, limit: Doc, skip2: Doc, limit2: Doc)
    ensures Paginated(Paginated(o, skip, limit), skip2, limit2) == Paginated(o, skip2, limit2)
    ensures var q := Paginated(o, skip, limit);
      q.dialect == o.dialect && q.params == o.params && q.sortBy == o.sortBy
  {
  }
}
