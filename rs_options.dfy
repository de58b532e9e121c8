/** The `SearchOptions` record the RediSearch backend fills in: the query
    dialect, the `PARAMS` values the placeholders refer to, `SORTBY` and
    `LIMIT`. */
module RsOptions {
  import opened Wrappers
  import opened Document

  datatype Direction = Asc | Desc

  /** `SORTBY: { BY, DIRECTION }`. */
  datatype SortBy = SortBy(field: string, direction: Direction)

  /** `LIMIT: { from, size }`; both are whatever values the caller passed. */
  datatype Page = Page(from: Doc, size: Doc)

  /** The modelled fields of an options record as a value; None is a field
      the record does not have. */
  datatype Options = Options(
    dialect: Option<int>,
    params: Option<map<string, Doc>>,
    sortBy: Option<SortBy>,
    limit: Option<Page>)

  const NoOptions := Options(None, None, None, None)

  /** `{ DIALECT: 2, ...given }` as a value: the caller's fields, and dialect
      2 unless the caller sets one. */
  function WithDefaults(given: Options): (o: Options)
    ensures o.dialect == if given.dialect.Some? then given.dialect else Some(2)
    ensures o.params == given.params && o.sortBy == given.sortBy && o.limit == given.limit
  {
    given.(dialect := if given.dialect.Some? then given.dialect else Some(2))
  }

  class SearchOptions {
    var dialect: Option<int>
    var params: Option<map<string, Doc>>
    var sortBy: Option<SortBy>
    var limit: Option<Page>

    function Snapshot(): Options
      reads this
    {
      Options(dialect, params, sortBy, limit)
    }

    /** `{ DIALECT: 2, ...given }`: a new record. */
    constructor Spread(given: Options)
      ensures Snapshot() == WithDefaults(given)
    {
      dialect := if given.dialect.Some? then given.dialect else Some(2);
      params := given.params;
      sortBy := given.sortBy;
      limit := given.limit;
    }
  }
}
