/** `sort(sorts)`: the first entry of the `$sort` specification becomes the
    `SORTBY` of the options record. RediSearch sorts by one field only. */
module RsSort {
  import opened Wrappers
  import opened Document
  import opened Text
  import opened RsOptions

  /** `Object.entries(d)`: an object's own properties in order, an array's
      indices with their elements, a string's indices with its characters, and
      nothing for the other values. Undefined and null, for which
      `Object.entries` throws, have no entries either, which throws one step
      later in the same way. */
  function Entries(d: Doc): seq<(string, Doc)> {
    match d
    case Obj(fields) => fields
    case Arr(xs) => seq(|xs|, i requires 0 <= i < |xs| => (NatText(i), xs[i]))
    case Str(s) => seq(|s|, i requires 0 <= i < |s| => (NatText(i), Str([s[i]])))
    case _ => []
  }

  /** The `SORTBY` that `sort(sorts)` sets: the key of the first entry, in
      descending order exactly when that entry's value is the number -1.
      None when there is no first entry, where `order[0]` throws. */
  function SortOrder(sorts: Doc): (r: Option<SortBy>)
    ensures r.Some? <==> Entries(sorts) != []
    ensures r.Some? ==> r.value.field == Entries(sorts)[0].0
    ensures r.Some? ==> (r.value.direction == Desc <==> Entries(sorts)[0].1 == Num(-1))
  {
    var es := Entries(sorts);
    if es == [] then None
    else Some(SortBy(es[0].0, if es[0].1 == Num(-1) then Desc else Asc))
  }

  /** `sort(sorts)(index, rsQuery, ctx)`: sets `SORTBY` and returns the index,
      the query text and the same record; None when it throws, before the
      record is touched. */
  method Sort(sorts: Doc, index: string, rsQuery: string, ctx: SearchOptions) returns (r: Option<(string, string, SearchOptions)>)
    modifies ctx
    ensures r.Some? <==> SortOrder(sorts).Some?
    ensures r.Some? ==> r.value == (index, rsQuery, ctx)
    ensures ctx.Snapshot() == if r.Some? then old(ctx.Snapshot()).(sortBy := SortOrder(sorts)) else old(ctx.Snapshot())
  {
    var order := Entries(sorts);
    if order == [] {
      return None;
    }
    ctx.sortBy := Some(SortBy(order[0].0, if order[0].1 == Num(-1) then Desc else Asc));
    return Some((index, rsQuery, ctx));
  }

  /** Only the first entry counts: whatever follows it is ignored. */
  lemma LaterEntriesIgnored(f: string, v: Doc, rest: seq<(string, Doc)>)
    ensures SortOrder(Obj([(f, v)] + rest)) == Some(SortBy(f, if v == Num(-1) then Desc else Asc))
  {
    assert Entries(Obj([(f, v)] + rest))[0] == (f, v);
  }

  /** The comparison is strict: the text "-1", or any number but -1, sorts in
      ascending order. */
  lemma OnlyMinusOneDescends(f: string, v: Doc)
    requires v != Num(-1)
    ensures SortOrder(Obj([(f, v)])).value.direction == Asc
  {
    LaterEntriesIgnored(f, v, []);
    assert [(f, v)] + [] == [(f, v)];
  }

  /** An array specification sorts by the property "0", after its first
      element's direction. */
  lemma ArraySortsByFirstIndex(x: Doc, xs: seq<Doc>)
    ensures SortOrder(Arr([x] + xs)) == Some(SortBy("0", if x == Num(-1) then Desc else Asc))
  {
    assert Entries(Arr([x] + xs))[0] == (NatText(0), x);
    assert NatText(0) == "0";
  }
}
