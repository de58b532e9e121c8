/** The fifteen operator names of the query language: the keys of the
    validator table, which are also the keys a dialect may implement. */
module Operators {
  import opened Wrappers

  datatype Op = And | Or | Nor | Not | In | All | Nin | Gt | Gte | Lt | Lte | Ne | Eq | Like | Exists

  /** The key under which an operator is written in a query. */
  function Name(op: Op): string {
    match op
    case And => "$and"
    case Or => "$or"
    case Nor => "$nor"
    case Not => "$not"
    case In => "$in"
    case All => "$all"
    case Nin => "$nin"
    case Gt => "$gt"
    case Gte => "$gte"
    case Lt => "$lt"
    case Lte => "$lte"
    case Ne => "$ne"
    case Eq => "$eq"
    case Like => "$like"
    case Exists => "$exists"
  }

  /** `key in operators`: the operator a key names, if it names one. */
  function Parse(k: string): (r: Option<Op>)
    ensures r.Some? ==> Name(r.value) == k
    ensures r.None? ==> forall op: Op :: Name(op) != k
  {
    if k == "$and" then Some(And)
    else if k == "$or" then Some(Or)
    else if k == "$nor" then Some(Nor)
    else if k == "$not" then Some(Not)
    else if k == "$in" then Some(In)
    else if k == "$all" then Some(All)
    else if k == "$nin" then Some(Nin)
    else if k == "$gt" then Some(Gt)
    else if k == "$gte" then Some(Gte)
    else if k == "$lt" then Some(Lt)
    else if k == "$lte" then Some(Lte)
    else if k == "$ne" then Some(Ne)
    else if k == "$eq" then Some(Eq)
    else if k == "$like" then Some(Like)
    else if k == "$exists" then Some(Exists)
    else None
  }

  /** Every operator's name parses back to that operator. */
  lemma ParseName(op: Op)
    ensures Parse(Name(op)) == Some(op)
  {
  }

  /** `$and`, `$or` and `$nor`, whose operand is an array of sub-queries. */
  predicate IsLogicalArray(op: Op) {
    op == And || op == Or || op == Nor
  }
}
