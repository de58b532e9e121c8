/** The validator table: for each of the fifteen operators, a check of the
    operand's shape and, for every operator except `$and`, `$or` and `$nor`,
    a check that the operator stands under some field. */
module Validation {
  import opened Wrappers
  import opened Document
  import opened Operators
  import opened Utils
  import opened Errors
  import opened Text

  /** `validations[op](path, value, dataPath)`: the error the operator's rule
      reports, or None where the rule returns `false`. */
  function Validate(op: Op, path: seq<Seg>, value: Doc, dataPath: seq<Seg>): Option<QueryValidationError> {
    var unexpected := Some(QueryValidationError(UnexpectedValue, value, path, dataPath));
    var notFound := Some(QueryValidationError(PropertyNotFound, value, path, dataPath));
    match op
    case And | Or | Nor =>
      if !value.Arr? || exists i :: 0 <= i < |value.items| && !IsPlainObject(value.items[i]) then unexpected
      else None
    case Not =>
      if !IsPlainObject(value) then unexpected
      else if |dataPath| == 0 then notFound
      else None
    case In | All | Nin =>
      if !value.Arr? then unexpected
      else if |dataPath| == 0 then notFound
      else None
    case Gt | Gte | Lt | Lte =>
      if value.Bool? || IsNaN(value) then unexpected
      else if |dataPath| == 0 then notFound
      else None
    case Ne | Eq =>
      if value.Arr? || IsPlainObject(value) then unexpected
      else if |dataPath| == 0 then notFound
      else None
    case Like =>
      if !value.Str? && !IsRegExp(value) then unexpected
      else if |dataPath| == 0 then notFound
      else None
    case Exists =>
      if !value.Bool? then unexpected
      else if |dataPath| == 0 then notFound
      else None
  }

  /** The kinds of operand the operators take. */
  datatype Operand =
    | SubQueries  // an array of plain objects
    | SubQuery    // a plain object
    | List        // an array of values
    | Number      // a non-boolean value that converts to a number
    | Scalar      // anything but an array or a plain object
    | Pattern     // a string or a regular expression
    | Flag        // a boolean

  function OperandOf(op: Op): Operand {
    match op
    case And | Or | Nor => SubQueries
    case Not => SubQuery
    case In | All | Nin => List
    case Gt | Gte | Lt | Lte => Number
    case Ne | Eq => Scalar
    case Like => Pattern
    case Exists => Flag
  }

  /** Which values are operands of each kind. */
  predicate Accepts(kind: Operand, value: Doc) {
    match kind
    case SubQueries => value.Arr? && forall i :: 0 <= i < |value.items| ==> value.items[i].Obj?
    case SubQuery => value.Obj?
    case List => value.Arr?
    case Number => !value.Bool? && ToNumber(value).Some?
    case Scalar => !value.Arr? && !value.Obj?
    case Pattern => value.Str? || value.Regex?
    case Flag => value.Bool?
  }

  /** The rule's verdict in full: a value of the wrong kind is an UnexpectedValue
      error; a value of the right kind is a PropertyNotFound error when the
      operator needs a field and has none; otherwise the rule passes. The error
      records the value and both paths as given. */
  lemma ValidateMeaning(op: Op, path: seq<Seg>, value: Doc, dataPath: seq<Seg>)
    ensures Validate(op, path, value, dataPath) == Some(QueryValidationError(UnexpectedValue, value, path, dataPath))
        <==> !Accepts(OperandOf(op), value)
    ensures Validate(op, path, value, dataPath) == Some(QueryValidationError(PropertyNotFound, value, path, dataPath))
        <==> Accepts(OperandOf(op), value) && !IsLogicalArray(op) && |dataPath| == 0
    ensures Validate(op, path, value, dataPath).None?
        <==> Accepts(OperandOf(op), value) && (IsLogicalArray(op) || |dataPath| > 0)
  {
  }

  /** An accepted operand with a place to stand passes the rule. */
  lemma ValidatePasses(op: Op, path: seq<Seg>, value: Doc, dataPath: seq<Seg>)
    requires Accepts(OperandOf(op), value) && (IsLogicalArray(op) || |dataPath| > 0)
    ensures Validate(op, path, value, dataPath) == None
  {
  }

  /** Whatever the rule reports is one of those two errors. */
  lemma ValidateReportsOnlyItsOwnErrors(op: Op, path: seq<Seg>, value: Doc, dataPath: seq<Seg>)
    ensures var r := Validate(op, path, value, dataPath);
      r.Some? ==>
        (r.value.value == value && r.value.path == path && r.value.dataPath == dataPath &&
         (r.value.code == UnexpectedValue || r.value.code == PropertyNotFound))
  {
  }

  /** `$and`, `$or` and `$nor` never report a missing field. */
  lemma LogicalNeverNeedsField(op: Op, path: seq<Seg>, value: Doc, dataPath: seq<Seg>)
    requires IsLogicalArray(op)
    ensures Validate(op, path, value, dataPath).Some? ==> Validate(op, path, value, dataPath).value.code == UnexpectedValue
  {
  }

  /** The comparisons reject booleans and operands that are not numbers,
      wherever they stand; a number under a field passes. */
  lemma ComparisonOperands(op: Op, path: seq<Seg>, value: Doc, dataPath: seq<Seg>)
    requires op == Gt || op == Gte || op == Lt || op == Lte
    ensures value.Bool? || IsNaN(value) ==> Validate(op, path, value, dataPath).Some?
    ensures |dataPath| > 0 && value.Num? ==> Validate(op, path, value, dataPath).None?
  {
  }
}
