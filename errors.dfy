/** `QueryValidationError`: the error value the compiler records for a bad
    query node, and the text of its message, which depends on the code and on
    the paths. Also the plain `Error` values that are thrown, and how an
    error prints when it is joined into a string. */
module Errors {
  import opened Wrappers
  import opened Text
  import opened Document

  datatype ErrorCode = UnexpectedValue | PropertyNotFound | OperatorNotSupported | SchemaValidation | MaxDataDepth

  /** `['$', ...path].join('.')`. */
  function PathText(path: seq<Seg>): string
    decreases |path|
  {
    if path == [] then "$" else PathText(path[..|path| - 1]) + "." + SegText(path[|path| - 1])
  }

  /** `${path[path.length - 1]}`: the last segment, or `undefined` for the
      empty path. */
  function LastText(path: seq<Seg>): string {
    if path == [] then "undefined" else SegText(path[|path| - 1])
  }

  datatype QueryValidationError = QueryValidationError(code: ErrorCode, value: Doc, path: seq<Seg>, dataPath: seq<Seg>)
  {
    function Name(): string {
      "QueryValidationError"
    }

    /** The message: the opening words of the code, then the details. */
    function Message(): string {
      CodePrefix(code) + Details()
    }

    function Details(): string {
      match code
      case UnexpectedValue =>
        if |path| > 0 then "operator " + LastText(path) + " at '" + PathText(path) + "'"
        else "query at '$'"
      case PropertyNotFound =>
        LastText(path) + " at '" + PathText(path) + "'"
      case OperatorNotSupported =>
        LastText(path) + "' operator not supported at '" + PathText(path) + "'"
      case SchemaValidation =>
        PathText(dataPath) + "' is not allowed at '" + PathText(path) + "'"
      case MaxDataDepth =>
        PathText(dataPath) + "' at '" + PathText(path) + "'"
    }
  }

  /** A thrown JavaScript `Error`: its `name` and its `message`. */
  datatype JsError = JsError(name: string, message: string)

  /** `Error.prototype.toString`, which `join` uses to print an error. */
  function ToText(name: string, message: string): string {
    if name == "" then message else if message == "" then name else name + ": " + message
  }

  /** How a recorded validation error prints. */
  function ErrorText(e: QueryValidationError): string {
    ToText(e.Name(), e.Message())
  }

  /** The words each message form begins with. */
  function CodePrefix(code: ErrorCode): string {
    match code
    case UnexpectedValue => "unexpected value for "
    case PropertyNotFound => "property not found for operator "
    case OperatorNotSupported => "'"
    case SchemaValidation => "querying path '"
    case MaxDataDepth => "max depth exceeded for path '"
  }

  /** Reads the error code back from the start of a message. */
  function CodeOf(message: string): Option<ErrorCode> {
    if StartsWith(message, CodePrefix(UnexpectedValue)) then Some(UnexpectedValue)
    else if StartsWith(message, CodePrefix(PropertyNotFound)) then Some(PropertyNotFound)
    else if StartsWith(message, CodePrefix(OperatorNotSupported)) then Some(OperatorNotSupported)
    else if StartsWith(message, CodePrefix(SchemaValidation)) then Some(SchemaValidation)
    else if StartsWith(message, CodePrefix(MaxDataDepth)) then Some(MaxDataDepth)
    else None
  }

  predicate StartsWith(s: string, prefix: string) {
    |prefix| <= |s| && s[..|prefix|] == prefix
  }

  lemma StartsWithAppend(prefix: string, rest: string)
    ensures StartsWith(prefix + rest, prefix)
  {
    assert (prefix + rest)[..|prefix|] == prefix;
  }

  /** The path text starts at the root `$`. */
  lemma {:induction false} PathTextStartsWithRoot(path: seq<Seg>)
    ensures |PathText(path)| >= 1 && PathText(path)[0] == '$'
    decreases |path|
  {
    if path != [] {
      PathTextStartsWithRoot(path[..|path| - 1]);
    }
  }

  /** Two prefixes that begin with different characters exclude each other. */
  lemma DistinctPrefixes(s: string, p: string, q: string)
    requires StartsWith(s, p) && |p| > 0 && |q| > 0 && p[0] != q[0]
    ensures !StartsWith(s, q)
  {
    assert s[0] == s[..|p|][0] == p[0];
  }

  /** A text that starts with the prefix of one code, and so with none of the
      prefixes tested before it, reads back as that code. */
  lemma CodeOfPrefixed(code: ErrorCode, prefix: string, rest: string)
    requires prefix == CodePrefix(code)
    ensures CodeOf(prefix + rest) == Some(code)
  {
    var m := prefix + rest;
    StartsWithAppend(prefix, rest);
    var unexpected, notFound, unsupported := CodePrefix(UnexpectedValue), CodePrefix(PropertyNotFound), CodePrefix(OperatorNotSupported);
    var schema := CodePrefix(SchemaValidation);
    if code != UnexpectedValue {
      DistinctPrefixes(m, prefix, unexpected);
    }
    if code != UnexpectedValue && code != PropertyNotFound {
      DistinctPrefixes(m, prefix, notFound);
    }
    if code == SchemaValidation || code == MaxDataDepth {
      DistinctPrefixes(m, prefix, unsupported);
    }
    if code == MaxDataDepth {
      DistinctPrefixes(m, prefix, schema);
    }
  }

  /** Every message names its own code: the five message forms are told apart
      by how they begin. */
  lemma MessageNamesCode(e: QueryValidationError)
    ensures CodeOf(e.Message()) == Some(e.code)
  {
    CodeOfPrefixed(e.code, CodePrefix(e.code), e.Details());
  }

  /** A recorded error prints as its name, a colon and its message. */
  lemma ErrorTextShape(e: QueryValidationError)
    ensures ErrorText(e) == "QueryValidationError: " + e.Message()
  {
    MessageNamesCode(e);
  }
}
