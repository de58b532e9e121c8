/** The JSON-like values that queries and filtered data are made of, the path
    segments that address them, and the few JavaScript conversions the
    modelled code relies on: truthiness, `String(v)`, `Number(v)` and
    property access `v[key]`. */
module Document {
  import opened Wrappers
  import opened Text

  /** A JavaScript value as the compiler sees it. Numbers are integers, a Date
      is its timestamp and a RegExp is its source text; an object is its list of
      own enumerable properties in insertion order. */
  datatype Doc =
    | Undefined
    | Null
    | Bool(b: bool)
    | Num(n: int)
    | Str(s: string)
    | Date(time: int)
    | Regex(source: string)
    | Arr(items: seq<Doc>)
    | Obj(fields: seq<(string, Doc)>)

  /** One step of a traversal path: an object key or an array index. */
  datatype Seg = Key(key: string) | Idx(index: nat)

  /** `${segment}`: how a path segment prints. */
  function SegText(seg: Seg): string {
    match seg
    case Key(k) => k
    case Idx(i) => NatText(i)
  }

  /** JavaScript truthiness: undefined, null, false, 0 and '' are falsy. */
  predicate Truthy(d: Doc) {
    match d
    case Undefined => false
    case Null => false
    case Bool(b) => b
    case Num(n) => n != 0
    case Str(s) => s != ""
    case _ => true
  }

  /** `String(v)`. An array joins its elements with ',' (null and undefined
      elements print as ''); a Date prints as a text that is not a number. */
  function JsString(d: Doc): string
    decreases d
  {
    match d
    case Undefined => "undefined"
    case Null => "null"
    case Bool(b) => if b then "true" else "false"
    case Num(n) => IntText(n)
    case Str(s) => s
    case Date(t) => "Date " + IntText(t)
    case Regex(src) => "/" + src + "/"
    case Arr(xs) =>
      Join(seq(|xs|, i requires 0 <= i < |xs| =>
                 if xs[i].Undefined? || xs[i].Null? then "" else JsString(xs[i])), ",")
    case Obj(_) => "[object Object]"
  }

  /** `Number(v)`, with None for NaN. */
  function ToNumber(d: Doc): Option<int> {
    match d
    case Undefined => None
    case Null => Some(0)
    case Bool(b) => Some(if b then 1 else 0)
    case Num(n) => Some(n)
    case Str(s) => StrToNumber(s)
    case Date(t) => Some(t)
    case Regex(_) => None
    case Arr(_) => StrToNumber(JsString(d))
    case Obj(_) => None
  }

  /** `isNaN(v)`. */
  predicate IsNaN(d: Doc) {
    ToNumber(d).None?
  }

  /** The value of the first own property named `k`, or undefined. */
  function FieldValue(fields: seq<(string, Doc)>, k: string): Doc {
    if fields == [] then Undefined
    else if fields[0].0 == k then fields[0].1
    else FieldValue(fields[1..], k)
  }

  /** The array index a property name denotes, when it is one. */
  function CanonicalIndex(k: string): Option<nat> {
    if k != "" && AllDigits(k) && (k == "0" || k[0] != '0') then Some(DigitsValue(k)) else None
  }

  /** `v[key]` for a truthy `v`: own properties of objects, elements and
      `length` of arrays and strings; anything else is undefined. */
  function Prop(d: Doc, seg: Seg): Doc {
    match d
    case Obj(fields) => FieldValue(fields, SegText(seg))
    case Arr(xs) =>
      var at := if seg.Idx? then Some(seg.index) else CanonicalIndex(seg.key);
      if seg == Key("length") then Num(|xs|)
      else if at.Some? && at.value < |xs| then xs[at.value]
      else Undefined
    case Str(s) =>
      var at := if seg.Idx? then Some(seg.index) else CanonicalIndex(seg.key);
      if seg == Key("length") then Num(|s|)
      else if at.Some? && at.value < |s| then Str([s[at.value]])
      else Undefined
    case _ => Undefined
  }
}
