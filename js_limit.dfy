/** `limit(value)(datas)`: `datas.slice(0, value)`. */
module JsLimit {
  /** Where `slice` ends for the end argument `value`: a negative value counts
      back from the end. */
  function SliceEnd(value: int, len: nat): (e: nat)
    ensures e <= len
  {
    if value < 0 then (if len + value < 0 then 0 else len + value)
    else if value < len then value
    else len
  }

  /** A fresh array holding the first elements of `datas`; `datas` itself is
      a value here and so is never changed. */
  function Limit<T>(value: int, datas: seq<T>): (r: seq<T>)
    ensures |r| <= |datas| && r == datas[..|r|]
    ensures value >= 0 ==> |r| == if value < |datas| then value else |datas|
    ensures value < 0 ==> |r| == if |datas| + value < 0 then 0 else |datas| + value
  {
    datas[..SliceEnd(value, |datas|)]
  }

  /** A limit at least the length keeps everything. */
  lemma LimitKeepsShort<T>(value: int, datas: seq<T>)
    requires value >= |datas|
    ensures Limit(value, datas) == datas
  {
  }

  /** Limiting twice is limiting once by the smaller amount. */
  lemma LimitTwice<T>(a: nat, b: nat, datas: seq<T>)
    ensures Limit(a, Limit(b, datas)) == Limit(if a < b then a else b, datas)
  {
  }
}
