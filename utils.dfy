/** The helpers of the compiler engine: value-kind tests, the data-path
    classifier `isProperty`, and `escape(charset)`. */
module Utils {
  import opened Wrappers
  import opened Document
  import opened Operators

  /** `isPlainObject`: the value is a `{...}` object. */
  predicate IsPlainObject(d: Doc) {
    d.Obj?
  }

  /** `isRegExp`. */
  predicate IsRegExp(d: Doc) {
    d.Regex?
  }

  /** The segment is the key `$and`, `$or` or `$nor`. */
  predicate IsLogicalArraySeg(seg: Seg) {
    seg.Key? && Parse(seg.key).Some? && IsLogicalArray(Parse(seg.key).value)
  }

  /** `isProperty(path[idx], idx, path)`: a string key that is no operator
      name, or an index whose preceding segment is not `$and`, `$or` or `$nor`
      (at index 0 the preceding segment is `undefined`). */
  predicate IsProperty(path: seq<Seg>, idx: nat)
    requires idx < |path|
  {
    match path[idx]
    case Key(k) => Parse(k).None?
    case Idx(_) => !(idx > 0 && IsLogicalArraySeg(path[idx - 1]))
  }

  /** `path.filter(isProperty)`. */
  function DataPath(path: seq<Seg>): seq<Seg>
    decreases |path|
  {
    if path == [] then []
    else
      var n := |path| - 1;
      DataPath(path[..n]) + (if IsProperty(path, n) then [path[n]] else [])
  }

  /** `sub` is `s` with some elements left out, the rest kept in order. */
  predicate IsSubsequence<X(==)>(sub: seq<X>, s: seq<X>)
    decreases |s|
  {
    if sub == [] then true
    else if s == [] then false
    else if sub[|sub| - 1] == s[|s| - 1] then IsSubsequence(sub[..|sub| - 1], s[..|s| - 1])
    else IsSubsequence(sub, s[..|s| - 1])
  }

  lemma {:induction false} SubsequenceAppend<X>(sub: seq<X>, s: seq<X>, x: X)
    requires IsSubsequence(sub, s)
    ensures IsSubsequence(sub, s + [x])
    decreases |s|, 1
  {
    if sub != [] {
      var t := s + [x];
      assert t[..|t| - 1] == s;
      if sub[|sub| - 1] != x {
        assert IsSubsequence(sub, t[..|t| - 1]);
      } else {
        // `sub` ends with `x`; its front is still a subsequence of `s`.
        SubsequenceDropLast(sub, s);
      }
    }
  }

  lemma {:induction false} SubsequenceDropLast<X>(sub: seq<X>, s: seq<X>)
    requires sub != [] && IsSubsequence(sub, s)
    ensures IsSubsequence(sub[..|sub| - 1], s)
    decreases |s|, 0
  {
    var n := |s| - 1;
    if sub[|sub| - 1] == s[n] {
      if sub[..|sub| - 1] != [] {
        SubsequenceAppend(sub[..|sub| - 1], s[..n], s[n]);
        assert s[..n] + [s[n]] == s;
      }
    } else {
      SubsequenceDropLast(sub, s[..n]);
      SubsequenceAppend(sub[..|sub| - 1], s[..n], s[n]);
      assert s[..n] + [s[n]] == s;
    }
  }

  /** Whether a segment is a property depends only on it and its predecessor. */
  lemma IsPropertyPrefix(path: seq<Seg>, m: nat, idx: nat)
    requires idx < m <= |path|
    ensures IsProperty(path[..m], idx) == IsProperty(path, idx)
  {
  }

  /** Extending a path by one segment extends its data path by that segment
      exactly when the segment is a property. */
  lemma DataPathAppend(path: seq<Seg>, seg: Seg)
    ensures DataPath(path + [seg]) == DataPath(path) + (if IsProperty(path + [seg], |path|) then [seg] else [])
  {
    var p := path + [seg];
    assert p[..|p| - 1] == path;
  }

  /** A key segment joins the data path exactly when it is not an operator name. */
  lemma DataPathKey(path: seq<Seg>, k: string)
    ensures DataPath(path + [Key(k)]) == DataPath(path) + (if Parse(k).None? then [Key(k)] else [])
  {
    DataPathAppend(path, Key(k));
  }

  /** An index segment joins the data path exactly when it does not follow
      `$and`, `$or` or `$nor`; the first segment of a path always joins. */
  lemma DataPathIndex(path: seq<Seg>, i: nat)
    ensures DataPath(path + [Idx(i)])
         == DataPath(path) + (if path != [] && IsLogicalArraySeg(path[|path| - 1]) then [] else [Idx(i)])
  {
    DataPathAppend(path, Idx(i));
    var p := path + [Idx(i)];
    assert path != [] ==> p[|path| - 1] == path[|path| - 1];
  }

  /** The data path keeps some segments of the path, in their order. */
  lemma {:induction false} DataPathIsSubsequence(path: seq<Seg>)
    ensures IsSubsequence(DataPath(path), path)
    decreases |path|
  {
    if path != [] {
      var n := |path| - 1;
      DataPathIsSubsequence(path[..n]);
      assert path[..n] + [path[n]] == path;
      var dp := DataPath(path);
      if IsProperty(path, n) {
        assert dp == DataPath(path[..n]) + [path[n]];
        assert dp[..|dp| - 1] == DataPath(path[..n]);
        assert dp[|dp| - 1] == path[|path| - 1];
      } else {
        assert dp == DataPath(path[..n]);
        SubsequenceAppend(DataPath(path[..n]), path[..n], path[n]);
      }
    }
  }

  /** No key of the data path is an operator name. */
  lemma {:induction false} DataPathHasNoOperator(path: seq<Seg>)
    ensures forall i :: 0 <= i < |DataPath(path)| && DataPath(path)[i].Key? ==> Parse(DataPath(path)[i].key).None?
    decreases |path|
  {
    if path != [] {
      DataPathHasNoOperator(path[..|path| - 1]);
    }
  }

  /** The number of backslashes `s` starts with. */
  function LeadingBackslashes(s: string): (k: nat)
    ensures k <= |s| && forall i :: 0 <= i < k ==> s[i] == '\\'
    ensures k < |s| ==> s[k] != '\\'
  {
    if s != [] && s[0] == '\\' then 1 + LeadingBackslashes(s[1..]) else 0
  }

  /** `escape(charset)(str)`: the global replacement of `(?:\\)*(charset)` by
      `\$1`, stated on characters. At each position the backslash run and the
      character after it are replaced by one backslash and that character;
      when the character after the run is not in the charset but a backslash
      is, the matcher gives back the run's last backslash, which is then the
      escaped character; otherwise one character is copied unchanged. */
  function Escape(inCharset: char -> bool, s: string): string
    decreases |s|
  {
    if s == [] then []
    else
      var k := LeadingBackslashes(s);
      if k < |s| && inCharset(s[k]) then ['\\', s[k]] + Escape(inCharset, s[k + 1..])
      else if k > 0 && inCharset('\\') then ['\\', '\\'] + Escape(inCharset, s[k..])
      else [s[0]] + Escape(inCharset, s[1..])
  }

  /** The character-by-character reading of escaping: a backslash before every
      charset character, every other character copied. */
  function EscapeEach(inCharset: char -> bool, s: string): (r: string)
    ensures |r| >= |s|
  {
    if s == [] then [] else (if inCharset(s[0]) then ['\\', s[0]] else [s[0]]) + EscapeEach(inCharset, s[1..])
  }

  /** On input without backslashes, escaping is the character-by-character
      reading. */
  lemma {:induction false} EscapeWithoutBackslashes(inCharset: char -> bool, s: string)
    requires '\\' !in s
    ensures Escape(inCharset, s) == EscapeEach(inCharset, s)
    decreases |s|
  {
    if s != [] {
      assert s[0] != '\\';
      assert forall c :: c in s[1..] ==> c in s;
      EscapeWithoutBackslashes(inCharset, s[1..]);
    }
  }

  /** A run of backslashes directly before a charset character collapses into
      the single backslash that escapes it. */
  lemma EscapeCollapsesRun(inCharset: char -> bool, k: nat, c: char, rest: string)
    requires inCharset(c) && c != '\\'
    ensures Escape(inCharset, seq(k, _ => '\\') + [c] + rest) == ['\\', c] + Escape(inCharset, rest)
  {
    var s := seq(k, _ => '\\') + [c] + rest;
    LeadingBackslashesOfRun(k, c, rest);
    assert s[k] == c;
    assert s[k + 1..] == rest;
  }

  lemma {:induction false} LeadingBackslashesOfRun(k: nat, c: char, rest: string)
    requires c != '\\'
    ensures LeadingBackslashes(seq(k, _ => '\\') + [c] + rest) == k
  {
    if k > 0 {
      var s := seq(k, _ => '\\') + [c] + rest;
      assert s[1..] == seq(k - 1, _ => '\\') + [c] + rest;
      LeadingBackslashesOfRun(k - 1, c, rest);
    }
  }
}
