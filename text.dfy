/** String helpers with JavaScript's meaning: decimal rendering of integers,
    `Array.prototype.join`, `String.prototype.split` on one character,
    `String.prototype.trim`, and the integer forms of `Number(string)`. */
module Text {
  import opened Wrappers

  predicate IsDigit(c: char) {
    '0' <= c <= '9'
  }

  predicate AllDigits(s: string) {
    forall i :: 0 <= i < |s| ==> IsDigit(s[i])
  }

  function DigitChar(d: nat): (c: char)
    requires d < 10
    ensures IsDigit(c) && c as int - '0' as int == d
  {
    "0123456789"[d]
  }

  function DigitValue(c: char): nat
    requires IsDigit(c)
  {
    c as int - '0' as int
  }

  /** The value of a string of decimal digits, most significant first. */
  function DigitsValue(s: string): nat
    requires AllDigits(s)
  {
    if s == [] then 0 else DigitsValue(s[..|s| - 1]) * 10 + DigitValue(s[|s| - 1])
  }

  /** `String(n)` for a natural number: its shortest decimal text. */
  function NatText(n: nat): (s: string)
    ensures |s| > 0 && AllDigits(s)
    ensures s[0] == '0' ==> n == 0
  {
    if n < 10 then [DigitChar(n)] else NatText(n / 10) + [DigitChar(n % 10)]
  }

  /** Reading back the decimal text of `n` gives `n`. */
  lemma {:induction false} NatTextValue(n: nat)
    ensures DigitsValue(NatText(n)) == n
  {
    if n >= 10 {
      var s := NatText(n);
      assert s[..|s| - 1] == NatText(n / 10);
      NatTextValue(n / 10);
    }
  }

  lemma NatTextInjective(m: nat, n: nat)
    requires NatText(m) == NatText(n)
    ensures m == n
  {
    NatTextValue(m);
    NatTextValue(n);
  }

  /** `String(i)` for an integer. */
  function IntText(i: int): string {
    if i < 0 then "-" + NatText(-i) else NatText(i)
  }

  /** `parts.join(sep)`. */
  function Join(parts: seq<string>, sep: string): string {
    if |parts| == 0 then ""
    else if |parts| == 1 then parts[0]
    else parts[0] + sep + Join(parts[1..], sep)
  }

  function FirstIndex(s: string, c: char): (i: nat)
    requires c in s
    ensures i < |s| && s[i] == c && c !in s[..i]
  {
    if s[0] == c then 0 else 1 + FirstIndex(s[1..], c)
  }

  /** `s.split(c)` for a one-character separator: the maximal pieces between
      occurrences of `c`; an empty string splits into one empty piece. */
  function Split(s: string, c: char): (parts: seq<string>)
    ensures |parts| >= 1
    ensures forall i :: 0 <= i < |parts| ==> c !in parts[i]
    decreases |s|
  {
    if c !in s then [s]
    else
      var i := FirstIndex(s, c);
      [s[..i]] + Split(s[i + 1..], c)
  }

  /** Splitting and joining back with the same separator restores the string. */
  lemma {:induction false} SplitJoin(s: string, c: char)
    ensures Join(Split(s, c), [c]) == s
    decreases |s|
  {
    if c in s {
      var i := FirstIndex(s, c);
      var rest := s[i + 1..];
      SplitJoin(rest, c);
      var parts := Split(s, c);
      assert parts[1..] == Split(rest, c);
      assert s == s[..i] + [c] + rest;
    }
  }

  /** JavaScript's WhiteSpace and LineTerminator characters, which `trim` and
      `Number` ignore at both ends of a string. */
  predicate IsSpace(c: char) {
    || c == '\t' || c == '\n' || c == '\U{000B}' || c == '\U{000C}' || c == '\r'
    || c == ' ' || c == '\U{00A0}' || c == '\U{1680}' || ('\U{2000}' <= c <= '\U{200A}')
    || c == '\U{2028}' || c == '\U{2029}' || c == '\U{202F}' || c == '\U{205F}'
    || c == '\U{3000}' || c == '\U{FEFF}'
  }

  function TrimStart(s: string): (r: string)
    ensures |r| <= |s|
  {
    if s != [] && IsSpace(s[0]) then TrimStart(s[1..]) else s
  }

  /** `TrimStart` removes exactly the leading white space. */
  lemma {:induction false} TrimStartRemovesSpace(s: string)
    ensures var r := TrimStart(s);
      r == s[|s| - |r|..] && (r == [] || !IsSpace(r[0])) &&
      forall i :: 0 <= i < |s| - |r| ==> IsSpace(s[i])
  {
    if s != [] && IsSpace(s[0]) {
      TrimStartRemovesSpace(s[1..]);
    }
  }

  function TrimEnd(s: string): (r: string)
    ensures |r| <= |s|
  {
    if s != [] && IsSpace(s[|s| - 1]) then TrimEnd(s[..|s| - 1]) else s
  }

  /** `TrimEnd` removes exactly the trailing white space. */
  lemma {:induction false} TrimEndRemovesSpace(s: string)
    ensures var r := TrimEnd(s);
      r == s[..|r|] && (r == [] || !IsSpace(r[|r| - 1])) &&
      forall i :: |r| <= i < |s| ==> IsSpace(s[i])
  {
    if s != [] && IsSpace(s[|s| - 1]) {
      TrimEndRemovesSpace(s[..|s| - 1]);
    }
  }

  /** `s.trim()`: the string without its leading and trailing white space. */
  function Trim(s: string): (r: string)
  {
    TrimEnd(TrimStart(s))
  }

  /** `trim()`: the result neither starts nor ends with white space. */
  lemma TrimmedEnds(s: string)
    ensures var r := Trim(s); r == [] || (!IsSpace(r[0]) && !IsSpace(r[|r| - 1]))
  {
    TrimStartRemovesSpace(s);
    var t := TrimStart(s);
    TrimEndRemovesSpace(t);
    var r := TrimEnd(t);
    if r != [] {
      assert r[0] == t[0];
    }
  }

  /** The radix a `0x`, `0o` or `0b` prefix names (either case); 0 for any
      other letter. */
  function Radix(c: char): nat {
    if c == 'x' || c == 'X' then 16
    else if c == 'o' || c == 'O' then 8
    else if c == 'b' || c == 'B' then 2
    else 0
  }

  /** The value of a digit or a letter `a`-`f` of either case. */
  function RadixDigit(c: char): Option<nat> {
    if '0' <= c <= '9' then Some(c as int - '0' as int)
    else if 'a' <= c <= 'f' then Some(c as int - 'a' as int + 10)
    else if 'A' <= c <= 'F' then Some(c as int - 'A' as int + 10)
    else None
  }

  predicate AllRadixDigits(s: string, radix: nat) {
    forall i :: 0 <= i < |s| ==> RadixDigit(s[i]).Some? && RadixDigit(s[i]).value < radix
  }

  /** The value of a numeral in `radix`, most significant digit first. */
  function RadixValue(s: string, radix: nat): nat
    requires AllRadixDigits(s, radix)
  {
    if s == [] then 0 else RadixValue(s[..|s| - 1], radix) * radix + RadixDigit(s[|s| - 1]).value
  }

  /** `Number(s)` restricted to integers: white space around an optional sign
      and decimal digits, or around an unsigned `0x`, `0o` or `0b` prefix and
      at least one digit of that radix; a blank string is 0; anything else is
      NaN (None). */
  function StrToNumber(s: string): (r: Option<int>)
    ensures Trim(s) == "" ==> r == Some(0)
  {
    var t := Trim(s);
    if t == "" then Some(0)
    else if (t[0] == '-' || t[0] == '+') && |t| > 1 && AllDigits(t[1..]) then
      var v: int := DigitsValue(t[1..]);
      Some(if t[0] == '-' then -v else v)
    else if |t| > 2 && t[0] == '0' && Radix(t[1]) != 0 && AllRadixDigits(t[2..], Radix(t[1])) then
      Some(RadixValue(t[2..], Radix(t[1])))
    else if AllDigits(t) then Some(DigitsValue(t))
    else None
  }

  /** An unsigned prefixed numeral converts to its value in the prefix's radix. */
  lemma PrefixedToNumber(c: char, s: string)
    requires Radix(c) != 0 && s != [] && AllRadixDigits(s, Radix(c))
    ensures StrToNumber(['0', c] + s) == Some(RadixValue(s, Radix(c)))
  {
    var t := ['0', c] + s;
    assert t[2..] == s;
    assert !IsSpace(t[|t| - 1]) by {
      assert t[|t| - 1] == s[|s| - 1];
    }
    TrimUnpadded(t);
  }

  /** A sign before a prefixed numeral makes it NaN. */
  lemma SignedPrefixIsNaN(sign: char, c: char, s: string)
    requires (sign == '-' || sign == '+') && Radix(c) != 0 && (s == [] || !IsSpace(s[|s| - 1]))
    ensures StrToNumber([sign, '0', c] + s) == None
  {
    var t := [sign, '0', c] + s;
    assert !IsSpace(t[|t| - 1]);
    TrimUnpadded(t);
    assert !IsDigit(t[1..][1]);
    assert !IsDigit(t[0]);
  }

  /** A prefix without digits is NaN. */
  lemma BarePrefixIsNaN(c: char)
    requires Radix(c) != 0
    ensures StrToNumber(['0', c]) == None
  {
    TrimUnpadded(['0', c]);
    assert !IsDigit(['0', c][1]);
  }

  /** `Number('0x10')` is 16, `Number('0o7')` is 7 and `Number('0b11')` is 3. */
  lemma PrefixedExamples()
    ensures StrToNumber("0x10") == Some(16) && StrToNumber("0o7") == Some(7) && StrToNumber("0b11") == Some(3)
  {
    HexExample();
    OctalExample();
    BinaryExample();
  }

  lemma HexExample()
    ensures StrToNumber("0x10") == Some(16)
  {
    var s := "10";
    assert AllRadixDigits(s, 16) by { assert RadixDigit(s[0]) == Some(1) && RadixDigit(s[1]) == Some(0); }
    assert "0x10" == ['0', 'x'] + s;
    PrefixedToNumber('x', s);
    assert RadixValue(s, 16) == 16 by { assert s[..1] == "1"; }
  }

  lemma OctalExample()
    ensures StrToNumber("0o7") == Some(7)
  {
    var s := "7";
    assert AllRadixDigits(s, 8) by { assert RadixDigit(s[0]) == Some(7); }
    assert "0o7" == ['0', 'o'] + s;
    PrefixedToNumber('o', s);
  }

  lemma BinaryExample()
    ensures StrToNumber("0b11") == Some(3)
  {
    var s := "11";
    assert AllRadixDigits(s, 2) by { assert RadixDigit(s[0]) == Some(1) && RadixDigit(s[1]) == Some(1); }
    assert "0b11" == ['0', 'b'] + s;
    PrefixedToNumber('b', s);
    assert RadixValue(s, 2) == 3 by { assert s[..1] == "1"; }
  }

  /** A sign before a prefix, or a prefix without digits, is NaN. */
  lemma PrefixedNaNExamples()
    ensures StrToNumber("-0x10") == None && StrToNumber("+0x10") == None && StrToNumber("0x") == None
  {
    assert "-0x10" == ['-', '0', 'x'] + "10";
    SignedPrefixIsNaN('-', 'x', "10");
    assert "+0x10" == ['+', '0', 'x'] + "10";
    SignedPrefixIsNaN('+', 'x', "10");
    assert "0x" == ['0', 'x'];
    BarePrefixIsNaN('x');
  }

  /** A string without white space at either end is its own trim. */
  lemma TrimUnpadded(s: string)
    requires s == [] || (!IsSpace(s[0]) && !IsSpace(s[|s| - 1]))
    ensures Trim(s) == s
  {
  }

  /** A string of decimal digits converts to the number it spells. */
  lemma DigitsToNumber(s: string)
    requires s != [] && AllDigits(s)
    ensures StrToNumber(s) == Some(DigitsValue(s))
  {
    assert !IsSpace(s[0]) && !IsSpace(s[|s| - 1]) by {
      assert IsDigit(s[0]) && IsDigit(s[|s| - 1]);
    }
    TrimUnpadded(s);
    assert |s| > 2 ==> Radix(s[1]) == 0 by {
      if |s| > 2 {
        assert IsDigit(s[1]);
      }
    }
  }

  /** A string that starts with a letter is not a number. */
  lemma LetterIsNaN(s: string)
    requires s != [] && ('a' <= s[0] <= 'z' || 'A' <= s[0] <= 'Z') && !IsSpace(s[|s| - 1])
    ensures StrToNumber(s) == None
  {
    TrimUnpadded(s);
  }
}
