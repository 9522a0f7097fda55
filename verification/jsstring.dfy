/**
  The handful of JavaScript string primitives the application relies on, written out
  character by character: `trim` (and the regex class `\s`), ASCII case folding as used by
  case-insensitive regexes, `startsWith`/`includes`, decimal rendering of numbers and
  `parseInt` without a radix.
*/
module JsString {
  import opened Common

  /** White space and line terminators as `String.prototype.trim` and `\s` see them. */
  predicate IsSpace(c: char) {
    c == ' ' || c == '\t' || c == '\n' || c == '\U{B}' || c == '\U{C}' || c == '\r'
    || c == '\U{A0}' || c == '\U{1680}' || ('\U{2000}' <= c <= '\U{200A}')
    || c == '\U{2028}' || c == '\U{2029}' || c == '\U{202F}' || c == '\U{205F}'
    || c == '\U{3000}' || c == '\U{FEFF}'
  }

  predicate AllSpace(s: string) {
    forall k :: 0 <= k < |s| ==> IsSpace(s[k])
  }

  /** The first index at or after `i` that does not hold white space. */
  function SkipSpaces(s: string, i: nat): (j: nat)
    requires i <= |s|
    ensures i <= j <= |s|
    ensures forall k :: i <= k < j ==> IsSpace(s[k])
    ensures j < |s| ==> !IsSpace(s[j])
    decreases |s| - i
  {
    if i < |s| && IsSpace(s[i]) then SkipSpaces(s, i + 1) else i
  }

  /** The smallest index `k` in `lo..j` such that `s[k..j]` is all white space. */
  function SkipSpacesBack(s: string, lo: nat, j: nat): (k: nat)
    requires lo <= j <= |s|
    ensures lo <= k <= j
    ensures forall m :: k <= m < j ==> IsSpace(s[m])
    ensures k > lo ==> !IsSpace(s[k - 1])
    decreases j - lo
  {
    if j > lo && IsSpace(s[j - 1]) then SkipSpacesBack(s, lo, j - 1) else j
  }

  function TrimLo(s: string): (i: nat)
    ensures i <= |s|
  {
    SkipSpaces(s, 0)
  }

  function TrimHi(s: string): (j: nat)
    ensures TrimLo(s) <= j <= |s|
  {
    SkipSpacesBack(s, TrimLo(s), |s|)
  }

  /** `String.prototype.trim`. */
  function Trim(s: string): (r: string)
    ensures r == s[TrimLo(s)..TrimHi(s)]
    ensures r == [] || (!IsSpace(r[0]) && !IsSpace(r[|r| - 1]))
    ensures r == [] <==> AllSpace(s)
    ensures forall c :: c in r ==> c in s
  {
    var i := TrimLo(s);
    var j := TrimHi(s);
    assert AllSpace(s) ==> i == |s|;
    assert i == |s| ==> AllSpace(s) by {
      if i == |s| {
        assert forall k :: 0 <= k < |s| ==> IsSpace(s[k]);
      }
    }
    assert i < |s| ==> j > i;
    s[i..j]
  }

  /** What trimming cuts off at either end is white space. */
  lemma TrimCuts(s: string)
    ensures AllSpace(s[..TrimLo(s)]) && AllSpace(s[TrimHi(s)..])
  {
  }

  /** Trimming text that has no white space at either end changes nothing. */
  lemma TrimNoop(s: string)
    requires s == [] || (!IsSpace(s[0]) && !IsSpace(s[|s| - 1]))
    ensures Trim(s) == s
  {
    if s != [] {
      assert TrimLo(s) == 0;
      assert TrimHi(s) == |s|;
    }
  }

  /** ASCII lower-casing: the canonicalisation of a case-insensitive regex without the `u` flag. */
  function Lower(c: char): (d: char)
    ensures 'A' <= c <= 'Z' ==> 'a' <= d <= 'z'
    ensures !('A' <= c <= 'Z') ==> d == c
  {
    if 'A' <= c <= 'Z' then (c as int + 32) as char else c
  }

  function LowerStr(s: string): (r: string)
    ensures |r| == |s| && forall k :: 0 <= k < |s| ==> r[k] == Lower(s[k])
  {
    seq(|s|, k requires 0 <= k < |s| => Lower(s[k]))
  }

  /** `s` starts with `p` at index `i`. */
  predicate HasAt(s: string, i: nat, p: string) {
    i + |p| <= |s| && s[i..i + |p|] == p
  }

  /** `s` starts, ignoring ASCII case, with the lower-case pattern `p` at index `i`. */
  predicate HasAtCI(s: string, i: nat, p: string) {
    i + |p| <= |s| && forall k :: 0 <= k < |p| ==> Lower(s[i + k]) == p[k]
  }

  predicate StartsWith(s: string, p: string) {
    HasAt(s, 0, p)
  }

  predicate EndsWithCI(s: string, p: string) {
    |p| <= |s| && HasAtCI(s, |s| - |p|, p)
  }

  /** `s.includes(p)`. */
  predicate Includes(s: string, p: string) {
    exists i: nat | i <= |s| :: HasAt(s, i, p)
  }

  /** `s` contains the lower-case pattern `p` ignoring ASCII case. */
  predicate IncludesCI(s: string, p: string) {
    exists i: nat | i <= |s| :: HasAtCI(s, i, p)
  }

  /** The `slice(0, n)` of a string: its first `n` characters, or all of it. */
  function Take(s: string, n: nat): (r: string)
    ensures |r| == Min(|s|, n)
    ensures |s| <= n ==> r == s
    ensures r == s[..|r|]
  {
    if |s| <= n then s else s[..n]
  }

  /** `parts.join(sep)`. */
  function Join(parts: seq<string>, sep: string): string {
    if parts == [] then []
    else if |parts| == 1 then parts[0]
    else parts[0] + sep + Join(parts[1..], sep)
  }

  /**
    `s.split(sep)` for a separator of one character (a string or a character class): the pieces
    between separators, empty ones included, so there is always at least one.
  */
  function Split(s: string, isSep: char -> bool): (parts: seq<string>)
    ensures |parts| >= 1
    decreases |s|
  {
    if s == [] then [[]]
    else
      var rest := Split(s[1..], isSep);
      if isSep(s[0]) then [[]] + rest else [[s[0]] + rest[0]] + rest[1..]
  }

  /** The pieces hold characters of the text and no separator. */
  lemma {:induction false} SplitPieces(s: string, isSep: char -> bool)
    ensures forall k, c :: 0 <= k < |Split(s, isSep)| && c in Split(s, isSep)[k] ==> c in s && !isSep(c)
    decreases |s|
  {
    if s != [] {
      var rest := Split(s[1..], isSep);
      SplitPieces(s[1..], isSep);
      assert forall c :: c in s[1..] ==> c in s;
      var parts := Split(s, isSep);
      assert forall k :: 1 <= k < |parts| ==> parts[k] == rest[k - 1] || parts[k] == rest[k];
    }
  }

  /** Joining the pieces of a split with the separator gives back the text. */
  lemma {:induction false} JoinSplit(s: string, sep: char)
    ensures Join(Split(s, c => c == sep), [sep]) == s
    decreases |s|
  {
    if s != [] {
      var rest := Split(s[1..], c => c == sep);
      JoinSplit(s[1..], sep);
      if s[0] == sep {
        assert Split(s, c => c == sep) == [[]] + rest;
        assert s == [sep] + s[1..];
      } else {
        var parts := Split(s, c => c == sep);
        assert parts == [[s[0]] + rest[0]] + rest[1..];
        if |rest| == 1 {
          assert parts == [[s[0]] + rest[0]];
        } else {
          assert parts[1..] == rest[1..];
          assert Join(rest, [sep]) == rest[0] + [sep] + Join(rest[1..], [sep]);
        }
      }
    }
  }

  /** Text without a separator is one piece. */
  lemma {:induction false} SplitNoSep(s: string, isSep: char -> bool)
    requires forall c :: c in s ==> !isSep(c)
    ensures Split(s, isSep) == [s]
    decreases |s|
  {
    if s != [] {
      assert forall c :: c in s[1..] ==> c in s;
      SplitNoSep(s[1..], isSep);
      assert [s[0]] + s[1..] == s;
    }
  }

  /** Splitting at a separator splits the pieces on either side of it separately. */
  lemma {:induction false} SplitConcat(a: string, c: char, b: string, isSep: char -> bool)
    requires isSep(c)
    ensures Split(a + [c] + b, isSep) == Split(a, isSep) + Split(b, isSep)
    decreases |a|
  {
    var s, sb := a + [c] + b, Split(b, isSep);
    if a == [] {
      assert s[0] == c && s[1..] == b;
    } else {
      assert s[0] == a[0] && s[1..] == a[1..] + [c] + b;
      SplitConcat(a[1..], c, b, isSep);
      var left := Split(a[1..], isSep);
      if isSep(a[0]) {
        AppendAssoc([[]], left, sb);
      } else {
        assert (left + sb)[0] == left[0] && (left + sb)[1..] == left[1..] + sb;
        AppendAssoc([[a[0]] + left[0]], left[1..], sb);
      }
    }
  }

  /** Splitting a join of pieces that do not hold the separator gives back the pieces. */
  lemma {:induction false} SplitJoin(parts: seq<string>, sep: char)
    requires |parts| >= 1 && forall k :: 0 <= k < |parts| ==> sep !in parts[k]
    ensures Split(Join(parts, [sep]), c => c == sep) == parts
    decreases |parts|
  {
    SplitNoSep(parts[0], c => c == sep);
    if |parts| > 1 {
      SplitJoin(parts[1..], sep);
      SplitConcat(parts[0], sep, Join(parts[1..], [sep]), c => c == sep);
      assert [parts[0]] + parts[1..] == parts;
    }
  }

  // ---- digits, numbers and parseInt ----

  predicate IsDigit(c: char) { '0' <= c <= '9' }

  /** Value of `c` as a digit in `radix` (10 or 16), or `radix` itself when it is not one. */
  function DigitValue(c: char, radix: nat): (v: nat)
    requires radix == 10 || radix == 16
    ensures v <= radix
  {
    if '0' <= c <= '9' then c as int - '0' as int
    else if radix == 16 && 'a' <= c <= 'f' then c as int - 'a' as int + 10
    else if radix == 16 && 'A' <= c <= 'F' then c as int - 'A' as int + 10
    else radix
  }

  /** The end of the run of `radix` digits that starts at `i`. */
  function SkipDigits(s: string, i: nat, radix: nat): (j: nat)
    requires i <= |s| && (radix == 10 || radix == 16)
    ensures i <= j <= |s|
    ensures forall k :: i <= k < j ==> DigitValue(s[k], radix) < radix
    ensures j < |s| ==> DigitValue(s[j], radix) == radix
    decreases |s| - i
  {
    if i < |s| && DigitValue(s[i], radix) < radix then SkipDigits(s, i + 1, radix) else i
  }

  /** Value of a string of digits, most significant first. */
  function DigitsValue(s: string, radix: nat): nat
    requires radix == 10 || radix == 16
  {
    if s == [] then 0
    else DigitsValue(s[..|s| - 1], radix) * radix + Common.Min(DigitValue(s[|s| - 1], radix), radix - 1)
  }

  function DigitChar(d: nat): (c: char)
    requires d < 10
    ensures IsDigit(c) && DigitValue(c, 10) == d
  {
    ('0' as int + d) as char
  }

  /** Decimal rendering of a non-negative integer, as template strings print it. */
  function NatToString(n: nat): (r: string)
    ensures |r| >= 1
    ensures forall k :: 0 <= k < |r| ==> IsDigit(r[k])
  {
    if n < 10 then [DigitChar(n)] else NatToString(n / 10) + [DigitChar(n % 10)]
  }

  function IntToString(i: int): (r: string) {
    if i < 0 then "-" + NatToString(-i) else NatToString(i)
  }

  /** Reading back a rendered number gives the number. */
  lemma {:induction false} NatToStringValue(n: nat)
    ensures DigitsValue(NatToString(n), 10) == n
  {
    if n >= 10 {
      var r := NatToString(n);
      assert r[..|r| - 1] == NatToString(n / 10);
      NatToStringValue(n / 10);
    }
  }

  /**
    `parseInt(s)` with no radix: leading white space, an optional sign, an optional `0x`/`0X`
    prefix selecting base 16, then the longest run of digits; `None` stands for `NaN`.
  */
  function ParseInt(s: string): (r: Option<int>)
    ensures AllSpace(s) ==> r == None
  {
    var i := SkipSpaces(s, 0);
    var neg := i < |s| && s[i] == '-';
    var j := if i < |s| && (s[i] == '-' || s[i] == '+') then i + 1 else i;
    var hex := j + 2 <= |s| && s[j] == '0' && (s[j + 1] == 'x' || s[j + 1] == 'X');
    var radix := if hex then 16 else 10;
    var k := if hex then j + 2 else j;
    var e := SkipDigits(s, k, radix);
    if e == k then None
    else
      var v: int := DigitsValue(s[k..e], radix);
      Some(if neg then -v else v)
  }

  /** `parseInt` reads back every rendered non-negative number. */
  lemma ParseIntNatToString(n: nat)
    ensures ParseInt(NatToString(n)) == Some(n)
  {
    ParseIntDigits(NatToString(n));
    NatToStringValue(n);
  }

  /** A non-empty run of decimal digits parses to its value. */
  lemma ParseIntDigits(s: string)
    requires |s| >= 1 && forall k :: 0 <= k < |s| ==> IsDigit(s[k])
    ensures ParseInt(s) == Some(DigitsValue(s, 10) as int)
  {
    assert !IsSpace(s[0]) && s[0] != '-' && s[0] != '+';
    assert SkipSpaces(s, 0) == 0;
    assert |s| >= 2 ==> s[1] != 'x' && s[1] != 'X';
    SkipDigitsAll(s, 0);
    assert s[0..|s|] == s;
  }

  lemma {:induction false} SkipDigitsAll(s: string, i: nat)
    requires i <= |s|
    requires forall k :: i <= k < |s| ==> IsDigit(s[k])
    ensures SkipDigits(s, i, 10) == |s|
    decreases |s| - i
  {
    if i < |s| {
      SkipDigitsAll(s, i + 1);
    }
  }
}
