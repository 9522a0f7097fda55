/**
  Input sanitisation (lib/sanitize.ts): HTML-entity escaping for log fields, stripping of
  SQL-significant characters, and angle-bracket escaping for rendered HTML.
*/
module Sanitize {
  import opened Common
  import opened JsString

  // ---- sanitizeInput ----

  /** The replacement the escape step makes for one character. */
  function EscapeChar(c: char): string {
    match c
    case '<' => "&lt;"
    case '>' => "&gt;"
    case '"' => "&quot;"
    case '\'' => "&#x27;"
    case '&' => "&amp;"
    case _ => [c]
  }

  /** The single-pass escape `replace(/[<>"'&]/g, ...)`. */
  function Escape(s: string): string {
    if s == [] then [] else EscapeChar(s[0]) + Escape(s[1..])
  }

  predicate IsControl(c: char) { c == '\r' || c == '\n' || c == '\t' }

  predicate NotControl(c: char) { !IsControl(c) }

  /** `replace(/[\r\n\t]/g, '')`. */
  function RemoveControls(s: string): string {
    Filter(s, NotControl)
  }

  /** One of the five entities the escape step produces starts at index `i` of `s`. */
  predicate EntityAt(s: string, i: nat) {
    HasAt(s, i, "&lt;") || HasAt(s, i, "&gt;") || HasAt(s, i, "&quot;")
    || HasAt(s, i, "&#x27;") || HasAt(s, i, "&amp;")
  }

  /** Every `&` in `s` is the start of one of the five entities. */
  predicate AmpersandsAreEntities(s: string) {
    forall i :: 0 <= i < |s| && s[i] == '&' ==> EntityAt(s, i)
  }

  /** Characters that the sanitised text never contains. */
  predicate Unsafe(c: char) {
    c == '<' || c == '>' || c == '"' || c == '\'' || IsControl(c)
  }

  /**
    `sanitizeInput`: empty input gives empty output; otherwise escape, drop CR/LF/TAB, trim.
    The result holds no angle bracket, quote, CR, LF or TAB, every `&` in it opens an
    entity, and it neither starts nor ends with white space.
  */
  function SanitizeInput(input: string): (r: string)
    ensures input == [] ==> r == []
    ensures forall c :: c in r ==> !Unsafe(c)
    ensures AmpersandsAreEntities(r)
    ensures r == [] || (!IsSpace(r[0]) && !IsSpace(r[|r| - 1]))
  {
    if input == [] then []
    else
      var e := RemoveControls(Escape(input));
      EscapeCommutes(input);
      EscapeSafe(RemoveControls(input));
      EscapeEntities(RemoveControls(input));
      TrimKeepsEntities(e);
      Trim(e)
  }

  lemma EscapeCharSafe(c: char)
    ensures forall d :: d in EscapeChar(c) ==> d == c || !Unsafe(d)
    ensures AmpersandsAreEntities(EscapeChar(c))
  {
    var e := EscapeChar(c);
    if c == '<' || c == '>' || c == '"' || c == '\'' || c == '&' {
      assert HasAt(e, 0, e);
      assert forall i :: 0 < i < |e| ==> e[i] != '&';
    } else {
      assert e == [c];
    }
  }

  /** Dropping CR/LF/TAB from one escaped character is escaping what is left of it. */
  lemma RemoveControlsEscapeChar(c: char)
    ensures RemoveControls(EscapeChar(c)) == Escape(RemoveControls([c]))
  {
    var e := EscapeChar(c);
    assert RemoveControls([c]) == (if NotControl(c) then [c] else []) + Filter([], NotControl);
    if c == '<' || c == '>' || c == '"' || c == '\'' || c == '&' {
      assert forall d :: d in e ==> NotControl(d);
      FilterAll(e, NotControl);
      assert Escape([c]) == EscapeChar(c) + Escape([]);
    } else {
      assert e == [c];
      if NotControl(c) {
        assert Escape([c]) == EscapeChar(c) + Escape([]);
      }
    }
  }

  lemma {:induction false} EscapeAppend(a: string, b: string)
    ensures Escape(a + b) == Escape(a) + Escape(b)
  {
    if a == [] {
      assert a + b == b;
    } else {
      assert (a + b)[0] == a[0] && (a + b)[1..] == a[1..] + b;
      EscapeAppend(a[1..], b);
    }
  }

  /** The escape step leaves no bracket or quote, and keeps only the control characters it had. */
  lemma {:induction false} EscapeSafe(s: string)
    requires forall c :: c in s ==> !IsControl(c)
    ensures forall c :: c in Escape(s) ==> !Unsafe(c)
  {
    if s != [] {
      EscapeCharSafe(s[0]);
      EscapeSafe(s[1..]);
    }
  }

  /** A pattern found in `s` is found at the shifted index where `s` sits inside `t` at `off`. */
  lemma HasAtInfix(s: string, t: string, i: nat, off: nat, p: string)
    requires off + |s| <= |t| && t[off..off + |s|] == s
    requires HasAt(s, i, p)
    ensures HasAt(t, off + i, p)
  {
    var ts, ss := t[off + i..off + i + |p|], s[i..i + |p|];
    forall m | 0 <= m < |p|
      ensures ts[m] == ss[m]
    {
      assert t[off + i + m] == t[off..off + |s|][i + m];
    }
    assert ts == ss;
  }

  /** An entity inside `s` is still one where `s` sits inside `t` at offset `off`. */
  lemma EntityAtInfix(s: string, t: string, i: nat, off: nat)
    requires off + |s| <= |t| && t[off..off + |s|] == s
    requires i < |s| && EntityAt(s, i)
    ensures EntityAt(t, off + i)
  {
    if HasAt(s, i, "&lt;") { HasAtInfix(s, t, i, off, "&lt;"); }
    else if HasAt(s, i, "&gt;") { HasAtInfix(s, t, i, off, "&gt;"); }
    else if HasAt(s, i, "&quot;") { HasAtInfix(s, t, i, off, "&quot;"); }
    else if HasAt(s, i, "&#x27;") { HasAtInfix(s, t, i, off, "&#x27;"); }
    else { HasAtInfix(s, t, i, off, "&amp;"); }
  }

  lemma EntitiesConcat(a: string, b: string)
    requires AmpersandsAreEntities(a) && AmpersandsAreEntities(b)
    ensures AmpersandsAreEntities(a + b)
  {
    var ab := a + b;
    assert ab[0..|a|] == a && ab[|a|..|a| + |b|] == b;
    forall i | 0 <= i < |ab| && ab[i] == '&'
      ensures EntityAt(ab, i)
    {
      if i < |a| {
        assert a[i] == '&';
        EntityAtInfix(a, ab, i, 0);
      } else {
        assert b[i - |a|] == '&';
        EntityAtInfix(b, ab, i - |a|, |a|);
      }
    }
  }

  /** In escaped text every `&` opens an entity. */
  lemma {:induction false} EscapeEntities(s: string)
    ensures AmpersandsAreEntities(Escape(s))
  {
    if s != [] {
      EscapeCharSafe(s[0]);
      EscapeEntities(s[1..]);
      EntitiesConcat(EscapeChar(s[0]), Escape(s[1..]));
    }
  }

  /** Removing CR/LF/TAB before or after the escape step gives the same text. */
  lemma {:induction false} EscapeCommutes(s: string)
    ensures RemoveControls(Escape(s)) == Escape(RemoveControls(s))
  {
    if s != [] {
      var c, t := s[0], s[1..];
      assert s == [c] + t;
      calc {
        RemoveControls(Escape(s));
        RemoveControls(EscapeChar(c) + Escape(t));
        { FilterAppend(EscapeChar(c), Escape(t), NotControl); }
        RemoveControls(EscapeChar(c)) + RemoveControls(Escape(t));
        { RemoveControlsEscapeChar(c); EscapeCommutes(t); }
        Escape(RemoveControls([c])) + Escape(RemoveControls(t));
        { EscapeAppend(RemoveControls([c]), RemoveControls(t)); }
        Escape(RemoveControls([c]) + RemoveControls(t));
        { FilterAppend([c], t, NotControl); }
        Escape(RemoveControls(s));
      }
    }
  }

  /** An entity that ends before the white-space tail of `x` survives slicing `x[lo..hi]`. */
  lemma EntityInSlice(x: string, lo: nat, hi: nat, k: nat, p: string)
    requires lo <= k && lo <= hi <= |x| && k < hi
    requires AllSpace(x[hi..])
    requires HasAt(x, k, p) && |p| > 0 && p[|p| - 1] == ';'
    ensures HasAt(x[lo..hi], k - lo, p)
  {
    var last := k + |p| - 1;
    assert x[last] == ';';
    assert k + |p| <= hi;
    var y := x[lo..hi];
    var ys, xs := y[k - lo..k - lo + |p|], x[k..k + |p|];
    forall m | 0 <= m < |p|
      ensures ys[m] == xs[m]
    {
      assert y[k - lo + m] == x[k + m];
    }
    assert ys == xs;
  }

  /** Trimming cannot cut an entity: each one ends in `;`, which is not white space. */
  lemma TrimKeepsEntities(x: string)
    requires AmpersandsAreEntities(x)
    ensures AmpersandsAreEntities(Trim(x))
  {
    var lo, hi := TrimLo(x), TrimHi(x);
    var r := Trim(x);
    TrimCuts(x);
    forall i | 0 <= i < |r| && r[i] == '&'
      ensures EntityAt(r, i)
    {
      var k := lo + i;
      assert x[k] == r[i];
      assert EntityAt(x, k);
      if HasAt(x, k, "&lt;") { EntityInSlice(x, lo, hi, k, "&lt;"); }
      else if HasAt(x, k, "&gt;") { EntityInSlice(x, lo, hi, k, "&gt;"); }
      else if HasAt(x, k, "&quot;") { EntityInSlice(x, lo, hi, k, "&quot;"); }
      else if HasAt(x, k, "&#x27;") { EntityInSlice(x, lo, hi, k, "&#x27;"); }
      else { EntityInSlice(x, lo, hi, k, "&amp;"); }
    }
  }

  // ---- decoding the five entities ----

  /** Replaces each of the five entities by the character it stands for, left to right. */
  function Decode(s: string): string
    decreases |s|
  {
    if s == [] then []
    else if HasAt(s, 0, "&lt;") then "<" + Decode(s[4..])
    else if HasAt(s, 0, "&gt;") then ">" + Decode(s[4..])
    else if HasAt(s, 0, "&quot;") then "\"" + Decode(s[6..])
    else if HasAt(s, 0, "&#x27;") then "'" + Decode(s[6..])
    else if HasAt(s, 0, "&amp;") then "&" + Decode(s[5..])
    else [s[0]] + Decode(s[1..])
  }

  /** A character other than `&` starts no entity, so decoding copies it. */
  lemma DecodePlainChar(c: char, t: string)
    requires c != '&'
    ensures Decode([c] + t) == [c] + Decode(t)
  {
    var s := [c] + t;
    assert s[0] == c && s[1..] == t;
    forall p: string | p != [] && |p| <= |s|
      ensures HasAt(s, 0, p) ==> s[0] == p[0]
    {
      assert s[0..|p|][0] == s[0];
    }
  }

  /** An escaped character is decoded back to itself and decoding resumes right after it. */
  lemma DecodeEntityChar(c: char, t: string)
    requires c in "<>\"'&"
    ensures Decode(EscapeChar(c) + t) == [c] + Decode(t)
  {
    var e := EscapeChar(c);
    var s := e + t;
    assert s[..|e|] == e && s[|e|..] == t;
    assert s[0] == '&';
    if c == '<' {
      assert HasAt(s, 0, "&lt;");
    } else if c == '>' {
      assert s[1] == 'g' && !HasAt(s, 0, "&lt;");
      assert HasAt(s, 0, "&gt;");
    } else if c == '"' {
      assert s[1] == 'q' && !HasAt(s, 0, "&lt;") && !HasAt(s, 0, "&gt;");
      assert HasAt(s, 0, "&quot;");
    } else if c == '\'' {
      assert s[1] == '#' && !HasAt(s, 0, "&lt;") && !HasAt(s, 0, "&gt;") && !HasAt(s, 0, "&quot;");
      assert HasAt(s, 0, "&#x27;");
    } else {
      assert s[1] == 'a' && !HasAt(s, 0, "&lt;") && !HasAt(s, 0, "&gt;") && !HasAt(s, 0, "&quot;");
      assert !HasAt(s, 0, "&#x27;") && HasAt(s, 0, "&amp;");
    }
  }

  lemma DecodeEscapeChar(c: char, t: string)
    ensures Decode(EscapeChar(c) + t) == [c] + Decode(t)
  {
    if c in "<>\"'&" {
      DecodeEntityChar(c, t);
    } else {
      assert EscapeChar(c) == [c];
      DecodePlainChar(c, t);
    }
  }

  /** Decoding undoes the escape step: the escape is a single pass. */
  lemma {:induction false} DecodeEscape(s: string)
    ensures Decode(Escape(s)) == s
  {
    if s != [] {
      DecodeEscapeChar(s[0], Escape(s[1..]));
      DecodeEscape(s[1..]);
    }
  }

  /**
    Decoding the text `sanitizeInput` builds before trimming recovers the input with its CR, LF
    and TAB removed; the returned text is that escaped text, trimmed.
  */
  lemma SanitizeInputDecodes(input: string)
    ensures Decode(RemoveControls(Escape(input))) == RemoveControls(input)
    ensures SanitizeInput(input) == Trim(Escape(RemoveControls(input)))
  {
    EscapeCommutes(input);
    DecodeEscape(RemoveControls(input));
  }

  // ---- sanitizeForDB ----

  predicate SqlChar(c: char) { c == '\'' || c == '"' || c == '\\' || c == ';' }

  predicate NotSqlChar(c: char) { !SqlChar(c) }

  /**
    `sanitizeForDB`: drop quotes, backslashes and semicolons, trim, keep at most 1000
    characters. The result is a prefix of the trimmed, stripped text, and all of it when that
    text fits.
  */
  function SanitizeForDB(input: string): (r: string)
    ensures forall c :: c in r ==> !SqlChar(c)
    ensures |r| == Min(|Trim(Filter(input, NotSqlChar))|, 1000)
    ensures r == Trim(Filter(input, NotSqlChar))[..|r|]
    ensures |Trim(Filter(input, NotSqlChar))| <= 1000 ==> r == Trim(Filter(input, NotSqlChar))
  {
    var t := Trim(Filter(input, NotSqlChar));
    var r := Take(t, 1000);
    assert forall c :: c in r ==> c in t by {
      forall c | c in r ensures c in t {
        var k :| 0 <= k < |r| && r[k] == c;
        assert t[k] == c;
      }
    }
    r
  }

  // ---- sanitizeHTML ----

  function EscapeAngle(c: char): string {
    if c == '<' then "&lt;" else if c == '>' then "&gt;" else [c]
  }

  /** `replace(/[<>]/g, ...)`. */
  function EscapeAngles(s: string): (r: string)
    ensures forall c :: c in r ==> c != '<' && c != '>' && (c in s || c in "&lt;gt")
  {
    if s == [] then [] else EscapeAngle(s[0]) + EscapeAngles(s[1..])
  }

  /** Global, case-insensitive removal of the literal `w`, scanning left to right once. */
  function RemoveAllCI(s: string, w: string): (r: string)
    requires |w| > 0
    ensures forall c :: c in r ==> c in s
    decreases |s|
  {
    if s == [] then []
    else if HasAtCI(s, 0, w) then RemoveAllCI(s[|w|..], w)
    else [s[0]] + RemoveAllCI(s[1..], w)
  }

  predicate IsWordChar(c: char) {
    'a' <= c <= 'z' || 'A' <= c <= 'Z' || '0' <= c <= '9' || c == '_'
  }

  function SkipWordChars(s: string, i: nat): (j: nat)
    requires i <= |s|
    ensures i <= j <= |s|
    ensures j < |s| ==> !IsWordChar(s[j])
    decreases |s| - i
  {
    if i < |s| && IsWordChar(s[i]) then SkipWordChars(s, i + 1) else i
  }

  /** Length of the match of `/on\w+=/i` at the start of `s`, if there is one. */
  function OnAttrLength(s: string): (n: nat)
    ensures n == 0 || (4 <= n <= |s| && s[n - 1] == '=')
  {
    if HasAtCI(s, 0, "on") then
      var e := SkipWordChars(s, 2);
      if e > 2 && e < |s| && s[e] == '=' then e + 1 else 0
    else 0
  }

  /** `replace(/on\w+=/gi, '')`. */
  function RemoveOnAttrs(s: string): (r: string)
    ensures forall c :: c in r ==> c in s
    decreases |s|
  {
    if s == [] then []
    else if OnAttrLength(s) > 0 then RemoveOnAttrs(s[OnAttrLength(s)..])
    else [s[0]] + RemoveOnAttrs(s[1..])
  }

  /**
    `sanitizeHTML`: empty input gives empty output; otherwise escape `<` and `>`, then remove
    `javascript:` and `on...=` once each, left to right. No angle bracket survives.
  */
  function SanitizeHTML(input: string): (r: string)
    ensures input == [] ==> r == []
    ensures '<' !in r && '>' !in r
  {
    if input == [] then [] else RemoveOnAttrs(RemoveAllCI(EscapeAngles(input), "javascript:"))
  }

  /** Text with no angle bracket, `javascript:` or `on` sequence passes through unchanged. */
  lemma {:induction false} SanitizeHTMLPlain(s: string)
    requires forall k :: 0 <= k < |s| ==> s[k] != '<' && s[k] != '>' && Lower(s[k]) != 'j' && Lower(s[k]) != 'o'
    ensures EscapeAngles(s) == s && RemoveAllCI(s, "javascript:") == s && RemoveOnAttrs(s) == s
  {
    if s != [] {
      SanitizeHTMLPlain(s[1..]);
      assert "javascript:"[0] == 'j' && "on"[0] == 'o';
      assert !HasAtCI(s, 0, "javascript:") && !HasAtCI(s, 0, "on");
      assert s == [s[0]] + s[1..];
    }
  }
}
