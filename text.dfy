/**
 * Text operations the server relies on: the JavaScript string methods the
 * filter compiler calls (`replace`, `toUpperCase`, `toLowerCase`, `parseInt`),
 * PostgreSQL's `LIKE`, the decimal rendering of integers (`::text`) and the
 * lexicographic order used to compare ISO-8601 date strings.
 */
module Text {

  import opened Wrappers

  /** `sub` occurs in `s` as a contiguous block. */
  predicate Contains(s: string, sub: string) {
    exists i | 0 <= i <= |s| - |sub| :: OccursAt(s, sub, i)
  }

  /** `sub` occurs in `s` starting at position `i`. */
  predicate OccursAt(s: string, sub: string, i: int) {
    0 <= i <= |s| - |sub| && s[i..i + |sub|] == sub
  }

  // ---------------------------------------------------------------------------
  // PostgreSQL LIKE
  // ---------------------------------------------------------------------------

  /**
   * `text LIKE pattern` in PostgreSQL: `%` matches any run of characters,
   * `_` matches exactly one character, and the default escape character,
   * backslash, makes the character after it literal.
   */
  predicate Like(pattern: string, text: string)
    decreases |pattern| + |text|
  {
    if pattern == [] then text == []
    else if pattern[0] == '%' then
      Like(pattern[1..], text) || (text != [] && Like(pattern, text[1..]))
    else if pattern[0] == '_' then
      text != [] && Like(pattern[1..], text[1..])
    else if pattern[0] == '\\' && |pattern| >= 2 then
      text != [] && text[0] == pattern[1] && Like(pattern[2..], text[1..])
    else
      text != [] && text[0] == pattern[0] && Like(pattern[1..], text[1..])
  }

  /** No `%` and no escape character: `_` is then the only wildcard left. */
  predicate NoRunWildcard(v: string) {
    forall i :: 0 <= i < |v| ==> v[i] != '%' && v[i] != '\\'
  }

  /** No LIKE metacharacter at all: the value matches only itself. */
  predicate Literal(v: string) {
    NoRunWildcard(v) && forall i :: 0 <= i < |v| ==> v[i] != '_'
  }

  /** `v` matches `t` from position `i` when each `_` of `v` may stand for any character. */
  predicate MatchesAt(t: string, i: int, v: string)
    requires 0 <= i <= |t| - |v|
  {
    forall k :: 0 <= k < |v| ==> v[k] == '_' || t[i + k] == v[k]
  }

  /** `t` has a block that `v` matches, `_` standing for any one character. */
  predicate ContainsLike(t: string, v: string) {
    exists i :: 0 <= i <= |t| - |v| && MatchesAt(t, i, v)
  }

  /** A `%` run in front of a pattern lets the rest match any suffix of the text. */
  lemma {:induction false} LikeLeadingRun(q: string, t: string)
    ensures Like("%" + q, t) <==> exists i :: 0 <= i <= |t| && Like(q, t[i..])
    decreases |t|
  {
    var p := "%" + q;
    assert p[0] == '%' && p[1..] == q;
    if t == [] {
      assert t[0..] == t;
    } else {
      LikeLeadingRun(q, t[1..]);
      if Like(p, t) {
        if !Like(q, t) {
          var i :| 0 <= i <= |t[1..]| && Like(q, t[1..][i..]);
          assert t[1..][i..] == t[i + 1..];
        } else {
          assert t[0..] == t;
        }
      }
      if exists i :: 0 <= i <= |t| && Like(q, t[i..]) {
        var i :| 0 <= i <= |t| && Like(q, t[i..]);
        if i == 0 {
          assert t[0..] == t;
        } else {
          assert t[1..][i - 1..] == t[i..];
        }
      }
    }
  }

  /** A pattern without `%` or escapes consumes exactly its own length of text. */
  lemma {:induction false} LikeFixedPrefix(v: string, rest: string, t: string)
    requires NoRunWildcard(v)
    ensures Like(v + rest, t) <==> |v| <= |t| && MatchesAt(t, 0, v) && Like(rest, t[|v|..])
    decreases |v|
  {
    if v == [] {
      assert v + rest == rest;
      assert t[0..] == t;
    } else {
      var p := v + rest;
      assert p[0] == v[0] && p[1..] == v[1..] + rest;
      assert NoRunWildcard(v[1..]) by {
        forall i | 0 <= i < |v[1..]| ensures v[1..][i] != '%' && v[1..][i] != '\\' {
          assert v[1..][i] == v[i + 1];
        }
      }
      if t == [] {
      } else {
        LikeFixedPrefix(v[1..], rest, t[1..]);
        if |v| <= |t| {
          assert t[1..][|v| - 1..] == t[|v|..];
          assert MatchesAt(t, 0, v) <==> (v[0] == '_' || t[0] == v[0]) && MatchesAt(t[1..], 0, v[1..]) by {
            if MatchesAt(t, 0, v) {
              forall k | 0 <= k < |v[1..]| ensures v[1..][k] == '_' || t[1..][k] == v[1..][k] {
                assert v[1..][k] == v[k + 1] && t[1..][k] == t[k + 1];
              }
            }
            if (v[0] == '_' || t[0] == v[0]) && MatchesAt(t[1..], 0, v[1..]) {
              forall k | 0 <= k < |v| ensures v[k] == '_' || t[k] == v[k] {
                if k > 0 {
                  assert v[1..][k - 1] == v[k] && t[1..][k - 1] == t[k];
                }
              }
            }
          }
        }
      }
    }
  }

  /** A lone `%` matches every text. */
  lemma LikeRunMatchesAll(t: string)
    ensures Like("%", t)
  {
    LikeLeadingRun([], t);
    assert Like([], t[|t|..]);
  }

  /**
   * The pattern the filter compiler builds, `%` + v + `%`, selects exactly the
   * texts that contain a block matching `v`, where every `_` of `v` is still a
   * one-character wildcard.
   */
  lemma LikeSurroundedIsContainsLike(v: string, t: string)
    requires NoRunWildcard(v)
    ensures Like("%" + v + "%", t) <==> ContainsLike(t, v)
  {
    assert "%" + v + "%" == "%" + (v + "%");
    LikeLeadingRun(v + "%", t);
    if Like("%" + v + "%", t) {
      var i :| 0 <= i <= |t| && Like(v + "%", t[i..]);
      LikeFixedPrefix(v, "%", t[i..]);
      assert MatchesAt(t, i, v) by {
        forall k | 0 <= k < |v| ensures v[k] == '_' || t[i + k] == v[k] {
          assert t[i..][k] == t[i + k];
        }
      }
    }
    if ContainsLike(t, v) {
      var i :| 0 <= i <= |t| - |v| && MatchesAt(t, i, v);
      LikeFixedPrefix(v, "%", t[i..]);
      assert MatchesAt(t[i..], 0, v) by {
        forall k | 0 <= k < |v| ensures v[k] == '_' || t[i..][k] == v[k] {
          assert t[i..][k] == t[i + k];
        }
      }
      LikeRunMatchesAll(t[i..][|v|..]);
    }
  }

  /** For a value free of LIKE metacharacters the pattern is a plain substring test. */
  lemma LikeSurroundedIsContains(v: string, t: string)
    requires Literal(v)
    ensures Like("%" + v + "%", t) <==> Contains(t, v)
  {
    LikeSurroundedIsContainsLike(v, t);
    if ContainsLike(t, v) {
      var i :| 0 <= i <= |t| - |v| && MatchesAt(t, i, v);
      assert t[i..i + |v|] == v;
      assert OccursAt(t, v, i);
    }
    if Contains(t, v) {
      var i :| 0 <= i <= |t| - |v| && OccursAt(t, v, i);
      assert MatchesAt(t, i, v) by {
        forall k | 0 <= k < |v| ensures v[k] == '_' || t[i + k] == v[k] {
          assert t[i..i + |v|][k] == t[i + k];
        }
      }
    }
  }

  /** Whatever contains `v` literally is selected by `%` + v + `%`, wildcards or not. */
  lemma ContainsImpliesLikeSurrounded(v: string, t: string)
    requires NoRunWildcard(v)
    requires Contains(t, v)
    ensures Like("%" + v + "%", t)
  {
    var i :| 0 <= i <= |t| - |v| && OccursAt(t, v, i);
    assert MatchesAt(t, i, v) by {
      forall k | 0 <= k < |v| ensures v[k] == '_' || t[i + k] == v[k] {
        assert t[i..i + |v|][k] == t[i + k];
      }
    }
    LikeSurroundedIsContainsLike(v, t);
  }

  /**
   * A raw `_` in a filter value is a wildcard: the value "_" selects every
   * non-empty text, including texts with no underscore in them.
   */
  lemma UnderscoreValueMatchesEveryNonEmptyText(t: string)
    requires t != []
    ensures Like("%" + "_" + "%", t)
  {
    assert NoRunWildcard("_");
    assert MatchesAt(t, 0, "_");
    LikeSurroundedIsContainsLike("_", t);
  }

  // ---------------------------------------------------------------------------
  // JavaScript string methods (ASCII letters only)
  // ---------------------------------------------------------------------------

  predicate IsAsciiUpper(c: char) { 'A' <= c <= 'Z' }
  predicate IsAsciiLower(c: char) { 'a' <= c <= 'z' }
  predicate IsAsciiDigit(c: char) { '0' <= c <= '9' }

  function UpperChar(c: char): char {
    if IsAsciiLower(c) then (c as int - 32) as char else c
  }

  function LowerChar(c: char): char {
    if IsAsciiUpper(c) then (c as int + 32) as char else c
  }

  /**
   * `s.toUpperCase()`: no lower-case letter is left, each lower-case letter
   * becomes the upper-case letter that lower-cases back to it, and every
   * other character is kept.
   */
  function ToUpper(s: string): (r: string)
    ensures |r| == |s|
    ensures forall i :: 0 <= i < |r| ==> !IsAsciiLower(r[i])
    ensures forall i :: 0 <= i < |s| && IsAsciiLower(s[i]) ==> IsAsciiUpper(r[i]) && LowerChar(r[i]) == s[i]
    ensures forall i :: 0 <= i < |s| && !IsAsciiLower(s[i]) ==> r[i] == s[i]
  {
    seq(|s|, i requires 0 <= i < |s| => UpperChar(s[i]))
  }

  /**
   * `s.toLowerCase()`: no upper-case letter is left, each upper-case letter
   * becomes the lower-case letter that upper-cases back to it, and every
   * other character is kept.
   */
  function ToLower(s: string): (r: string)
    ensures |r| == |s|
    ensures forall i :: 0 <= i < |r| ==> !IsAsciiUpper(r[i])
    ensures forall i :: 0 <= i < |s| && IsAsciiUpper(s[i]) ==> IsAsciiLower(r[i]) && UpperChar(r[i]) == s[i]
    ensures forall i :: 0 <= i < |s| && !IsAsciiUpper(s[i]) ==> r[i] == s[i]
  {
    seq(|s|, i requires 0 <= i < |s| => LowerChar(s[i]))
  }

  /** Upper-casing twice is upper-casing once, and so is lower-casing. */
  lemma CaseMappingIdempotent(s: string)
    ensures ToUpper(ToUpper(s)) == ToUpper(s)
    ensures ToLower(ToLower(s)) == ToLower(s)
  {
  }

  /** Upper-casing ignores the letters' case: a lower-cased text upper-cases to the same text. */
  lemma ToUpperIgnoresCase(s: string)
    ensures ToUpper(ToLower(s)) == ToUpper(s)
  {
    var l := ToLower(s);
    forall i | 0 <= i < |s| ensures ToUpper(l)[i] == ToUpper(s)[i] {
      if IsAsciiUpper(s[i]) {
        assert IsAsciiLower(l[i]) && UpperChar(l[i]) == s[i];
      }
    }
  }

  /** A text with an upper-case letter is never equal to a lower-cased text. */
  lemma UpperNeverEqualsLowered(s: string, t: string)
    requires exists i :: 0 <= i < |s| && IsAsciiUpper(s[i])
    ensures ToLower(t) != s
  {
    var i :| 0 <= i < |s| && IsAsciiUpper(s[i]);
    if i < |t| {
      assert !IsAsciiUpper(ToLower(t)[i]);
    }
  }

  /** Lower-casing leaves a text unchanged exactly when it holds no upper-case letter. */
  lemma ToLowerFixedIffNoUpper(s: string)
    ensures ToLower(s) == s <==> forall i :: 0 <= i < |s| ==> !IsAsciiUpper(s[i])
  {
    if exists i :: 0 <= i < |s| && IsAsciiUpper(s[i]) {
      UpperNeverEqualsLowered(s, s);
    }
  }

  /**
   * `s.replace(" ", "_")` with a string pattern, generalised to one character:
   * only the FIRST occurrence of `from` is replaced.
   */
  function ReplaceFirst(s: string, from: char, to: char): string {
    if s == [] then []
    else if s[0] == from then [to] + s[1..]
    else [s[0]] + ReplaceFirst(s[1..], from, to)
  }

  /** Without `from`, nothing is replaced. */
  lemma {:induction false} ReplaceFirstAbsent(s: string, from: char, to: char)
    requires from !in s
    ensures ReplaceFirst(s, from, to) == s
  {
    if s != [] {
      assert from !in s[1..];
      ReplaceFirstAbsent(s[1..], from, to);
    }
  }

  /** When the first `from` sits at `k`, exactly that position becomes `to`. */
  lemma {:induction false} ReplaceFirstAt(s: string, from: char, to: char, k: nat)
    requires k < |s| && s[k] == from && from !in s[..k]
    ensures ReplaceFirst(s, from, to) == s[..k] + [to] + s[k + 1..]
  {
    if k > 0 {
      assert s[0] != from by { assert s[0] == s[..k][0]; }
      assert from !in s[1..][..k - 1] by { assert s[1..][..k - 1] == s[1..k]; }
      ReplaceFirstAt(s[1..], from, to, k - 1);
      assert s[..k] == [s[0]] + s[1..][..k - 1];
      assert s[k + 1..] == s[1..][k..];
    }
  }

  /** What ReplaceFirst does, stated by position: the first `from`, if any, becomes `to`. */
  lemma ReplaceFirstSpec(s: string, from: char, to: char)
    ensures from !in s ==> ReplaceFirst(s, from, to) == s
    ensures from in s ==>
      exists k :: 0 <= k < |s| && s[k] == from && from !in s[..k] &&
        ReplaceFirst(s, from, to) == s[..k] + [to] + s[k + 1..]
  {
    if from !in s {
      ReplaceFirstAbsent(s, from, to);
    } else {
      var k := FirstIndex(s, from);
      ReplaceFirstAt(s, from, to, k);
    }
  }

  /** The position of the first `x` in `s`. */
  function FirstIndex(s: string, x: char): (k: nat)
    requires x in s
    ensures k < |s| && s[k] == x && x !in s[..k]
  {
    if s[0] == x then 0
    else
      assert x in s[1..];
      var k := FirstIndex(s[1..], x);
      assert s[..k + 1] == [s[0]] + s[1..][..k];
      k + 1
  }

  /** A second occurrence survives: "POINT 4 5" becomes "POINT_4 5", not "POINT_4_5". */
  lemma ReplaceFirstKeepsSecondOccurrence()
    ensures ReplaceFirst("a b c", ' ', '_') == "a_b c"
  {
  }

  // ---------------------------------------------------------------------------
  // Lexicographic order on text
  // ---------------------------------------------------------------------------

  /** Code-unit lexicographic order (the order of ISO-8601 timestamps written alike). */
  predicate LexLe(a: string, b: string)
    decreases |a|
  {
    a == [] || (b != [] && (a[0] < b[0] || (a[0] == b[0] && LexLe(a[1..], b[1..]))))
  }

  lemma {:induction false} LexLeTotal(a: string, b: string)
    ensures LexLe(a, b) || LexLe(b, a)
    decreases |a|
  {
    if a != [] && b != [] && a[0] == b[0] {
      LexLeTotal(a[1..], b[1..]);
    }
  }

  lemma {:induction false} LexLeTransitive(a: string, b: string, c: string)
    requires LexLe(a, b) && LexLe(b, c)
    ensures LexLe(a, c)
    decreases |a|
  {
    if a != [] && b != [] && c != [] && a[0] == b[0] && b[0] == c[0] {
      LexLeTransitive(a[1..], b[1..], c[1..]);
    }
  }

  lemma {:induction false} LexLeAntisymmetric(a: string, b: string)
    requires LexLe(a, b) && LexLe(b, a)
    ensures a == b
    decreases |a|
  {
    if a != [] && b != [] {
      LexLeAntisymmetric(a[1..], b[1..]);
      assert a == [a[0]] + a[1..] && b == [b[0]] + b[1..];
    }
  }

  // ---------------------------------------------------------------------------
  // Integers as text: JavaScript parseInt and decimal rendering
  // ---------------------------------------------------------------------------

  /** StrWhiteSpaceChar of ECMAScript: white space and line terminators. */
  predicate IsJsSpace(c: char) {
    c == ' ' || c == '\t' || c == '\n' || c == '\r' || c == '\U{000B}' || c == '\U{000C}' ||
    c == '\U{00A0}' || c == '\U{1680}' || ('\U{2000}' <= c <= '\U{200A}') ||
    c == '\U{2028}' || c == '\U{2029}' || c == '\U{202F}' || c == '\U{205F}' ||
    c == '\U{3000}' || c == '\U{FEFF}'
  }

  /** The text after its leading white space: every character dropped is a space, the first one kept is not. */
  function TrimStart(s: string): (r: string)
    ensures |r| <= |s| && r == s[|s| - |r|..]
    ensures forall i :: 0 <= i < |s| - |r| ==> IsJsSpace(s[i])
    ensures r == [] || !IsJsSpace(r[0])
  {
    if s != [] && IsJsSpace(s[0]) then
      var t := TrimStart(s[1..]);
      assert forall i :: 1 <= i < |s| - |t| ==> s[i] == s[1..][i - 1];
      t
    else s
  }

  /** Value of `c` as a digit in base `radix` (10 or 16). */
  function DigitValue(c: char, radix: nat): Option<nat> {
    if IsAsciiDigit(c) && (c as int - '0' as int) < radix then Some(c as int - '0' as int)
    else if radix == 16 && 'a' <= c <= 'f' then Some(c as int - 'a' as int + 10)
    else if radix == 16 && 'A' <= c <= 'F' then Some(c as int - 'A' as int + 10)
    else None
  }

  /** Length of the longest prefix of `s` made of digits of `radix`: the run stops at the end or at a non-digit. */
  function DigitRun(s: string, radix: nat): (n: nat)
    ensures n <= |s|
    ensures forall i :: 0 <= i < n ==> DigitValue(s[i], radix).Some?
    ensures n == |s| || DigitValue(s[n], radix).None?
  {
    if s != [] && DigitValue(s[0], radix).Some? then
      var m := DigitRun(s[1..], radix);
      assert forall i :: 1 <= i < 1 + m ==> s[i] == s[1..][i - 1];
      1 + m
    else 0
  }

  /** Value of a run of digits, most significant first. */
  function DigitsValue(ds: string, radix: nat): nat
    requires forall i :: 0 <= i < |ds| ==> DigitValue(ds[i], radix).Some?
  {
    if ds == [] then 0
    else DigitsValue(ds[..|ds| - 1], radix) * radix + DigitValue(ds[|ds| - 1], radix).value
  }

  /** The longest run of digits at the front of `body`; `None` (NaN) when there is none. */
  function ParseDigits(body: string, radix: nat): Option<nat> {
    var n := DigitRun(body, radix);
    if n == 0 then None else Some(DigitsValue(body[..n], radix))
  }

  /** Digits after the sign: a `0x`/`0X` prefix switches to base 16. */
  function ParseUnsigned(u: string): Option<nat> {
    if |u| >= 2 && u[0] == '0' && (u[1] == 'x' || u[1] == 'X') then ParseDigits(u[2..], 16)
    else ParseDigits(u, 10)
  }

  /**
   * `parseInt(s)` without a radix: leading white space is skipped, one sign is
   * allowed, `0x`/`0X` switches to base 16, and the longest run of digits is
   * read; `None` stands for NaN (no digit at all).
   */
  function ParseInt(s: string): Option<int> {
    var t := TrimStart(s);
    if t != [] && (t[0] == '-' || t[0] == '+') then
      match ParseUnsigned(t[1..])
      case None => None
      case Some(m) => var r: int := if t[0] == '-' then -(m as int) else m; Some(r)
    else
      match ParseUnsigned(t)
      case None => None
      case Some(m) => Some(m)
  }

  function DigitChar(d: nat): char
    requires d < 10
  {
    ('0' as int + d) as char
  }

  /** Decimal digits of a natural number, most significant first, no leading zero. */
  function NatDigits(n: nat): (r: string)
    ensures |r| >= 1
    ensures forall i :: 0 <= i < |r| ==> IsAsciiDigit(r[i])
    ensures n > 0 ==> r[0] != '0'
    ensures n == 0 ==> r == "0"
  {
    if n < 10 then [DigitChar(n)] else NatDigits(n / 10) + [DigitChar(n % 10)]
  }

  /** The canonical decimal text of an integer: JS `String(n)`, PostgreSQL `n::text`. */
  function DecimalString(n: int): string {
    if n < 0 then "-" + NatDigits(-n) else NatDigits(n)
  }

  lemma {:induction false} NatDigitsValue(n: nat)
    ensures forall i :: 0 <= i < |NatDigits(n)| ==> DigitValue(NatDigits(n)[i], 10).Some?
    ensures DigitRun(NatDigits(n), 10) == |NatDigits(n)|
    ensures DigitsValue(NatDigits(n), 10) == n
  {
    var ds := NatDigits(n);
    DigitRunOfDigits(ds);
    if n >= 10 {
      NatDigitsValue(n / 10);
      assert ds[..|ds| - 1] == NatDigits(n / 10);
    }
  }

  lemma {:induction false} DigitRunOfDigits(ds: string)
    requires forall i :: 0 <= i < |ds| ==> IsAsciiDigit(ds[i])
    ensures forall i :: 0 <= i < |ds| ==> DigitValue(ds[i], 10).Some?
    ensures DigitRun(ds, 10) == |ds|
  {
    if ds != [] {
      DigitRunOfDigits(ds[1..]);
    }
  }

  /** The digits of a natural number read back as that number, in base 10 and without a hex prefix. */
  lemma NatDigitsParse(m: nat)
    ensures ParseUnsigned(NatDigits(m)) == Some(m)
  {
    var ds := NatDigits(m);
    NatDigitsValue(m);
    assert ds[..|ds|] == ds;
    assert |ds| >= 2 ==> IsAsciiDigit(ds[1]);
  }

  /** parseInt reads back exactly the integer that String(n) wrote. */
  lemma ParseIntDecimalString(n: int)
    ensures ParseInt(DecimalString(n)) == Some(n)
  {
    if n < 0 {
      var m: nat := -n;
      assert DecimalString(n) == "-" + NatDigits(m);
      ParseIntNegative(m);
    } else {
      assert DecimalString(n) == NatDigits(n);
      ParseIntNatural(n);
    }
  }

  lemma ParseIntNegative(m: nat)
    ensures ParseInt("-" + NatDigits(m)) == Some(-(m as int))
  {
    var s := "-" + NatDigits(m);
    NatDigitsParse(m);
    assert s[1..] == NatDigits(m);
    ParseIntMinus(s);
  }

  lemma ParseIntNatural(m: nat)
    ensures ParseInt(NatDigits(m)) == Some(m)
  {
    NatDigitsParse(m);
    ParseIntDigitFirst(NatDigits(m));
  }

  /** Text starting with `-` reads as the negated unsigned number after it. */
  lemma ParseIntMinus(s: string)
    requires s != [] && s[0] == '-'
    ensures ParseUnsigned(s[1..]).Some? ==> ParseInt(s) == Some(-(ParseUnsigned(s[1..]).value as int))
  {
    assert !IsJsSpace(s[0]);
    assert TrimStart(s) == s;
  }

  /** Text starting with a digit reads as an unsigned number. */
  lemma ParseIntDigitFirst(s: string)
    requires s != [] && IsAsciiDigit(s[0])
    ensures ParseUnsigned(s).Some? ==> ParseInt(s) == Some(ParseUnsigned(s).value)
  {
    assert !IsJsSpace(s[0]);
    assert TrimStart(s) == s;
  }

  /** Text with no digit after the optional white space and sign reads as NaN. */
  lemma ParseIntNoDigits()
    ensures ParseInt("") == None
    ensures ParseInt("abc") == None
  {
    assert TrimStart("abc") == "abc";
    assert DigitRun("abc", 10) == 0;
  }
}
