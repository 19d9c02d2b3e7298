/** The handful of Python string operations the scraper applies to cell and
    anchor text: `str.strip()`, `str.replace(",", "")`, `in`, `startswith`
    and `int()` on decimal text. */
module PyStr {
  import opened Wrappers

  /** The characters for which Python's `str.isspace()` holds; `strip()`
      with no argument removes exactly these from both ends. */
  predicate IsSpace(c: char) {
    || c == ' '
    || ('\t' <= c <= '\r')
    || ('\U{1C}' <= c <= '\U{1F}')
    || c == '\U{85}' || c == '\U{A0}' || c == '\U{1680}'
    || ('\U{2000}' <= c <= '\U{200A}')
    || c == '\U{2028}' || c == '\U{2029}' || c == '\U{202F}'
    || c == '\U{205F}' || c == '\U{3000}'
  }

  predicate IsDigit(c: char) {
    '0' <= c <= '9'
  }

  predicate AllDigits(s: string) {
    forall i :: 0 <= i < |s| ==> IsDigit(s[i])
  }

  ghost predicate AllSpace(s: string) {
    forall i :: 0 <= i < |s| ==> IsSpace(s[i])
  }

  function DigitValue(c: char): (v: int)
    requires IsDigit(c)
    ensures 0 <= v < 10
  {
    c as int - '0' as int
  }

  function DigitChar(v: int): (c: char)
    requires 0 <= v < 10
    ensures IsDigit(c) && DigitValue(c) == v
  {
    ('0' as int + v) as char
  }

  /** The value of a string of decimal digits, most significant first. */
  function DecimalValue(s: string): (v: nat)
    requires AllDigits(s)
  {
    if s == [] then 0 else 10 * DecimalValue(s[..|s| - 1]) + DigitValue(s[|s| - 1])
  }

  function Pow10(k: nat): (p: nat)
    ensures p >= 1
  {
    if k == 0 then 1 else 10 * Pow10(k - 1)
  }

  /** Reading two digit strings one after the other. */
  lemma {:induction false} DecimalValueAppend(a: string, b: string)
    requires AllDigits(a) && AllDigits(b)
    ensures AllDigits(a + b)
    ensures DecimalValue(a + b) == DecimalValue(a) * Pow10(|b|) + DecimalValue(b)
    decreases |b|
  {
    assert AllDigits(a + b);
    if b == [] {
      assert a + b == a;
    } else {
      var b' := b[..|b| - 1];
      var c := b[|b| - 1];
      assert (a + b)[..|a + b| - 1] == a + b';
      assert AllDigits(b');
      DecimalValueAppend(a, b');
      var x, p, y := DecimalValue(a), Pow10(|b'|), DecimalValue(b');
      assert DecimalValue(a + b) == 10 * (x * p + y) + DigitValue(c);
      assert DecimalValue(b) == 10 * y + DigitValue(c);
      assert Pow10(|b|) == 10 * p;
      MulAssoc(x, p);
      assert DecimalValue(a) * Pow10(|b|) == x * (10 * p);
    }
  }

  lemma MulAssoc(x: int, p: int)
    ensures 10 * (x * p) == x * (10 * p)
  {
  }

  /** The canonical decimal spelling of a natural number (Python's `str(n)`). */
  function DecimalString(n: nat): (s: string)
    ensures |s| >= 1 && AllDigits(s)
    ensures DecimalValue(s) == n
    ensures s[0] == '0' ==> n == 0
  {
    if n < 10 then [DigitChar(n)]
    else
      var prefix := DecimalString(n / 10);
      assert (prefix + [DigitChar(n % 10)])[..|prefix|] == prefix;
      prefix + [DigitChar(n % 10)]
  }

  // ---------------------------------------------------------------------
  // str.strip()

  lemma AllSpaceCons(c: char, t: string)
    requires IsSpace(c) && AllSpace(t)
    ensures AllSpace([c] + t)
  {
    assert forall i :: 0 < i < |t| + 1 ==> ([c] + t)[i] == t[i - 1];
  }

  lemma AllSpaceSnoc(t: string, c: char)
    requires AllSpace(t) && IsSpace(c)
    ensures AllSpace(t + [c])
  {
    assert forall i :: 0 <= i < |t| ==> (t + [c])[i] == t[i];
  }

  /** `r` is what is left of `s` between a whitespace prefix of length `lo`
      and a whitespace suffix. */
  ghost predicate StrippedAt(s: string, r: string, lo: int) {
    && 0 <= lo <= |s| - |r|
    && r == s[lo..lo + |r|]
    && AllSpace(s[..lo])
    && AllSpace(s[lo + |r|..])
  }

  /** How many characters `Strip` takes off the front of `s`. */
  ghost function Lead(s: string): nat {
    if s != [] && IsSpace(s[0]) then Lead(s[1..]) + 1
    else if s != [] && IsSpace(s[|s| - 1]) then Lead(s[..|s| - 1])
    else 0
  }

  /** `s.strip()`: whitespace goes from both ends, one character at a time. */
  function Strip(s: string): (r: string)
    ensures StrippedAt(s, r, Lead(s))
    ensures r == [] || (!IsSpace(r[0]) && !IsSpace(r[|r| - 1]))
  {
    if s != [] && IsSpace(s[0]) then
      var r := Strip(s[1..]);
      StrippedCons(s, r, Lead(s[1..]));
      r
    else if s != [] && IsSpace(s[|s| - 1]) then
      var r := Strip(s[..|s| - 1]);
      StrippedSnoc(s, r, Lead(s[..|s| - 1]));
      r
    else
      StrippedWhole(s);
      s
  }

  lemma StrippedWhole(s: string)
    ensures StrippedAt(s, s, 0)
  {
    assert s[..0] == [] && s[|s|..] == [] && s[0..|s|] == s;
  }

  lemma StrippedCons(s: string, r: string, lo: int)
    requires s != [] && IsSpace(s[0]) && StrippedAt(s[1..], r, lo)
    ensures StrippedAt(s, r, lo + 1)
  {
    var t := s[1..];
    assert s[lo + 1..lo + 1 + |r|] == t[lo..lo + |r|];
    assert s[..lo + 1] == [s[0]] + t[..lo];
    AllSpaceCons(s[0], t[..lo]);
    assert s[lo + 1 + |r|..] == t[lo + |r|..];
  }

  lemma StrippedSnoc(s: string, r: string, lo: int)
    requires s != [] && IsSpace(s[|s| - 1]) && StrippedAt(s[..|s| - 1], r, lo)
    ensures StrippedAt(s, r, lo)
  {
    var t := s[..|s| - 1];
    assert s[lo..lo + |r|] == t[lo..lo + |r|];
    assert s[..lo] == t[..lo];
    assert s[lo + |r|..] == t[lo + |r|..] + [s[|s| - 1]];
    AllSpaceSnoc(t[lo + |r|..], s[|s| - 1]);
  }

  /** Text that neither starts nor ends with whitespace is left alone. */
  lemma StripUntouched(s: string)
    requires s == [] || (!IsSpace(s[0]) && !IsSpace(s[|s| - 1]))
    ensures Strip(s) == s
  {
  }

  // ---------------------------------------------------------------------
  // `w in s` and `s.startswith(p)`

  ghost predicate OccursAt(s: string, w: string, i: int) {
    0 <= i && i + |w| <= |s| && s[i..i + |w|] == w
  }

  /** Python's substring test `w in s`. */
  function Contains(s: string, w: string): (r: bool)
    ensures r <==> exists i :: OccursAt(s, w, i)
  {
    if |w| > |s| then
      assert forall i :: !OccursAt(s, w, i);
      false
    else if s[..|w|] == w then
      assert OccursAt(s, w, 0);
      true
    else
      var rest := Contains(s[1..], w);
      assert forall i :: OccursAt(s[1..], w, i) <==> OccursAt(s, w, i + 1) by {
        forall i ensures OccursAt(s[1..], w, i) <==> OccursAt(s, w, i + 1) {
          if 0 <= i && i + |w| <= |s| - 1 {
            assert s[1..][i..i + |w|] == s[i + 1..i + 1 + |w|];
          }
        }
      }
      assert rest ==> exists i :: OccursAt(s, w, i) by {
        if rest {
          var i :| OccursAt(s[1..], w, i);
          assert OccursAt(s, w, i + 1);
        }
      }
      assert (exists i :: OccursAt(s, w, i)) ==> rest by {
        if exists i :: OccursAt(s, w, i) {
          var i :| OccursAt(s, w, i);
          assert i != 0;
          assert OccursAt(s[1..], w, i - 1);
        }
      }
      rest
  }

  /** An occurrence inside the kept middle part is an occurrence in the whole. */
  lemma OccursOutward(s: string, r: string, lo: int, w: string, i: int)
    requires StrippedAt(s, r, lo) && OccursAt(r, w, i)
    ensures OccursAt(s, w, lo + i)
  {
    assert forall k :: 0 <= k < |w| ==> s[lo + i + k] == w[k];
    assert s[lo + i..lo + i + |w|] == w;
  }

  /** An occurrence of a word without whitespace cannot touch the stripped
      ends, so it lies inside the kept middle part. */
  lemma OccursInward(s: string, r: string, lo: int, w: string, i: int)
    requires |w| > 0 && forall k :: 0 <= k < |w| ==> !IsSpace(w[k])
    requires StrippedAt(s, r, lo) && OccursAt(s, w, i)
    ensures OccursAt(r, w, i - lo)
  {
    assert s[i] == s[i..i + |w|][0] == w[0];
    var last := i + |w| - 1;
    assert s[last] == s[i..i + |w|][|w| - 1] == w[|w| - 1];
    assert forall k :: 0 <= k < |w| ==> r[i - lo + k] == w[k];
    assert r[i - lo..i - lo + |w|] == w;
  }

  /** A word without whitespace occurs in the stripped text exactly when it
      occurs in the raw text, so testing either gives the same answer. */
  lemma StripKeepsWord(s: string, w: string)
    requires |w| > 0 && forall k :: 0 <= k < |w| ==> !IsSpace(w[k])
    ensures Contains(Strip(s), w) <==> Contains(s, w)
  {
    var r := Strip(s);
    var lo := Lead(s);
    if Contains(r, w) {
      var i :| OccursAt(r, w, i);
      OccursOutward(s, r, lo, w, i);
    }
    if Contains(s, w) {
      var i :| OccursAt(s, w, i);
      OccursInward(s, r, lo, w, i);
    }
  }

  /** Python's `s.startswith(p)`: `p` occurs at the very start of `s`. */
  predicate StartsWith(s: string, p: string): (r: bool)
    ensures r <==> OccursAt(s, p, 0)
    ensures r ==> Contains(s, p)
  {
    |p| <= |s| && s[..|p|] == p
  }

  // ---------------------------------------------------------------------
  // s.replace(",", "")

  /** `s.replace(",", "")`: every comma removed, everything else kept in order. */
  function RemoveCommas(s: string): (r: string)
    ensures ',' !in r
    ensures |r| <= |s|
    ensures forall i :: 0 <= i < |r| ==> r[i] in s
  {
    if s == [] then []
    else
      RemoveCommas(s[..|s| - 1]) + (if s[|s| - 1] == ',' then [] else [s[|s| - 1]])
  }

  lemma {:induction false} RemoveCommasAppend(a: string, b: string)
    ensures RemoveCommas(a + b) == RemoveCommas(a) + RemoveCommas(b)
    decreases |b|
  {
    if b == [] {
      assert a + b == a;
    } else {
      var b' := b[..|b| - 1];
      assert (a + b)[..|a + b| - 1] == a + b';
      RemoveCommasAppend(a, b');
    }
  }

  lemma {:induction false} RemoveCommasNoComma(s: string)
    requires ',' !in s
    ensures RemoveCommas(s) == s
    decreases |s|
  {
    if s != [] {
      assert ',' !in s[..|s| - 1];
      RemoveCommasNoComma(s[..|s| - 1]);
    }
  }

  // ---------------------------------------------------------------------
  // int(s)

  /** U+001C to U+001F, the information separators. `str.isspace()` and
      `strip()` treat them as whitespace, but `int()` does not: it skips
      only the other whitespace characters around the number. */
  predicate IsInfoSeparator(c: char) {
    '\U{1C}' <= c <= '\U{1F}'
  }

  predicate NoInfoSeparator(s: string) {
    forall i :: 0 <= i < |s| ==> !IsInfoSeparator(s[i])
  }

  /** `sys.int_info.default_max_str_digits`: since Python 3.11, `int()`
      refuses decimal text of more digits than this. The sign does not
      count; leading zeros do. */
  const MaxStrDigits: nat := 4300

  /** Python's `int(s)` on decimal text: whitespace other than the
      information separators around an optional sign and one to
      `MaxStrDigits` ASCII digits; anything else raises, which is `None`
      here. An information separator is neither skipped nor part of a
      number, so wherever it stands `int()` raises; on text without one,
      the whitespace `int()` skips is exactly what `strip()` removes. */
  function ParseInt(s: string): (r: Option<int>)
    ensures r.Some? ==> NoInfoSeparator(s) && |Strip(s)| >= 1 && IsDigit(Strip(s)[|Strip(s)| - 1])
    ensures r.Some? ==> |Strip(s)| <= MaxStrDigits + 1
    ensures r.Some? && r.value < 0 ==> Strip(s)[0] == '-'
  {
    if NoInfoSeparator(s) then ParseSigned(Strip(s)) else None
  }

  /** `d` is one to `MaxStrDigits` ASCII digits spelling `v`. */
  ghost predicate SpellsUnsigned(d: string, v: int) {
    1 <= |d| <= MaxStrDigits && AllDigits(d) && v == DecimalValue(d)
  }

  /** `t` is the text of the integer `v` as `int()` accepts it once the
      surrounding whitespace is gone: digits, `+` and digits, or `-` and
      the digits of `-v`. */
  ghost predicate Spells(t: string, v: int) {
    SpellsUnsigned(t, v)
    || (|t| >= 1 && t[0] == '+' && SpellsUnsigned(t[1..], v))
    || (|t| >= 1 && t[0] == '-' && SpellsUnsigned(t[1..], -v))
  }

  /** What `int()` accepts and what it reads: exactly the text without an
      information separator whose stripped form spells the value. */
  lemma ParseIntIff(s: string, v: int)
    ensures ParseInt(s) == Some(v) <==> NoInfoSeparator(s) && Spells(Strip(s), v)
  {
    if NoInfoSeparator(s) {
      ParseSignedIff(Strip(s), v);
    }
  }

  lemma ParseSignedIff(t: string, v: int)
    ensures ParseSigned(t) == Some(v) <==> Spells(t, v)
  {
    if |t| >= 1 && (t[0] == '+' || t[0] == '-') {
      assert !IsDigit(t[0]);
      assert !SpellsUnsigned(t, v);
    }
  }

  /** An information separator anywhere makes `int()` raise. */
  lemma ParseIntInfoSeparator(s: string, i: int)
    requires 0 <= i < |s| && IsInfoSeparator(s[i])
    ensures ParseInt(s) == None
  {
  }

  /** `int` on text already stripped of whitespace. */
  function ParseSigned(t: string): (r: Option<int>)
    ensures r.Some? ==> |t| >= 1 && IsDigit(t[|t| - 1])
    ensures r.Some? ==> |t| <= MaxStrDigits + 1
    ensures r.Some? && r.value < 0 ==> t[0] == '-'
  {
    if |t| > 0 && (t[0] == '+' || t[0] == '-') then
      var digits := t[1..];
      if |digits| > 0 && AllDigits(digits) && |digits| <= MaxStrDigits then
        Some(if t[0] == '-' then -(DecimalValue(digits) as int) else DecimalValue(digits))
      else None
    else if |t| > 0 && AllDigits(t) && |t| <= MaxStrDigits then Some(DecimalValue(t))
    else None
  }

  /** Digit text contains no whitespace and no information separator, so
      `strip()` and the separator test leave it alone. */
  lemma DigitsUntouched(t: string)
    requires |t| >= 1 && AllDigits(t)
    ensures NoInfoSeparator(t) && Strip(t) == t
  {
    DigitNotSpace(t[0]);
    DigitNotSpace(t[|t| - 1]);
    assert NoInfoSeparator(t) by {
      forall i | 0 <= i < |t| ensures !IsInfoSeparator(t[i]) {
        assert IsDigit(t[i]);
      }
    }
    StripUntouched(t);
  }

  /** A run of one to `MaxStrDigits` digits is read as its decimal value. */
  lemma ParseIntDigits(t: string)
    requires 1 <= |t| <= MaxStrDigits && AllDigits(t)
    ensures ParseInt(t) == Some(DecimalValue(t) as int)
  {
    DigitsUntouched(t);
    ParseSignedDigits(t);
  }

  lemma ParseSignedDigits(t: string)
    requires 1 <= |t| <= MaxStrDigits && AllDigits(t)
    ensures ParseSigned(t) == Some(DecimalValue(t) as int)
  {
    assert IsDigit(t[0]);
  }

  /** A run of more than `MaxStrDigits` digits makes `int()` raise. */
  lemma ParseIntTooLong(t: string)
    requires |t| > MaxStrDigits && AllDigits(t)
    ensures ParseInt(t) == None
  {
    DigitsUntouched(t);
    assert IsDigit(t[0]);
  }

  /** `int` reads back what `str` writes, within the digit limit. */
  lemma ParseIntDecimalString(n: nat)
    requires |DecimalString(n)| <= MaxStrDigits
    ensures ParseInt(DecimalString(n)) == Some(n)
  {
    ParseIntDigits(DecimalString(n));
  }

  /** ... and with a minus sign in front, the negated value. */
  lemma ParseIntNegative(n: nat)
    requires |DecimalString(n)| <= MaxStrDigits
    ensures ParseInt("-" + DecimalString(n)) == Some(-(n as int))
  {
    ParseIntMinusDigits(DecimalString(n));
  }

  lemma ParseIntMinusDigits(s: string)
    requires 1 <= |s| <= MaxStrDigits && AllDigits(s)
    ensures ParseInt("-" + s) == Some(-(DecimalValue(s) as int))
  {
    var m := "-" + s;
    DigitNotSpace(s[|s| - 1]);
    assert NoInfoSeparator(m) by {
      forall i | 0 <= i < |m| ensures !IsInfoSeparator(m[i]) {
        if i > 0 {
          assert m[i] == s[i - 1] && IsDigit(s[i - 1]);
        }
      }
    }
    assert m[|m| - 1] == s[|s| - 1];
    StripUntouched(m);
    ParseSignedNegative(s);
  }

  lemma ParseSignedNegative(s: string)
    requires 1 <= |s| <= MaxStrDigits && AllDigits(s)
    ensures ParseSigned("-" + s) == Some(-(DecimalValue(s) as int))
  {
    assert ("-" + s)[1..] == s;
  }

  lemma DigitNotSpace(c: char)
    requires IsDigit(c)
    ensures !IsSpace(c)
  {
  }

  /** Text without a single digit never parses. */
  lemma ParseIntNeedsDigit(s: string)
    requires forall i :: 0 <= i < |s| ==> !IsDigit(s[i])
    ensures ParseInt(s) == None
  {
    if NoInfoSeparator(s) {
      var t := Strip(s);
      var lo := Lead(s);
      assert forall i :: 0 <= i < |t| ==> t[i] == s[lo + i];
      ParseSignedNeedsDigit(t);
    }
  }

  lemma ParseSignedNeedsDigit(t: string)
    requires forall i :: 0 <= i < |t| ==> !IsDigit(t[i])
    ensures ParseSigned(t) == None
  {
    if |t| > 1 {
      assert !IsDigit(t[1..][0]);
    }
  }
}
