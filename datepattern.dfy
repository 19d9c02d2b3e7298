/** The search for `(\d{1,2})月(\d{1,2})日` in a date cell (Python's
    `re.search`): the leftmost position where one or two digits, `月`, one or
    two digits and `日` follow each other, with the two numbers as groups. */
module DatePattern {
  import opened Wrappers
  import opened PyStr

  const MonthMark: char := '月'
  const DayMark: char := '日'

  /** `(\d{1,2})` followed by `unit`, tried at `i`: the group's value and the
      index just after `unit`. Two digits are tried first (the quantifier is
      greedy); because `unit` is not a digit, at most one of the two
      alternatives can succeed, so backtracking never finds another. */
  function Field(s: string, i: nat, unit: char): (r: Option<(nat, nat)>)
    requires !IsDigit(unit)
    ensures r.Some? ==> r.value.0 < 100 && i + 2 <= r.value.1 <= i + 3 <= |s| + 1
    ensures r.Some? ==> r.value.1 <= |s|
  {
    if i < |s| && IsDigit(s[i]) then
      if i + 2 < |s| && IsDigit(s[i + 1]) && s[i + 2] == unit then
        Some((10 * DigitValue(s[i]) + DigitValue(s[i + 1]), i + 3))
      else if i + 1 < |s| && s[i + 1] == unit then
        Some((DigitValue(s[i]), i + 2))
      else None
    else None
  }

  /** The whole pattern tried at position `i`: the month and day groups. */
  function MatchAt(s: string, i: nat): (r: Option<(nat, nat)>)
    ensures r.Some? ==> r.value.0 < 100 && r.value.1 < 100
  {
    match Field(s, i, MonthMark)
    case None => None
    case Some((m, j)) =>
      match Field(s, j, DayMark)
      case None => None
      case Some((d, _)) => Some((m, d))
  }

  /** The pattern read off literally: a month group of `k1` digits and a day
      group of `k2` digits at position `i`, with values `m` and `d`. */
  ghost predicate Shape(s: string, i: int, k1: int, k2: int, m: int, d: int) {
    && 0 <= i && 1 <= k1 && 1 <= k2 && i + k1 + k2 + 2 <= |s|
    && AllDigits(s[i..i + k1]) && DecimalValue(s[i..i + k1]) == m
    && s[i + k1] == MonthMark
    && AllDigits(s[i + k1 + 1..i + k1 + 1 + k2]) && DecimalValue(s[i + k1 + 1..i + k1 + 1 + k2]) == d
    && s[i + k1 + 1 + k2] == DayMark
  }

  /** The regular expression matches at `i` with groups `m` and `d`. */
  ghost predicate MatchesAt(s: string, i: int, m: int, d: int) {
    || Shape(s, i, 1, 1, m, d) || Shape(s, i, 1, 2, m, d)
    || Shape(s, i, 2, 1, m, d) || Shape(s, i, 2, 2, m, d)
  }

  /** No match starts anywhere in `lo..hi`. */
  ghost predicate NoMatchIn(s: string, lo: int, hi: int) {
    forall j, m, d :: lo <= j < hi ==> !MatchesAt(s, j, m, d)
  }

  lemma OneDigit(s: string, i: int)
    requires 0 <= i < |s| && IsDigit(s[i])
    ensures AllDigits(s[i..i + 1]) && DecimalValue(s[i..i + 1]) == DigitValue(s[i])
  {
    assert s[i..i + 1][..0] == [];
  }

  lemma TwoDigits(s: string, i: int)
    requires 0 <= i && i + 1 < |s| && IsDigit(s[i]) && IsDigit(s[i + 1])
    ensures AllDigits(s[i..i + 2])
    ensures DecimalValue(s[i..i + 2]) == 10 * DigitValue(s[i]) + DigitValue(s[i + 1])
  {
    assert s[i..i + 2][..1] == s[i..i + 1];
    OneDigit(s, i);
  }

  /** The computed field agrees with the literal reading of `(\d{1,2})unit`. */
  lemma FieldIff(s: string, i: nat, unit: char, v: int, k: int)
    requires !IsDigit(unit)
    ensures Field(s, i, unit) == Some((v, i + k + 1)) && v >= 0 <==>
      (&& (k == 1 || k == 2) && i + k < |s| && AllDigits(s[i..i + k])
       && DecimalValue(s[i..i + k]) == v && s[i + k] == unit)
  {
    if i < |s| && IsDigit(s[i]) {
      OneDigit(s, i);
      if i + 1 < |s| && IsDigit(s[i + 1]) {
        TwoDigits(s, i);
      }
    }
    if k == 2 && i + k < |s| && AllDigits(s[i..i + k]) {
      assert IsDigit(s[i..i + k][0]) && IsDigit(s[i..i + k][1]);
    }
    if k == 1 && i + k < |s| && AllDigits(s[i..i + k]) {
      assert IsDigit(s[i..i + k][0]);
    }
  }

  /** The computed match at `i` is exactly the literal reading of the pattern. */
  lemma MatchAtIff(s: string, i: nat, m: int, d: int)
    ensures MatchAt(s, i) == Some((m, d)) <==> MatchesAt(s, i, m, d)
  {
    if MatchAt(s, i) == Some((m, d)) {
      var (m', j) := Field(s, i, MonthMark).value;
      var (d', e) := Field(s, j, DayMark).value;
      var k1, k2 := j - i - 1, e - j - 1;
      FieldIff(s, i, MonthMark, m, k1);
      FieldIff(s, j, DayMark, d, k2);
      assert Shape(s, i, k1, k2, m, d);
    }
    if Shape(s, i, 1, 1, m, d) { ShapeMatches(s, i, 1, 1, m, d); }
    if Shape(s, i, 1, 2, m, d) { ShapeMatches(s, i, 1, 2, m, d); }
    if Shape(s, i, 2, 1, m, d) { ShapeMatches(s, i, 2, 1, m, d); }
    if Shape(s, i, 2, 2, m, d) { ShapeMatches(s, i, 2, 2, m, d); }
  }

  lemma ShapeMatches(s: string, i: nat, k1: int, k2: int, m: int, d: int)
    requires 1 <= k1 <= 2 && 1 <= k2 <= 2 && Shape(s, i, k1, k2, m, d)
    ensures MatchAt(s, i) == Some((m, d))
  {
    FieldIff(s, i, MonthMark, m, k1);
    FieldIff(s, i + k1 + 1, DayMark, d, k2);
  }

  /** Scanning from `i`, the first position where the pattern matches. */
  function SearchFrom(s: string, i: nat): (r: Option<(nat, nat)>)
    requires i <= |s|
    ensures r.Some? ==> r.value.0 < 100 && r.value.1 < 100
    ensures r.Some? ==> exists k :: i <= k < |s| && MatchesAt(s, k, r.value.0, r.value.1) && NoMatchIn(s, i, k)
    ensures r.None? ==> NoMatchIn(s, i, |s|)
    decreases |s| - i
  {
    if i == |s| then None
    else
      var here := MatchAt(s, i);
      forall m, d ensures here == Some((m, d)) <==> MatchesAt(s, i, m, d) {
        MatchAtIff(s, i, m, d);
      }
      if here.Some? then
        assert MatchesAt(s, i, here.value.0, here.value.1);
        here
      else
        SearchFrom(s, i + 1)
  }

  /** `re.search(r"(\d{1,2})月(\d{1,2})日", s)`: the groups of the leftmost match. */
  function Search(s: string): (r: Option<(nat, nat)>)
    ensures r.Some? ==> r.value.0 < 100 && r.value.1 < 100
    ensures r.Some? ==> exists k :: 0 <= k < |s| && MatchesAt(s, k, r.value.0, r.value.1) && NoMatchIn(s, 0, k)
    ensures r.None? <==> NoMatchIn(s, 0, |s|)
  {
    var r := SearchFrom(s, 0);
    if r.Some? then
      assert !NoMatchIn(s, 0, |s|) by {
        var k :| 0 <= k < |s| && MatchesAt(s, k, r.value.0, r.value.1) && NoMatchIn(s, 0, k);
      }
      r
    else r
  }
}
