/**
 * The pieces of Python's `str` and `re` behaviour that the downloader relies on:
 * character classes, `lower()`, `strip()`, `split(...)[...]`, `in` on strings,
 * decimal formatting and parsing, and the leftmost search of a pattern of the
 * shape `<literal>(\d+)`.
 */
module Strings {
  import opened Options

  predicate IsDigit(c: char) { '0' <= c <= '9' }

  /** The class `[a-zA-Z0-9]` of a Python regular expression. */
  predicate IsAsciiAlnum(c: char) { 'a' <= c <= 'z' || 'A' <= c <= 'Z' || IsDigit(c) }

  predicate AllDigits(s: string) { forall i :: 0 <= i < |s| ==> IsDigit(s[i]) }

  /** Python's `str.isspace()`: the characters `str.strip()` removes when given no argument. */
  predicate IsPySpace(c: char) {
    || '\t' <= c <= '\r'
    || '\U{1C}' <= c <= ' '
    || c == '\U{85}' || c == '\U{A0}' || c == '\U{1680}'
    || '\U{2000}' <= c <= '\U{200A}'
    || c == '\U{2028}' || c == '\U{2029}' || c == '\U{202F}' || c == '\U{205F}' || c == '\U{3000}'
  }

  /**
   * Python's lower-casing of one character, exact for every character whose
   * lower case contains an ASCII letter: A-Z, KELVIN SIGN (to "k") and LATIN
   * CAPITAL LETTER I WITH DOT ABOVE (to "i" and a combining dot). Every other
   * character is kept as it is; its real lower case has no ASCII character
   * either, so containment of an ASCII needle is the same in both.
   */
  function LowerChar(c: char): (r: string)
    ensures |r| >= 1
  {
    if 'A' <= c <= 'Z' then [(c as int + 32) as char]
    else if c == '\U{212A}' then "k"
    else if c == '\U{0130}' then "i\U{0307}"
    else [c]
  }

  /** Python's `str.lower()`, in the sense of LowerChar. */
  function PyLower(s: string): string
  {
    if s == [] then [] else LowerChar(s[0]) + PyLower(s[1..])
  }

  lemma {:induction false} PyLowerConcat(a: string, b: string)
    ensures PyLower(a + b) == PyLower(a) + PyLower(b)
  {
    if a == [] {
      assert a + b == b;
    } else {
      assert (a + b)[0] == a[0];
      assert (a + b)[1..] == a[1..] + b;
      PyLowerConcat(a[1..], b);
    }
  }

  /** Lower-casing a string in three pieces. */
  lemma PyLower3(a: string, b: string, c: string)
    ensures PyLower(a + b + c) == PyLower(a) + PyLower(b) + PyLower(c)
  {
    PyLowerConcat(a + b, c);
    PyLowerConcat(a, b);
  }

  /** Lower-casing a lower-cased string changes nothing. */
  lemma {:induction false} PyLowerIdempotent(s: string)
    ensures PyLower(PyLower(s)) == PyLower(s)
  {
    if s != [] {
      var c := LowerChar(s[0]);
      PyLowerConcat(c, PyLower(s[1..]));
      PyLowerIdempotent(s[1..]);
      if |c| == 1 {
        assert PyLower(c) == LowerChar(c[0]) + PyLower([]);
      } else {
        assert c == "i\U{0307}";
        assert PyLower(c) == LowerChar('i') + PyLower("\U{0307}");
      }
    }
  }

  /** `needle` occurs in `s` starting at index `i`. */
  predicate OccursAt(s: string, needle: string, i: nat) {
    i + |needle| <= |s| && s[i..i + |needle|] == needle
  }

  /** Python's `needle in s` for strings. */
  predicate Contains(s: string, needle: string) {
    exists i: nat | i <= |s| :: OccursAt(s, needle, i)
  }

  /** A needle with a character that `s` lacks does not occur in `s`. */
  lemma MissingCharNotContained(s: string, needle: string, j: nat)
    requires j < |needle|
    requires forall i :: 0 <= i < |s| ==> s[i] != needle[j]
    ensures !Contains(s, needle)
  {
    forall i: nat | i <= |s|
      ensures !OccursAt(s, needle, i)
    {
      if i + |needle| <= |s| {
        assert s[i..i + |needle|][j] == s[i + j];
      }
    }
  }

  /** A string with no upper-case ASCII letter and neither special capital is its own lower case. */
  lemma {:induction false} PyLowerPlain(s: string)
    requires forall i :: 0 <= i < |s| ==> !('A' <= s[i] <= 'Z') && s[i] != '\U{212A}' && s[i] != '\U{0130}'
    ensures PyLower(s) == s
  {
    if s != [] {
      PyLowerPlain(s[1..]);
      assert s == [s[0]] + s[1..];
    }
  }

  lemma ContainsWithin(a: string, b: string, c: string, needle: string)
    requires Contains(b, needle)
    ensures Contains(a + b + c, needle)
  {
    var i: nat :| i <= |b| && OccursAt(b, needle, i);
    var s := a + b + c;
    assert i + |needle| <= |b|;
    assert forall k :: 0 <= k < |needle| ==> s[|a| + i + k] == b[i + k] == needle[k];
    assert s[|a| + i..|a| + i + |needle|] == needle;
    assert OccursAt(s, needle, |a| + i);
  }

  /** The index of the first character at or after `i` that is not white space, or `|s|`. */
  function SpaceEnd(s: string, i: nat): (j: nat)
    requires i <= |s|
    ensures i <= j <= |s|
    ensures forall k :: i <= k < j ==> IsPySpace(s[k])
    ensures j < |s| ==> !IsPySpace(s[j])
    decreases |s| - i
  {
    if i < |s| && IsPySpace(s[i]) then SpaceEnd(s, i + 1) else i
  }

  /** The index just after the last character before `j` that is not white space, but not below `i`. */
  function SpaceStart(s: string, i: nat, j: nat): (k: nat)
    requires i <= j <= |s|
    ensures i <= k <= j
    ensures forall m :: k <= m < j ==> IsPySpace(s[m])
    ensures k > i ==> !IsPySpace(s[k - 1])
    decreases j
  {
    if j > i && IsPySpace(s[j - 1]) then SpaceStart(s, i, j - 1) else j
  }

  /** `r` is the slice of `s` at `k`, and everything of `s` before and after it is white space. */
  predicate StrippedAt(s: string, r: string, k: nat) {
    k + |r| <= |s| && s[k..k + |r|] == r &&
    (forall m :: 0 <= m < k ==> IsPySpace(s[m])) &&
    (forall m :: k + |r| <= m < |s| ==> IsPySpace(s[m]))
  }

  /** `s.strip()`: the slice of `s` without white space at either end. */
  function Strip(s: string): (r: string)
    ensures r == [] || (!IsPySpace(r[0]) && !IsPySpace(r[|r| - 1]))
    ensures s == [] || (!IsPySpace(s[0]) && !IsPySpace(s[|s| - 1])) ==> r == s
  {
    var i := SpaceEnd(s, 0);
    s[i..SpaceStart(s, i, |s|)]
  }

  /** Stripping removes white space at the ends and nothing else. */
  lemma StripShape(s: string)
    ensures StrippedAt(s, Strip(s), SpaceEnd(s, 0))
  {
  }

  /** `s.find(c)`, with `|s|` standing for "not found". */
  function FirstIndexOf(s: string, c: char): (r: nat)
    ensures r <= |s|
    ensures r < |s| ==> s[r] == c
    ensures forall k :: 0 <= k < r ==> s[k] != c
  {
    if s == [] || s[0] == c then 0 else 1 + FirstIndexOf(s[1..], c)
  }

  /** `s.rfind(c)`: the index of the last `c`, or -1. */
  function LastIndex(s: string, c: char): (r: int)
    ensures -1 <= r < |s|
    ensures r >= 0 ==> s[r] == c
    ensures forall k :: r < k < |s| ==> s[k] != c
  {
    if s == [] then -1
    else if s[|s| - 1] == c then |s| - 1
    else LastIndex(s[..|s| - 1], c)
  }

  /** `s.split(c)[-1]`: what follows the last `c` (all of `s` when there is none). */
  function AfterLast(s: string, c: char): (r: string)
    ensures c !in r
  {
    s[LastIndex(s, c) + 1..]
  }

  /** `s.split(c)[0]`: what precedes the first `c` (all of `s` when there is none). */
  function BeforeFirst(s: string, c: char): (r: string)
    ensures c !in r
  {
    s[..FirstIndexOf(s, c)]
  }

  /** The end of the run of digits that starts at `i`. */
  function DigitRunEnd(s: string, i: nat): (e: nat)
    requires i <= |s|
    ensures i <= e <= |s|
    ensures forall k :: i <= k < e ==> IsDigit(s[k])
    ensures e == |s| || !IsDigit(s[e])
    decreases |s| - i
  {
    if i < |s| && IsDigit(s[i]) then DigitRunEnd(s, i + 1) else i
  }

  /** The end of the run of `[a-zA-Z0-9]` characters that starts at `i`. */
  function AlnumRunEnd(s: string, i: nat): (e: nat)
    requires i <= |s|
    ensures i <= e <= |s|
    ensures forall k :: i <= k < e ==> IsAsciiAlnum(s[k])
    ensures e == |s| || !IsAsciiAlnum(s[e])
    decreases |s| - i
  {
    if i < |s| && IsAsciiAlnum(s[i]) then AlnumRunEnd(s, i + 1) else i
  }

  function DigitValue(c: char): nat
    requires IsDigit(c)
  {
    c as int - '0' as int
  }

  function DigitChar(d: nat): (c: char)
    requires d < 10
    ensures IsDigit(c) && DigitValue(c) == d
  {
    ('0' as int + d) as char
  }

  /** Python's `int(ds)` on a string of ASCII digits. */
  function DecimalValue(ds: string): nat
    requires AllDigits(ds)
  {
    if ds == [] then 0 else DecimalValue(ds[..|ds| - 1]) * 10 + DigitValue(ds[|ds| - 1])
  }

  /** Python's `str(n)` for a natural number. */
  function NatToDecimal(n: nat): (r: string)
    ensures |r| >= 1 && AllDigits(r)
    ensures |r| > 1 ==> r[0] != '0'
  {
    if n < 10 then [DigitChar(n)] else NatToDecimal(n / 10) + [DigitChar(n % 10)]
  }

  lemma {:induction false} DecimalRoundTrip(n: nat)
    ensures DecimalValue(NatToDecimal(n)) == n
  {
    var r := NatToDecimal(n);
    if n >= 10 {
      assert r[..|r| - 1] == NatToDecimal(n / 10);
      DecimalRoundTrip(n / 10);
    }
  }

  function Zeros(k: nat): (r: string)
    ensures |r| == k && AllDigits(r)
    ensures forall i :: 0 <= i < k ==> r[i] == '0'
  {
    if k == 0 then [] else Zeros(k - 1) + "0"
  }

  /** Leading zeros do not change the value of a decimal numeral. */
  lemma {:induction false} LeadingZeros(k: nat, ds: string)
    requires AllDigits(ds)
    ensures AllDigits(Zeros(k) + ds) && DecimalValue(Zeros(k) + ds) == DecimalValue(ds)
    decreases |ds|
  {
    var s := Zeros(k) + ds;
    assert AllDigits(s) by {
      forall i | 0 <= i < |s| ensures IsDigit(s[i]) {
        if i < k { assert s[i] == Zeros(k)[i]; } else { assert s[i] == ds[i - k]; }
      }
    }
    if ds == [] {
      assert s == Zeros(k);
      ZerosValue(k);
    } else {
      assert s[..|s| - 1] == Zeros(k) + ds[..|ds| - 1];
      LeadingZeros(k, ds[..|ds| - 1]);
    }
  }

  lemma {:induction false} ZerosValue(k: nat)
    ensures DecimalValue(Zeros(k)) == 0
  {
    if k > 0 {
      assert Zeros(k)[..k - 1] == Zeros(k - 1);
      ZerosValue(k - 1);
    }
  }

  /** The run of digits that starts after `prefix` is exactly `ds` when what follows `ds` is not a digit. */
  lemma DigitRunOf(prefix: string, ds: string, rest: string)
    requires AllDigits(ds)
    requires rest == [] || !IsDigit(rest[0])
    ensures DigitRunEnd(prefix + ds + rest, |prefix|) == |prefix| + |ds|
  {
    var s := prefix + ds + rest;
    assert forall k :: |prefix| <= k < |prefix| + |ds| ==> s[k] == ds[k - |prefix|];
    assert |rest| > 0 ==> s[|prefix| + |ds|] == rest[0];
  }

  /** `needle` occurs at `p` and a digit follows it: a match of `needle(\d+)` starts at `p`. */
  predicate DigitsAt(s: string, needle: string, p: nat) {
    p + |needle| < |s| && s[p..p + |needle|] == needle && IsDigit(s[p + |needle|])
  }

  /** The leftmost position at or after `from` where `needle(\d+)` matches, as `re.search` finds it. */
  function FindDigits(s: string, needle: string, from: nat): (r: Option<nat>)
    ensures r.Some? ==> from <= r.value && DigitsAt(s, needle, r.value)
    ensures r.Some? ==> forall q :: from <= q < r.value ==> !DigitsAt(s, needle, q)
    ensures r.None? ==> forall q :: from <= q ==> !DigitsAt(s, needle, q)
    decreases |s| - from
  {
    if from + |needle| >= |s| then None
    else if DigitsAt(s, needle, from) then Some(from)
    else FindDigits(s, needle, from + 1)
  }

  /** Some match of `needle(\d+)` starts at or after `from`: `re.search` succeeds. */
  predicate MatchesFrom(s: string, needle: string, from: nat)
    decreases |s| - from
  {
    from + |needle| < |s| && (DigitsAt(s, needle, from) || MatchesFrom(s, needle, from + 1))
  }

  lemma {:induction false} MatchesFromFind(s: string, needle: string, from: nat)
    ensures MatchesFrom(s, needle, from) <==> FindDigits(s, needle, from).Some?
    decreases |s| - from
  {
    if from + |needle| < |s| {
      MatchesFromFind(s, needle, from + 1);
    }
  }

  /** `re.search(needle + r'(\d+)', s).group(1)`, or None when there is no match. */
  function DigitsAfter(s: string, needle: string): (r: Option<string>)
    ensures r.Some? ==> |r.value| > 0 && AllDigits(r.value)
    ensures r.Some? ==> Contains(s, needle + r.value)
    ensures r.None? <==> forall q: nat :: !DigitsAt(s, needle, q)
  {
    match FindDigits(s, needle, 0)
    case None => None
    case Some(p) =>
      var e := DigitRunEnd(s, p + |needle|);
      var v := s[p + |needle|..e];
      assert s[p..e] == s[p..p + |needle|] + v;
      assert OccursAt(s, needle + v, p);
      Some(v)
  }

  /** The decimal digits of `n` after `needle` are found again by the search. */
  lemma DigitsAfterDecimal(needle: string, n: nat)
    ensures DigitsAfter(needle + NatToDecimal(n), needle) == Some(NatToDecimal(n))
  {
    var d := NatToDecimal(n);
    var s := needle + d;
    assert DigitsAt(s, needle, 0) by {
      assert s[..|needle|] == needle;
      assert s[|needle|] == d[0];
    }
    assert FindDigits(s, needle, 0) == Some(0);
    assert forall k :: |needle| <= k < |s| ==> s[k] == d[k - |needle|];
    var e := DigitRunEnd(s, |needle|);
    assert e == |s|;
    assert s[|needle|..e] == d;
  }

  /**
   * A match of `needle(\d+)` cannot start inside a `prefix` that lacks the
   * digit-free `needle`: it would have to end inside `prefix`, or have its
   * first digit fall in the `needle` that follows.
   */
  lemma NoMatchInPrefix(prefix: string, needle: string, tail: string)
    requires forall k :: 0 <= k < |needle| ==> !IsDigit(needle[k])
    requires !Contains(prefix, needle)
    ensures forall q: nat :: q < |prefix| ==> !DigitsAt(prefix + needle + tail, needle, q)
  {
    var s := prefix + needle + tail;
    var p := |prefix|;
    forall q: nat | q < p ensures !DigitsAt(s, needle, q) {
      if DigitsAt(s, needle, q) {
        if q + |needle| <= p {
          assert s[q..q + |needle|] == prefix[q..q + |needle|];
          assert OccursAt(prefix, needle, q);
          assert false;
        } else {
          assert false;
        }
      }
    }
  }

  /**
   * A run of digits right after the first occurrence of a digit-free
   * `needle` is what `re.search(needle + r'(\d+)', s).group(1)` returns.
   */
  lemma DigitsAfterAt(prefix: string, needle: string, ds: string, rest: string)
    requires forall k :: 0 <= k < |needle| ==> !IsDigit(needle[k])
    requires !Contains(prefix, needle)
    requires |ds| > 0 && AllDigits(ds)
    requires rest == [] || !IsDigit(rest[0])
    ensures DigitsAfter(prefix + needle + ds + rest, needle) == Some(ds)
  {
    var s := prefix + needle + ds + rest;
    var p := |prefix|;
    assert s == prefix + needle + (ds + rest);
    NoMatchInPrefix(prefix, needle, ds + rest);
    assert s[p..p + |needle|] == needle;
    assert s[p + |needle|] == ds[0];
    assert DigitsAt(s, needle, p);
    assert FindDigits(s, needle, 0) == Some(p);
    assert s == (prefix + needle) + ds + rest;
    DigitRunOf(prefix + needle, ds, rest);
    assert s[p + |needle|..p + |needle| + |ds|] == ds;
  }
}
