/**
  The string operations the converter applies to book names and to chapter and
  verse keys: Python's `str.strip()`, `str.lower()` and `int()` on a key,
  restricted to ASCII.
 */
module Text {

  /** Python's `str.isspace()` on the ASCII range: tab, line feed, vertical tab,
      form feed, carriage return, the four separators 0x1C-0x1F, and space. */
  predicate IsSpace(c: char) {
    c == ' ' || '\t' <= c <= '\r' || '\U{1C}' <= c <= '\U{1F}'
  }

  /** The number of whitespace characters `s` starts with. */
  function LeadingSpaces(s: string): (n: nat)
    ensures n <= |s|
  {
    if s != [] && IsSpace(s[0]) then 1 + LeadingSpaces(s[1..]) else 0
  }

  /** The number of whitespace characters `s` ends with. */
  function TrailingSpaces(s: string): (n: nat)
    ensures n <= |s|
  {
    if s != [] && IsSpace(s[|s| - 1]) then 1 + TrailingSpaces(s[..|s| - 1]) else 0
  }

  /** The counted prefix is the longest whitespace prefix. */
  lemma {:induction false} LeadingSpacesSpec(s: string)
    ensures forall k :: 0 <= k < LeadingSpaces(s) ==> IsSpace(s[k])
    ensures LeadingSpaces(s) < |s| ==> !IsSpace(s[LeadingSpaces(s)])
  {
    if s != [] && IsSpace(s[0]) {
      LeadingSpacesSpec(s[1..]);
      forall k | 0 < k < LeadingSpaces(s) ensures IsSpace(s[k]) {
        assert s[k] == s[1..][k - 1];
      }
      if LeadingSpaces(s) < |s| {
        assert s[LeadingSpaces(s)] == s[1..][LeadingSpaces(s[1..])];
      }
    }
  }

  /** The counted suffix is the longest whitespace suffix. */
  lemma {:induction false} TrailingSpacesSpec(s: string)
    ensures forall k :: |s| - TrailingSpaces(s) <= k < |s| ==> IsSpace(s[k])
    ensures TrailingSpaces(s) < |s| ==> !IsSpace(s[|s| - 1 - TrailingSpaces(s)])
  {
    if s != [] && IsSpace(s[|s| - 1]) {
      var p := s[..|s| - 1];
      TrailingSpacesSpec(p);
      forall k | |s| - TrailingSpaces(s) <= k < |s| - 1 ensures IsSpace(s[k]) {
        assert s[k] == p[k];
      }
      if TrailingSpaces(s) < |s| {
        assert s[|s| - 1 - TrailingSpaces(s)] == p[|p| - 1 - TrailingSpaces(p)];
      }
    }
  }

  /** Drops the leading whitespace. */
  function TrimStart(s: string): string {
    s[LeadingSpaces(s)..]
  }

  /** Drops the trailing whitespace. */
  function TrimEnd(s: string): string {
    s[..|s| - TrailingSpaces(s)]
  }

  /** Python's `s.strip()`: drops whitespace at both ends. */
  function Strip(s: string): string {
    TrimEnd(TrimStart(s))
  }

  /** `Strip(s)` is the slice of `s` left between a whitespace prefix and a
      whitespace suffix, and it neither starts nor ends with whitespace. */
  lemma StripSlice(s: string)
    ensures exists i, j :: (
              && 0 <= i <= j <= |s| && Strip(s) == s[i..j]
              && (forall k :: 0 <= k < i ==> IsSpace(s[k]))
              && (forall k :: j <= k < |s| ==> IsSpace(s[k])))
    ensures Strip(s) == [] || (!IsSpace(Strip(s)[0]) && !IsSpace(Strip(s)[|Strip(s)| - 1]))
  {
    var t := TrimStart(s);
    var r := TrimEnd(t);
    LeadingSpacesSpec(s);
    TrailingSpacesSpec(t);
    var i := LeadingSpaces(s);
    var j := |s| - TrailingSpaces(t);
    assert r == s[i..j];
    forall k | j <= k < |s| ensures IsSpace(s[k]) {
      assert s[k] == t[k - i];
    }
    if r != [] {
      assert r[0] == s[i];
      assert r[|r| - 1] == t[|t| - 1 - TrailingSpaces(t)];
    }
  }

  /** A string made only of whitespace. */
  predicate AllSpace(s: string) {
    forall k :: 0 <= k < |s| ==> IsSpace(s[k])
  }

  /** Whitespace put before `s` adds to its leading whitespace. */
  lemma {:induction false} LeadingSpacesPadded(p: string, s: string)
    requires AllSpace(p)
    ensures LeadingSpaces(p + s) == |p| + LeadingSpaces(s)
  {
    if p != [] {
      assert AllSpace(p[1..]) by {
        forall k | 0 <= k < |p| - 1 ensures IsSpace(p[1..][k]) {
          assert p[1..][k] == p[k + 1];
        }
      }
      LeadingSpacesPadded(p[1..], s);
      assert IsSpace((p + s)[0]) by { assert (p + s)[0] == p[0]; }
      assert (p + s)[1..] == p[1..] + s;
      assert LeadingSpaces(p + s) == 1 + LeadingSpaces((p + s)[1..]);
    } else {
      assert p + s == s;
    }
  }

  /** Text put after a non-whitespace character leaves the leading whitespace alone. */
  lemma {:induction false} LeadingSpacesAppend(s: string, q: string)
    requires LeadingSpaces(s) < |s|
    ensures LeadingSpaces(s + q) == LeadingSpaces(s)
  {
    if IsSpace(s[0]) {
      LeadingSpacesAppend(s[1..], q);
      assert (s + q)[1..] == s[1..] + q;
    }
  }

  /** Whitespace put after `s` adds to its trailing whitespace. */
  lemma {:induction false} TrailingSpacesPadded(s: string, q: string)
    requires AllSpace(q)
    ensures TrailingSpaces(s + q) == |q| + TrailingSpaces(s)
  {
    if q != [] {
      var init := q[..|q| - 1];
      assert AllSpace(init) by {
        forall k | 0 <= k < |init| ensures IsSpace(init[k]) {
          assert init[k] == q[k];
        }
      }
      TrailingSpacesPadded(s, init);
      assert IsSpace((s + q)[|s + q| - 1]) by { assert (s + q)[|s + q| - 1] == q[|q| - 1]; }
      assert (s + q)[..|s + q| - 1] == s + init;
      assert TrailingSpaces(s + q) == 1 + TrailingSpaces((s + q)[..|s + q| - 1]);
    } else {
      assert s + q == s;
    }
  }

  /** `(p + s).strip() == s.strip()` for whitespace `p`. */
  lemma StripPaddedStart(p: string, s: string)
    requires AllSpace(p)
    ensures Strip(p + s) == Strip(s)
  {
    LeadingSpacesPadded(p, s);
    assert TrimStart(p + s) == TrimStart(s);
  }

  /** `(s + q).strip() == s.strip()` for whitespace `q`. */
  lemma StripPaddedEnd(s: string, q: string)
    requires AllSpace(q)
    ensures Strip(s + q) == Strip(s)
  {
    if LeadingSpaces(s) < |s| {
      LeadingSpacesAppend(s, q);
      var t := TrimStart(s);
      assert TrimStart(s + q) == t + q;
      TrailingSpacesPadded(t, q);
      assert TrimEnd(t + q) == TrimEnd(t);
    } else {
      LeadingSpacesSpec(s);
      LeadingSpacesPadded(s, q);
      LeadingSpacesPadded(q, []);
      assert q + [] == q;
    }
  }

  /** Whitespace around a string does not survive `strip()`. */
  lemma StripPadding(p: string, s: string, q: string)
    requires AllSpace(p) && AllSpace(q)
    ensures Strip(p + s + q) == Strip(s)
  {
    assert p + s + q == p + (s + q);
    StripPaddedStart(p, s + q);
    StripPaddedEnd(s, q);
  }

  predicate IsUpper(c: char) {
    'A' <= c <= 'Z'
  }

  function LowerChar(c: char): char {
    if IsUpper(c) then (c as int + 32) as char else c
  }

  /** Python's `s.lower()` on ASCII letters. */
  function Lower(s: string): string {
    seq(|s|, k requires 0 <= k < |s| => LowerChar(s[k]))
  }

  /** `Lower` maps each upper-case letter to a letter that is not upper case,
      and keeps every other character. */
  lemma LowerSpec(s: string)
    ensures |Lower(s)| == |s|
    ensures forall k :: 0 <= k < |s| ==> !IsUpper(Lower(s)[k])
    ensures forall k :: 0 <= k < |s| && !IsUpper(s[k]) ==> Lower(s)[k] == s[k]
    ensures forall k :: 0 <= k < |s| && IsUpper(s[k]) ==> Lower(s)[k] as int == s[k] as int + 32
  {
  }

  /** Lower-casing twice is lower-casing once. */
  lemma LowerIdempotent(s: string)
    ensures Lower(Lower(s)) == Lower(s)
  {
  }

  /** Two strings of one length with whitespace at the same places. */
  predicate SameSpaces(a: string, b: string) {
    |a| == |b| && forall k :: 0 <= k < |a| ==> (IsSpace(a[k]) <==> IsSpace(b[k]))
  }

  /** Strings that agree up to case have their whitespace at the same places. */
  lemma LowerSameSpaces(a: string, b: string)
    requires Lower(a) == Lower(b)
    ensures SameSpaces(a, b)
  {
    assert |a| == |Lower(a)|;
    forall k | 0 <= k < |a| ensures IsSpace(a[k]) <==> IsSpace(b[k]) {
      assert LowerChar(a[k]) == Lower(a)[k] == Lower(b)[k] == LowerChar(b[k]);
    }
  }

  /** `strip()` cuts as much off both ends of strings with the same whitespace. */
  lemma StripSameSpaces(a: string, b: string)
    requires SameSpaces(a, b)
    ensures LeadingSpaces(b) == LeadingSpaces(a)
    ensures TrailingSpaces(TrimStart(b)) == TrailingSpaces(TrimStart(a))
  {
    LeadingSpacesSpec(a);
    LeadingSpacesSpec(b);
    var i := LeadingSpaces(a);
    assert LeadingSpaces(b) == i;
    var ta, tb := TrimStart(a), TrimStart(b);
    assert SameSpaces(ta, tb) by {
      forall k | 0 <= k < |ta| ensures IsSpace(ta[k]) <==> IsSpace(tb[k]) {
        assert ta[k] == a[i + k] && tb[k] == b[i + k];
      }
    }
    TrailingSpacesSpec(ta);
    TrailingSpacesSpec(tb);
  }

  /** `a.strip().lower() == b.strip().lower()` when `a.lower() == b.lower()`:
      re-casing a string does not change what `strip()` cuts off. */
  lemma StripLower(a: string, b: string)
    requires Lower(a) == Lower(b)
    ensures Lower(Strip(a)) == Lower(Strip(b))
  {
    LowerSameSpaces(a, b);
    StripSameSpaces(a, b);
    var i := LeadingSpaces(a);
    assert |Strip(a)| == |Strip(b)|;
    forall k | 0 <= k < |Strip(a)| ensures Lower(Strip(a))[k] == Lower(Strip(b))[k] {
      assert Strip(a)[k] == a[i + k] && Strip(b)[k] == b[i + k];
      assert LowerChar(a[i + k]) == Lower(a)[i + k] == Lower(b)[i + k] == LowerChar(b[i + k]);
    }
  }

  /** A string that `int()` accepts without a sign, spaces or underscores. */
  predicate IsDecimal(s: string) {
    |s| > 0 && forall k :: 0 <= k < |s| ==> '0' <= s[k] <= '9'
  }

  /** The decimal form `str(n)` produces: no leading zero except in "0". */
  predicate IsCanonicalDecimal(s: string) {
    IsDecimal(s) && (|s| == 1 || s[0] != '0')
  }

  function DigitValue(c: char): nat {
    if '0' <= c <= '9' then c as int - '0' as int else 0
  }

  function DigitChar(d: nat): (c: char)
    requires d < 10
    ensures '0' <= c <= '9' && DigitValue(c) == d
  {
    ('0' as int + d) as char
  }

  /** Python's `int(s)` for a decimal key; the sort key of chapters and verses. */
  function DecimalValue(s: string): int {
    if s == [] then 0 else DecimalValue(s[..|s| - 1]) * 10 + DigitValue(s[|s| - 1])
  }

  lemma {:induction false} DecimalValueNonNegative(s: string)
    ensures DecimalValue(s) >= 0
  {
    if s != [] {
      DecimalValueNonNegative(s[..|s| - 1]);
    }
  }

  /** Python's `str(n)`: the canonical decimal form of `n`. */
  function Decimal(n: nat): (r: string)
    ensures IsCanonicalDecimal(r)
  {
    if n < 10 then [DigitChar(n)] else Decimal(n / 10) + [DigitChar(n % 10)]
  }

  /** `int(str(n)) == n`. */
  lemma {:induction false} DecimalValueOfDecimal(n: nat)
    ensures DecimalValue(Decimal(n)) == n
  {
    if n >= 10 {
      DecimalValueOfDecimal(n / 10);
      var s := Decimal(n);
      assert s[..|s| - 1] == Decimal(n / 10);
    }
  }

  lemma {:induction false} LeadingDigitPositive(s: string)
    requires IsDecimal(s) && s[0] != '0'
    ensures DecimalValue(s) >= 1
  {
    if |s| > 1 {
      LeadingDigitPositive(s[..|s| - 1]);
    }
  }

  /** `str(int(s)) == s` for a key without leading zeros. */
  lemma {:induction false} DecimalOfDecimalValue(s: string)
    requires IsCanonicalDecimal(s)
    ensures DecimalValue(s) >= 0 && Decimal(DecimalValue(s)) == s
  {
    if |s| > 1 {
      var p := s[..|s| - 1];
      LeadingDigitPositive(p);
      DecimalOfDecimalValue(p);
      var v := DecimalValue(s);
      assert v / 10 == DecimalValue(p) && v % 10 == DigitValue(s[|s| - 1]);
      assert s == p + [s[|s| - 1]];
    } else {
      assert s == [s[0]];
    }
  }

  /** Two different keys without leading zeros have different integer values. */
  lemma DecimalValueInjective(s: string, t: string)
    requires IsCanonicalDecimal(s) && IsCanonicalDecimal(t)
    ensures DecimalValue(s) == DecimalValue(t) <==> s == t
  {
    DecimalOfDecimalValue(s);
    DecimalOfDecimalValue(t);
  }
}
