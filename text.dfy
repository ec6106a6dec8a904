/**
 * The parts of Kotlin's string library that the SMS client relies on:
 * blankness and trimming, case-insensitive search, first-occurrence
 * splitting, `split(" ")` and `toLongOrNull`. Strings are `seq<char>`.
 */
module Text {
  import opened Wrappers

  const LONG_MIN: int := -0x8000_0000_0000_0000
  const LONG_MAX: int := 0x7FFF_FFFF_FFFF_FFFF

  // ---------------------------------------------------------------------
  // Whitespace, blankness, trimming
  // ---------------------------------------------------------------------

  /** Kotlin's `Char.isWhitespace`: Java whitespace or a Unicode space separator. */
  predicate IsWhitespace(c: char) {
    var n := c as int;
    (9 <= n <= 13) || (0x1C <= n <= 0x20) || n == 0xA0 || n == 0x1680
    || (0x2000 <= n <= 0x200A) || n == 0x2028 || n == 0x2029 || n == 0x202F
    || n == 0x205F || n == 0x3000
  }

  /** `isBlank`: empty or whitespace only. */
  predicate IsBlank(s: string) {
    forall i :: 0 <= i < |s| ==> IsWhitespace(s[i])
  }

  /** `isNullOrBlank` on a nullable string. */
  predicate IsNullOrBlank(s: Option<string>) {
    s.None? || IsBlank(s.value)
  }

  function TrimStart(s: string): (r: string)
    ensures |r| <= |s| && r == s[|s| - |r|..]
    ensures r == [] || !IsWhitespace(r[0])
    ensures forall i :: 0 <= i < |s| - |r| ==> IsWhitespace(s[i])
  {
    if |s| > 0 && IsWhitespace(s[0]) then TrimStart(s[1..]) else s
  }

  function TrimEnd(s: string): (r: string)
    ensures |r| <= |s| && r == s[..|r|]
    ensures r == [] || !IsWhitespace(r[|r| - 1])
    ensures forall i :: |r| <= i < |s| ==> IsWhitespace(s[i])
  {
    if |s| > 0 && IsWhitespace(s[|s| - 1]) then TrimEnd(s[..|s| - 1]) else s
  }

  /** `trim()`: drop leading and trailing whitespace. */
  function Trim(s: string): string {
    TrimEnd(TrimStart(s))
  }

  /** Trimming leaves nothing exactly when the string was blank. */
  lemma TrimEmptyIffBlank(s: string)
    ensures Trim(s) == [] <==> IsBlank(s)
  {
    var t := TrimStart(s);
    if Trim(s) == [] {
      assert t == [];
    } else {
      var r := Trim(s);
      assert !IsWhitespace(r[0]);
      assert r[0] == t[0] == s[|s| - |t|];
    }
  }

  // ---------------------------------------------------------------------
  // Length as Kotlin counts it
  // ---------------------------------------------------------------------

  /** A character outside the Basic Multilingual Plane, stored as a surrogate pair in UTF-16. */
  predicate IsSupplementary(c: char) {
    c as int > 0xFFFF
  }

  /** `length`: the number of UTF-16 code units, two for each supplementary character. */
  function Utf16Length(s: string): (n: nat)
    ensures |s| <= n <= 2 * |s|
    ensures (forall i :: 0 <= i < |s| ==> !IsSupplementary(s[i])) ==> n == |s|
    ensures |s| == 1 ==> (n == 2 <==> IsSupplementary(s[0]))
  {
    if s == [] then 0
    else (if IsSupplementary(s[0]) then 2 else 1) + Utf16Length(s[1..])
  }

  // ---------------------------------------------------------------------
  // Case folding and substring search
  // ---------------------------------------------------------------------

  /** Lower-casing of one character (ASCII letters only). */
  function LowerChar(c: char): char {
    if 'A' <= c <= 'Z' then (c as int + 32) as char else c
  }

  /** `lowercase()`, character by character. */
  function Lower(s: string): (r: string)
    ensures |r| == |s|
    ensures forall i :: 0 <= i < |s| ==> r[i] == LowerChar(s[i])
  {
    seq(|s|, i requires 0 <= i < |s| => LowerChar(s[i]))
  }

  /** Lower-casing commutes with taking a slice. */
  lemma LowerSlice(s: string, i: nat, j: nat)
    requires i <= j <= |s|
    ensures Lower(s[i..j]) == Lower(s)[i..j]
  {
  }

  predicate StartsWith(s: string, prefix: string) {
    |prefix| <= |s| && s[..|prefix|] == prefix
  }

  /** `s.contains(p)`: `p` occurs in `s` as a contiguous substring. */
  predicate Contains(s: string, p: string) {
    exists i :: 0 <= i <= |s| - |p| && OccursAt(s, p, i)
  }

  /** `p` occurs in `s` starting at index `i`. */
  predicate OccursAt(s: string, p: string, i: nat) {
    i + |p| <= |s| && s[i..i + |p|] == p
  }

  /** `contains(p, ignoreCase = true)`. */
  predicate ContainsIgnoreCase(s: string, p: string) {
    Contains(Lower(s), Lower(p))
  }

  /** `startsWith(p, ignoreCase = true)`. */
  predicate StartsWithIgnoreCase(s: string, p: string) {
    StartsWith(Lower(s), Lower(p))
  }

  /** `equals(other, ignoreCase = true)`. */
  predicate EqualsIgnoreCase(a: string, b: string) {
    Lower(a) == Lower(b)
  }

  /** A string that starts with `q` and occurs inside `s` puts `q` inside `s`. */
  lemma ContainsThroughPrefix(s: string, t: string, q: string)
    requires Contains(s, t) && StartsWith(t, q)
    ensures Contains(s, q)
  {
    var i :| 0 <= i <= |s| - |t| && OccursAt(s, t, i);
    assert s[i..i + |q|] == t[..|q|];
    assert OccursAt(s, q, i);
  }

  /** Lower-casing keeps a substring a substring. */
  lemma LowerKeepsContains(s: string, t: string)
    requires Contains(s, t)
    ensures Contains(Lower(s), Lower(t))
  {
    var i :| 0 <= i <= |s| - |t| && OccursAt(s, t, i);
    LowerSlice(s, i, i + |t|);
    assert Lower(s)[i..i + |t|] == Lower(t);
    assert OccursAt(Lower(s), Lower(t), i);
  }

  // ---------------------------------------------------------------------
  // First occurrence of a character, and what the library builds on it
  // ---------------------------------------------------------------------

  /** `indexOf(c)`, with absence as `None` rather than -1. */
  function IndexOf(s: string, c: char): (r: Option<nat>)
    ensures r.Some? ==> r.value < |s| && s[r.value] == c
    ensures r.Some? ==> forall j :: 0 <= j < r.value ==> s[j] != c
    ensures r.None? <==> c !in s
  {
    if |s| == 0 then None
    else if s[0] == c then Some(0)
    else match IndexOf(s[1..], c)
      case None => None
      case Some(k) => Some(k + 1)
  }

  /** A prefix without `c` only shifts the first `c` of what follows it. */
  lemma {:induction false} IndexOfPastPrefix(a: string, b: string, c: char)
    requires c !in a
    ensures IndexOf(a + b, c) == if c in b then Some(|a| + IndexOf(b, c).value) else None
  {
    if a == [] {
      assert a + b == b;
    } else {
      assert (a + b)[0] == a[0];
      assert (a + b)[1..] == a[1..] + b;
      IndexOfPastPrefix(a[1..], b, c);
    }
  }

  /** `substringAfter(c)`: the text after the first `c`, or all of `s` when absent. */
  function SubstringAfter(s: string, c: char): (r: string)
    ensures c !in s ==> r == s
    ensures c in s ==> |r| < |s| && r == s[|s| - |r|..] && s[|s| - |r| - 1] == c
    ensures c in s ==> c !in s[..|s| - |r| - 1]
  {
    match IndexOf(s, c)
    case Some(i) => s[i + 1..]
    case None => s
  }

  /** `substringBefore(c)`: the text before the first `c`, or all of `s` when absent. */
  function SubstringBefore(s: string, c: char): (r: string)
    ensures |r| <= |s| && r == s[..|r|] && c !in r
    ensures |r| < |s| ==> s[|r|] == c
    ensures c !in s ==> r == s
  {
    match IndexOf(s, c)
    case Some(i) => s[..i]
    case None => s
  }

  /** `split(d)` with a one-character delimiter: empty tokens are kept. */
  function Split(s: string, d: char): (r: seq<string>)
    ensures |r| >= 1
    decreases |s|
  {
    match IndexOf(s, d)
    case None => [s]
    case Some(i) => [s[..i]] + Split(s[i + 1..], d)
  }

  /** What occurs in a suffix of `s` occurs in `s`. */
  lemma ContainsFromSuffix(s: string, off: nat, t: string)
    requires off <= |s| && Contains(s[off..], t)
    ensures Contains(s, t)
  {
    var j :| 0 <= j <= |s[off..]| - |t| && OccursAt(s[off..], t, j);
    assert s[off + j..off + j + |t|] == s[off..][j..j + |t|];
    assert OccursAt(s, t, off + j);
  }

  /** Every token `split` produces is a substring of the input. */
  lemma {:induction false} SplitTokensOccur(s: string, d: char, k: nat)
    requires k < |Split(s, d)|
    ensures Contains(s, Split(s, d)[k])
    decreases |s|
  {
    match IndexOf(s, d)
    case None =>
      assert s[0..|s|] == s;
      assert OccursAt(s, s, 0);
    case Some(i) =>
      var rest := s[i + 1..];
      assert Split(s, d) == [s[..i]] + Split(rest, d);
      if k == 0 {
        assert s[0..i] == s[..i];
        assert OccursAt(s, s[..i], 0);
      } else {
        SplitTokensOccur(rest, d, k - 1);
        assert Split(s, d)[k] == Split(rest, d)[k - 1];
        ContainsFromSuffix(s, i + 1, Split(s, d)[k]);
      }
  }

  // ---------------------------------------------------------------------
  // Decimal numerals: `toLongOrNull()` and the provider's id rendering
  // ---------------------------------------------------------------------

  predicate IsDigit(c: char) {
    '0' <= c <= '9'
  }

  predicate AllDigits(s: string) {
    forall i :: 0 <= i < |s| ==> IsDigit(s[i])
  }

  /** The strings `toLongOrNull` can read: digits, or a sign followed by at least one digit. */
  predicate IsNumeral(s: string) {
    || (|s| > 0 && AllDigits(s))
    || (|s| > 1 && (s[0] == '-' || s[0] == '+') && AllDigits(s[1..]))
  }

  /** The value of a string of decimal digits; `None` if a non-digit occurs. */
  function DigitsValue(s: string): (r: Option<nat>)
    ensures r.Some? <==> AllDigits(s)
  {
    if |s| == 0 then Some(0)
    else match DigitsValue(s[..|s| - 1])
      case None => None
      case Some(v) =>
        if IsDigit(s[|s| - 1]) then Some(10 * v + (s[|s| - 1] as int - '0' as int)) else None
  }

  /**
   * Kotlin's `String.toLongOrNull()`: an optional sign followed by at least one
   * decimal digit, with a value inside the 64-bit range.
   */
  function ToLongOrNull(s: string): (r: Option<int>)
    ensures r.Some? ==> LONG_MIN <= r.value <= LONG_MAX
    ensures r.Some? ==> IsNumeral(s)
  {
    if |s| == 0 then None
    else if s[0] < '0' then
      if |s| == 1 then None
      else if s[0] == '-' then
        match DigitsValue(s[1..])
        case Some(v) => var neg := -(v as int); if neg >= LONG_MIN then Some(neg) else None
        case None => None
      else if s[0] == '+' then
        match DigitsValue(s[1..])
        case Some(v) => if v <= LONG_MAX then Some(v) else None
        case None => None
      else None
    else
      match DigitsValue(s)
      case Some(v) => if v <= LONG_MAX then Some(v) else None
      case None => None
  }

  function DigitChar(d: nat): char
    requires d < 10
  {
    ('0' as int + d) as char
  }

  /** The decimal numeral of `n`, without sign or leading zeros. */
  function ToDecimal(n: nat): (r: string)
    ensures |r| > 0 && IsDigit(r[0])
  {
    if n < 10 then [DigitChar(n)] else ToDecimal(n / 10) + [DigitChar(n % 10)]
  }

  lemma {:induction false} DigitsOfDecimal(n: nat)
    ensures DigitsValue(ToDecimal(n)) == Some(n)
  {
    var s := ToDecimal(n);
    if n < 10 {
      assert s[..|s| - 1] == [];
    } else {
      DigitsOfDecimal(n / 10);
      assert s[..|s| - 1] == ToDecimal(n / 10);
    }
  }

  /** `toLongOrNull` reads a decimal numeral back exactly when it fits in 64 bits. */
  lemma DecimalRoundTrip(n: nat)
    ensures ToLongOrNull(ToDecimal(n)) == if n <= LONG_MAX then Some(n) else None
  {
    DigitsOfDecimal(n);
  }

  /** A signed numeral reads back with its sign, down to `Long.MIN_VALUE` and up to `Long.MAX_VALUE`. */
  lemma SignedDecimalRoundTrip(n: nat)
    ensures ToLongOrNull("-" + ToDecimal(n)) == if -(n as int) >= LONG_MIN then Some(-(n as int)) else None
    ensures ToLongOrNull("+" + ToDecimal(n)) == if n <= LONG_MAX then Some(n) else None
  {
    DigitsOfDecimal(n);
    assert ("-" + ToDecimal(n))[1..] == ToDecimal(n);
    assert ("+" + ToDecimal(n))[1..] == ToDecimal(n);
  }

  /** A character that is neither a digit nor a leading sign makes the parse fail. */
  lemma NonDigitIsNull(s: string, i: int)
    requires 0 <= i < |s| && !IsDigit(s[i])
    requires i == 0 ==> s[0] != '-' && s[0] != '+'
    ensures ToLongOrNull(s).None?
  {
  }

  /** A sign alone, like the empty string, is not a number. */
  lemma BareSignIsNull(c: char)
    ensures ToLongOrNull([c]) == if IsDigit(c) then Some(c as int - '0' as int) else None
  {
    assert [c][..0] == [];
    assert DigitsValue([c]) == if IsDigit(c) then Some(c as int - '0' as int) else None;
  }
}
