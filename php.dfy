/**
 * The few pieces of the PHP runtime and of the TYPO3 utility classes that the
 * page viewer and the full-text generator rely on, written out so that their
 * edge cases (falsy strings, `strrpos` returning false, negative `substr`
 * lengths, clamping with a default) are part of the model.
 */
module Php {

  datatype Option<T> = None | Some(value: T)

  /** PHP's `empty()` (and boolean conversion) on a string: only "" and "0" are false. */
  predicate Falsy(s: string)
  {
    s == "" || s == "0"
  }

  predicate StartsWith(s: string, prefix: string)
  {
    |prefix| <= |s| && s[..|prefix|] == prefix
  }

  predicate EndsWith(s: string, suffix: string)
  {
    |suffix| <= |s| && s[|s| - |suffix|..] == suffix
  }

  /** PHP 8 `str_contains`: the needle occurs somewhere; the empty needle always does. */
  predicate Contains(haystack: string, needle: string)
    decreases |haystack|
  {
    StartsWith(haystack, needle) || (|haystack| > 0 && Contains(haystack[1..], needle))
  }

  lemma {:induction false} ContainsInfix(a: string, b: string, c: string)
    ensures Contains(a + b + c, b)
    decreases |a|
  {
    if a == [] {
      assert (a + b + c)[..|b|] == b;
    } else {
      assert (a + b + c)[1..] == a[1..] + b + c;
      ContainsInfix(a[1..], b, c);
    }
  }

  lemma StartsWithAppend(x: string, y: string)
    ensures StartsWith(x + y, x)
  {
    assert (x + y)[..|x|] == x;
  }

  lemma StartsWithExtend(x: string, p: string, t: string)
    requires StartsWith(x, p)
    ensures StartsWith(x + t, p)
  {
    assert (x + t)[..|p|] == x[..|p|];
  }

  lemma EndsWithAppend(x: string, y: string)
    ensures EndsWith(x + y, y)
  {
    assert (x + y)[|x + y| - |y|..] == y;
  }

  lemma EndsWithExtend(x: string, s: string, t: string)
    requires EndsWith(x, s)
    ensures EndsWith(x + t, s + t)
  {
    assert (x + t)[|x + t| - |s + t|..] == x[|x| - |s|..] + t;
  }

  lemma EndsWithPrepend(p: string, x: string, s: string)
    requires EndsWith(x, s)
    ensures EndsWith(p + x, s)
  {
    assert (p + x)[|p + x| - |s|..] == x[|x| - |s|..];
  }

  lemma {:induction false} ContainsAppend(x: string, t: string, m: string)
    requires Contains(x, m)
    ensures Contains(x + t, m)
    decreases |x|
  {
    if StartsWith(x, m) {
      StartsWithExtend(x, m, t);
    } else {
      assert (x + t)[1..] == x[1..] + t;
      ContainsAppend(x[1..], t, m);
    }
  }

  lemma {:induction false} ContainsPrepend(p: string, x: string, m: string)
    requires Contains(x, m)
    ensures Contains(p + x, m)
    decreases |p|
  {
    if p == [] {
      assert p + x == x;
    } else {
      assert (p + x)[1..] == p[1..] + x;
      ContainsPrepend(p[1..], x, m);
    }
  }

  // ---------------------------------------------------------------------------
  // Decimal integers, as PHP prints them in string interpolation

  predicate IsDigit(c: char)
  {
    '0' <= c <= '9'
  }

  predicate AllDigits(s: string)
  {
    forall i :: 0 <= i < |s| ==> IsDigit(s[i])
  }

  function Digit(d: nat): (c: char)
    requires d < 10
    ensures IsDigit(c)
  {
    ('0' as int + d) as char
  }

  function DigitValue(c: char): (d: nat)
    requires IsDigit(c)
    ensures d < 10 && Digit(d) == c
  {
    c as int - '0' as int
  }

  /** The decimal text of a natural number, as `"$n"` gives it in PHP. */
  function NatToString(n: nat): (s: string)
    ensures 1 <= |s| && AllDigits(s)
    ensures |s| > 1 ==> s[0] != '0'
    decreases n
  {
    if n < 10 then [Digit(n)] else NatToString(n / 10) + [Digit(n % 10)]
  }

  /** The value of a string of decimal digits (only ever applied to such strings). */
  function StringToNat(s: string): nat
    decreases |s|
  {
    if s == [] then 0
    else
      var c := s[|s| - 1];
      StringToNat(s[..|s| - 1]) * 10 + (if IsDigit(c) then DigitValue(c) else 0)
  }

  lemma {:induction false} NatStringRoundTrip(n: nat)
    ensures StringToNat(NatToString(n)) == n
    decreases n
  {
    if n >= 10 {
      var s := NatToString(n);
      assert s[..|s| - 1] == NatToString(n / 10);
      NatStringRoundTrip(n / 10);
    }
  }

  /** Distinct numbers print differently. */
  lemma NatToStringInjective(a: nat, b: nat)
    ensures NatToString(a) == NatToString(b) ==> a == b
  {
    NatStringRoundTrip(a);
    NatStringRoundTrip(b);
  }

  // ---------------------------------------------------------------------------
  // White space, `trim` and PHP's `(int)` cast of a string

  /** The characters PHP's `trim` strips by default: space, tab, line feed, carriage return, NUL and vertical tab. */
  predicate IsTrimSpace(c: char)
  {
    c == ' ' || c == '\t' || c == '\n' || c == '\r' || c == '\0' || c as int == 11
  }

  /** The white space PHP allows before a numeric string: space, tab, line feed, carriage return, vertical tab and form feed. */
  predicate IsNumericSpace(c: char)
  {
    c == ' ' || c == '\t' || c == '\n' || c == '\r' || c as int == 11 || c as int == 12
  }

  /** `s` without its leading numeric white space. */
  function SkipNumericSpace(s: string): (t: string)
    ensures EndsWith(s, t)
    ensures t == [] || !IsNumericSpace(t[0])
    decreases |s|
  {
    if |s| > 0 && IsNumericSpace(s[0]) then
      var t := SkipNumericSpace(s[1..]);
      assert s[|s| - |t|..] == s[1..][|s[1..]| - |t|..];
      t
    else s
  }

  /** `ltrim`: `s` without its leading `trim` white space. */
  function TrimLeft(s: string): (t: string)
    ensures EndsWith(s, t)
    ensures t == [] || !IsTrimSpace(t[0])
    decreases |s|
  {
    if |s| > 0 && IsTrimSpace(s[0]) then
      var t := TrimLeft(s[1..]);
      assert s[|s| - |t|..] == s[1..][|s[1..]| - |t|..];
      t
    else s
  }

  /** `rtrim`: `s` without its trailing `trim` white space. */
  function TrimRight(s: string): (t: string)
    ensures StartsWith(s, t)
    ensures t == [] || !IsTrimSpace(t[|t| - 1])
    decreases |s|
  {
    if |s| > 0 && IsTrimSpace(s[|s| - 1]) then
      var t := TrimRight(s[..|s| - 1]);
      assert s[..|t|] == s[..|s| - 1][..|t|];
      t
    else s
  }

  /** PHP `trim`: leading and trailing white space removed. */
  function Trim(s: string): string
  {
    TrimRight(TrimLeft(s))
  }

  /** The longest prefix of `s` made of decimal digits. */
  function DigitPrefix(s: string): (d: string)
    ensures AllDigits(d) && StartsWith(s, d)
    ensures |d| == |s| || !IsDigit(s[|d|])
    decreases |s|
  {
    if |s| > 0 && IsDigit(s[0]) then [s[0]] + DigitPrefix(s[1..]) else []
  }

  /** Ten to the power `k`. */
  function Pow10(k: nat): (p: nat)
    ensures p >= 1
  {
    if k == 0 then 1 else 10 * Pow10(k - 1)
  }

  /**
   * `m` times ten to the power `shift`, one decimal place at a time; a
   * negative `shift` drops digits, which truncates toward zero.
   */
  function Shifted(m: nat, shift: int): nat
    decreases if shift >= 0 then shift else -shift
  {
    if shift == 0 then m
    else if shift > 0 then Shifted(m * 10, shift - 1)
    else Shifted(m / 10, shift + 1)
  }

  /**
   * The exponent that follows a numeral: `e` or `E`, an optional sign and at
   * least one digit. Without those digits there is no exponent, which reads as 0.
   */
  function ExponentOf(r: string): int
  {
    if |r| >= 2 && (r[0] == 'e' || r[0] == 'E') then
      var u := if r[1] == '-' || r[1] == '+' then r[2..] else r[1..];
      var digits := DigitPrefix(u);
      if digits == [] then 0
      else if r[1] == '-' then -(StringToNat(digits) as int)
      else StringToNat(digits)
    else 0
  }

  /**
   * `(int) $s` for a string, in PHP 8: after leading white space and an
   * optional sign, the leading numeric string (digits with an optional
   * fraction, then an optional exponent) is read and truncated toward zero,
   * so "2e1" gives 20 and "1.9" gives 1. A string that does not start with a
   * numeral gives 0. The value is exact here; PHP goes through a float when
   * there is a fraction or an exponent.
   */
  function IntCast(s: string): int
  {
    var t := SkipNumericSpace(s);
    if |t| > 0 && t[0] == '-' then -(UnsignedCast(t[1..]) as int)
    else if |t| > 0 && t[0] == '+' then UnsignedCast(t[1..])
    else UnsignedCast(t)
  }

  /** The value of the numeral at the start of `u` (after the sign), truncated toward zero; 0 without a numeral. */
  function UnsignedCast(u: string): nat
  {
    var whole := DigitPrefix(u);
    NumeralValue(whole, u[|whole|..])
  }

  /**
   * The value of a numeral whose leading digits are `whole` and whose
   * remaining text is `rest`: an optional point with fraction digits, then an
   * optional exponent.
   */
  function NumeralValue(whole: string, rest: string): nat
  {
    var point := |rest| > 0 && rest[0] == '.';
    var fraction := if point then DigitPrefix(rest[1..]) else [];
    if whole == [] && fraction == [] then 0
    else
      var tail := if point then rest[1 + |fraction|..] else rest;
      Shifted(StringToNat(whole + fraction), ExponentOf(tail) - |fraction|)
  }

  /** A string that starts with a digit has no sign or white space to skip. */
  lemma IntCastOfDigitStart(s: string)
    requires |s| >= 1 && IsDigit(s[0])
    ensures IntCast(s) == UnsignedCast(s)
  {
    assert SkipNumericSpace(s) == s;
  }

  /** Casting a printed natural number gives the number back. */
  lemma IntCastOfNatToString(n: nat)
    ensures IntCast(NatToString(n)) == n
  {
    var s := NatToString(n);
    IntCastOfDigitStart(s);
    assert DigitPrefix(s) == s by { DigitPrefixOfDigits(s); }
    assert s + [] == s;
    NatStringRoundTrip(n);
  }

  /** Digits followed by an exponent: the digits' value times that power of ten. */
  lemma IntCastExponent(d: string, e: nat)
    requires |d| >= 1 && AllDigits(d)
    ensures IntCast(d + "e" + NatToString(e)) == StringToNat(d) * Pow10(e)
  {
    var r := "e" + NatToString(e);
    assert d + "e" + NatToString(e) == d + r;
    IntCastOfDigitStart(d + r);
    UnsignedCastNoFraction(d, r);
    ExponentOfDigits(e);
    ShiftedUp(StringToNat(d), e);
  }

  /** Digits not followed by a point or another digit: their value shifted by the exponent after them. */
  lemma UnsignedCastNoFraction(d: string, r: string)
    requires |d| >= 1 && AllDigits(d) && (r == [] || (r[0] != '.' && !IsDigit(r[0])))
    ensures UnsignedCast(d + r) == Shifted(StringToNat(d), ExponentOf(r))
  {
    DigitPrefixStops(d, r);
    assert (d + r)[|d|..] == r;
    assert UnsignedCast(d + r) == NumeralValue(d, r);
    NumeralValueNoPoint(d, r);
  }

  /** Leading digits with no point after them: their value shifted by the exponent. */
  lemma NumeralValueNoPoint(whole: string, rest: string)
    requires whole != [] && (rest == [] || rest[0] != '.')
    ensures NumeralValue(whole, rest) == Shifted(StringToNat(whole), ExponentOf(rest))
  {
    assert whole + [] == whole;
  }

  /** An `e` followed by a printed natural number is that exponent. */
  lemma ExponentOfDigits(e: nat)
    ensures ExponentOf("e" + NatToString(e)) == e
  {
    var x := NatToString(e);
    var r := "e" + x;
    assert r[1..] == x;
    DigitPrefixOfDigits(x);
    NatStringRoundTrip(e);
  }

  /** Shifting up by `k` places multiplies by ten to the `k`. */
  lemma {:induction false} ShiftedUp(m: nat, k: nat)
    ensures Shifted(m, k) == m * Pow10(k)
    decreases k
  {
    if k > 0 {
      ShiftedUp(m * 10, k - 1);
      calc {
        Shifted(m, k);
        Shifted(m * 10, k - 1);
        (m * 10) * Pow10(k - 1);
        { MulAssoc(m, 10, Pow10(k - 1)); }
        m * (10 * Pow10(k - 1));
        m * Pow10(k);
      }
    }
  }

  lemma MulAssoc(a: int, b: int, c: int)
    ensures (a * b) * c == a * (b * c)
  {
  }

  /** Digits, a point and more digits: the fraction is cut off. */
  lemma IntCastFraction(d: string, f: string)
    requires |d| >= 1 && AllDigits(d) && AllDigits(f)
    ensures IntCast(d + "." + f) == StringToNat(d)
  {
    var r := "." + f;
    assert d + "." + f == d + r;
    IntCastOfDigitStart(d + r);
    DigitPrefixStops(d, r);
    assert (d + r)[|d|..] == r;
    assert UnsignedCast(d + r) == NumeralValue(d, r);
    NumeralValueFraction(d, f);
  }

  /** Leading digits, a point and fraction digits to the end: the value of the leading digits. */
  lemma NumeralValueFraction(whole: string, f: string)
    requires whole != [] && AllDigits(f)
    ensures NumeralValue(whole, "." + f) == StringToNat(whole)
  {
    var rest := "." + f;
    assert rest[1..] == f;
    DigitPrefixOfDigits(f);
    assert rest[1 + |f|..] == [];
    assert ExponentOf([]) == 0;
    DropFraction(whole, f);
  }

  /** Shifting the digits of `d + f` down by `|f|` places leaves the value of `d`. */
  lemma {:induction false} DropFraction(d: string, f: string)
    requires AllDigits(f)
    ensures Shifted(StringToNat(d + f), -|f|) == StringToNat(d)
    decreases |f|
  {
    if f == [] {
      assert d + f == d;
    } else {
      var g := f[..|f| - 1];
      assert (d + f)[..|d + f| - 1] == d + g;
      var n := StringToNat(d + g);
      assert StringToNat(d + f) == n * 10 + DigitValue(f[|f| - 1]);
      assert StringToNat(d + f) / 10 == n;
      DropFraction(d, g);
    }
  }

  /** The digit prefix of digits followed by a non-digit is those digits. */
  lemma {:induction false} DigitPrefixStops(d: string, r: string)
    requires AllDigits(d) && (r == [] || !IsDigit(r[0]))
    ensures DigitPrefix(d + r) == d
    decreases |d|
  {
    if d != [] {
      DigitPrefixStops(d[1..], r);
      assert (d + r)[1..] == d[1..] + r;
    } else {
      assert d + r == r;
    }
  }

  lemma {:induction false} DigitPrefixOfDigits(s: string)
    requires AllDigits(s)
    ensures DigitPrefix(s) == s
    decreases |s|
  {
    if |s| > 0 {
      DigitPrefixOfDigits(s[1..]);
    }
  }

  /** `(string) $n` for any integer. */
  function IntToString(n: int): (s: string)
    ensures 1 <= |s|
    ensures n >= 0 ==> s == NatToString(n)
  {
    if n >= 0 then NatToString(n) else "-" + NatToString(-n)
  }

  // ---------------------------------------------------------------------------
  // Request parameters

  /** A scalar as a request parameter or a PHP array slot holds it: absent/null, an integer, or a string. */
  datatype Value = Null | Int(i: int) | Str(s: string)

  /** `empty($v)` for a scalar. */
  predicate Empty(v: Value)
  {
    match v
    case Null => true
    case Int(i) => i == 0
    case Str(s) => Falsy(s)
  }

  /** `(int) $v`. */
  function IntOf(v: Value): int
  {
    match v
    case Null => 0
    case Int(i) => i
    case Str(s) => IntCast(s)
  }

  /** `(string) $v`. */
  function StringOf(v: Value): string
  {
    match v
    case Null => ""
    case Int(i) => IntToString(i)
    case Str(s) => s
  }

  lemma IntOfIntToString(n: nat)
    ensures IntOf(Str(IntToString(n))) == n
  {
    IntCastOfNatToString(n);
  }

  // ---------------------------------------------------------------------------
  // strrpos, substr, explode

  /** PHP `strrpos($s, $c)`: the last index of `c`, or false. */
  function LastIndexOf(s: string, c: char): (r: Option<nat>)
    ensures r.None? <==> c !in s
    ensures r.Some? ==> r.value < |s| && s[r.value] == c && c !in s[r.value + 1..]
    decreases |s|
  {
    if |s| == 0 then None
    else if s[|s| - 1] == c then Some(|s| - 1)
    else
      var r := LastIndexOf(s[..|s| - 1], c);
      assert r.Some? ==> s[r.value + 1..] == s[..|s| - 1][r.value + 1..] + [s[|s| - 1]];
      r
  }

  /** `strrpos($s, $c) + 1`: PHP turns a missing character (false) into 1. */
  function AfterLast(s: string, c: char): nat
  {
    match LastIndexOf(s, c)
    case Some(k) => k + 1
    case None => 1
  }

  /** The first index of `c` in `s`, if any. */
  function IndexOf(s: string, c: char): (r: Option<nat>)
    ensures r.None? <==> c !in s
    ensures r.Some? ==> r.value < |s| && s[r.value] == c && c !in s[..r.value]
    decreases |s|
  {
    if |s| == 0 then None
    else if s[0] == c then Some(0)
    else
      match IndexOf(s[1..], c)
      case None => None
      case Some(k) =>
        assert s[..k + 1] == [s[0]] + s[1..][..k];
        Some(k + 1)
  }

  /**
   * PHP 8 `substr($s, $start, $length)`, with `length` absent meaning "to the end".
   * A negative start counts from the end; a start past the end gives ""; a
   * negative length leaves that many characters off the end.
   */
  function Substr(s: string, start: int, length: Option<int>): (r: string)
    ensures |r| <= |s|
    ensures 0 <= start <= |s| && length.None? ==> r == s[start..]
    ensures length.Some? && 0 <= start && 0 <= length.value && start + length.value <= |s|
            ==> r == s[start..start + length.value]
  {
    var n := |s|;
    var b := if start >= 0 then start else if n + start < 0 then 0 else n + start;
    if b > n then ""
    else match length
      case None => s[b..]
      case Some(l) =>
        if l < 0 then (if n + l < b then "" else s[b..n + l])
        else s[b..if b + l > n then n else b + l]
  }

  /** The last occurrence of `c` in `a + [c] + b` is the one between `a` and `b` when `b` has none. */
  lemma AfterLastSplit(a: string, c: char, b: string)
    requires c !in b
    ensures AfterLast(a + [c] + b, c) == |a| + 1
  {
    var s := a + [c] + b;
    var r := LastIndexOf(s, c);
    assert s[|a|] == c;
    assert r.Some?;
  }

  /** Two paths `a/b` and `c/d` with slash-free last components are equal only if those components are. */
  lemma LastComponentsEqual(a: string, b: string, c: string, d: string)
    requires '/' !in b && '/' !in d && a + "/" + b == c + "/" + d
    ensures |a| == |c| && b == d
  {
    assert a + "/" + b == a + ['/'] + b;
    assert c + "/" + d == c + ['/'] + d;
    AfterLastSplit(a, '/', b);
    AfterLastSplit(c, '/', d);
    assert b == (a + "/" + b)[|a| + 1..];
    assert d == (c + "/" + d)[|c| + 1..];
  }

  /** PHP `explode`: the pieces between the delimiters, at least one. */
  function Explode(d: char, s: string): (parts: seq<string>)
    ensures |parts| >= 1
    ensures forall i :: 0 <= i < |parts| ==> d !in parts[i]
    decreases |s|
  {
    match IndexOf(s, d)
    case None => [s]
    case Some(k) => [s[..k]] + Explode(d, s[k + 1..])
  }

  function Join(d: char, parts: seq<string>): string
    requires |parts| >= 1
    decreases |parts|
  {
    if |parts| == 1 then parts[0] else parts[0] + [d] + Join(d, parts[1..])
  }

  /** Exploding loses nothing: joining the pieces with the delimiter restores the string. */
  lemma {:induction false} JoinExplode(d: char, s: string)
    ensures Join(d, Explode(d, s)) == s
    decreases |s|
  {
    match IndexOf(s, d)
    case None =>
    case Some(k) =>
      JoinExplode(d, s[k + 1..]);
      assert Explode(d, s)[1..] == Explode(d, s[k + 1..]);
      assert s == s[..k] + [d] + s[k + 1..];
  }

  /** Every piece trimmed, in order. */
  function TrimAll(parts: seq<string>): (r: seq<string>)
    ensures |r| == |parts|
    decreases |parts|
  {
    if parts == [] then [] else [Trim(parts[0])] + TrimAll(parts[1..])
  }

  /**
   * TYPO3 `GeneralUtility::trimExplode($d, $s)` with empty values kept, as the
   * viewer calls it: explode, then trim every piece.
   */
  function TrimExplode(d: char, s: string): (parts: seq<string>)
    ensures |parts| == |Explode(d, s)| >= 1
  {
    TrimAll(Explode(d, s))
  }

  /** A trimmed piece keeps no white space at either end and adds no character. */
  lemma TrimPiece(s: string)
    ensures var p := Trim(s);
      (forall c :: c in p ==> c in s) && (p == [] || (!IsTrimSpace(p[0]) && !IsTrimSpace(p[|p| - 1])))
  {
    var l := TrimLeft(s);
    var p := TrimRight(l);
    assert p == l[..|p|];
    assert l == s[|s| - |l|..];
  }

  /** Piece `i` of the trimmed list is the trimmed piece `i`. */
  lemma {:induction false} TrimAllAt(parts: seq<string>, i: nat)
    requires i < |parts|
    ensures TrimAll(parts)[i] == Trim(parts[i])
    decreases i
  {
    if i > 0 {
      TrimAllAt(parts[1..], i - 1);
    }
  }

  /** Every piece is free of the delimiter and of white space at either end. */
  lemma TrimExplodeParts(d: char, s: string)
    ensures forall i :: 0 <= i < |TrimExplode(d, s)| ==>
      var p := TrimExplode(d, s)[i];
      d !in p && (p == [] || (!IsTrimSpace(p[0]) && !IsTrimSpace(p[|p| - 1])))
  {
    var raw := Explode(d, s);
    forall i | 0 <= i < |raw|
      ensures var p := TrimExplode(d, s)[i];
        d !in p && (p == [] || (!IsTrimSpace(p[0]) && !IsTrimSpace(p[|p| - 1])))
    {
      TrimAllAt(raw, i);
      TrimPiece(raw[i]);
    }
  }

  // ---------------------------------------------------------------------------
  // TYPO3 MathUtility::forceIntegerInRange

  /**
   * `forceIntegerInRange($v, $lo, $hi, $default)`: a zero input is replaced by a
   * non-zero default, then the value is raised to `lo` and after that lowered
   * to `hi` (so `hi` wins when the range is empty).
   */
  function ForceIntegerInRange(v: int, lo: int, hi: int, default: int): int
  {
    var w := if default != 0 && v == 0 then default else v;
    var raised := if w < lo then lo else w;
    if raised > hi then hi else raised
  }

  /**
   * The result lies in [lo, hi] when that range is not empty (and is `hi`
   * otherwise); a value already in range is kept unless it is a zero that the
   * default replaces; values outside the range become its nearer end.
   */
  lemma ForceIntegerInRangeSpec(v: int, lo: int, hi: int, default: int)
    ensures var r := ForceIntegerInRange(v, lo, hi, default);
      && (lo <= hi ==> lo <= r <= hi)
      && (hi < lo ==> r == hi)
      && (lo <= v <= hi && (v != 0 || default == 0) ==> r == v)
      && (v == 0 && default != 0 && lo <= default <= hi ==> r == default)
      && (lo <= hi && v != 0 && v < lo ==> r == lo)
      && (lo <= hi && v != 0 && v > hi ==> r == hi)
  {
  }
}
