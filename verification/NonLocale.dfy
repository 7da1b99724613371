/**
 Reading integers independent of the locale (horse64/nonlocale.c, horse64/nonlocale.h).
 Unsigned 64-bit arithmetic wraps around, and the overflow check only compares before and after.
 */
module NonLocale {

  const TWO_64: int := 0x1_0000_0000_0000_0000
  const UINT64_MAX: int := 0xFFFF_FFFF_FFFF_FFFF
  const INT64_MIN: int := -0x8000_0000_0000_0000
  const INT64_MAX: int := 0x7FFF_FFFF_FFFF_FFFF

  /** _parse_digit */
  function ParseDigit(c: char): (d: nat)
    ensures d <= 255
  {
    if 'A' <= c <= 'Z' then 10 + (c as int - 'A' as int)
    else if 'a' <= c <= 'z' then 10 + (c as int - 'a' as int)
    else if '0' <= c <= '9' then c as int - '0' as int
    else 0xFF
  }

  /** What h64strtoull returns when it has read up to str with this result so far. */
  function ReadUnsigned(str: string, base: nat, result: nat): (r: nat)
    requires 2 <= base <= 36 && result <= UINT64_MAX
    ensures r <= UINT64_MAX
    decreases |str|
  {
    if |str| == 0 then result
    else
      var scaled := result * base % TWO_64;
      if scaled < result then UINT64_MAX
      else
        var digit := ParseDigit(str[0]);
        if digit >= base then scaled
        else ReadUnsigned(str[1..], base, (scaled + digit) % TWO_64)
  }

  /** h64strtoull: 0 for a base out of range. */
  method StrToULL(str: string, base: int) returns (result: nat)
    ensures result <= UINT64_MAX
    ensures result == if 2 <= base <= 36 then ReadUnsigned(str, base, 0) else 0
  {
    if base < 2 || base > 36 {
      return 0;
    }
    result := 0;
    var i := 0;
    while i < |str|
      invariant 0 <= i <= |str| && result <= UINT64_MAX
      invariant ReadUnsigned(str, base, 0) == ReadUnsigned(str[i..], base, result)
    {
      var prev := result;
      assert str[i..][0] == str[i] && str[i..][1..] == str[i + 1..];
      result := result * base % TWO_64;
      if result < prev {
        return UINT64_MAX;
      }
      var digit := ParseDigit(str[i]);
      if digit >= base {
        return;
      }
      result := (result + digit) % TWO_64;
      i := i + 1;
    }
  }

  /** h64strtoll for a base in range. */
  function ReadSigned(str: string, base: nat): (r: int)
    requires 2 <= base <= 36
    ensures INT64_MIN <= r <= INT64_MAX
  {
    if |str| > 0 && str[0] == '-' then
      var u: int := ReadUnsigned(str[1..], base, 0);
      if u > -INT64_MIN then INT64_MAX else -u
    else
      var u := ReadUnsigned(str, base, 0);
      if u > INT64_MAX then INT64_MAX else u
  }

  method StrToLL(str: string, base: int) returns (result: int)
    ensures result == if 2 <= base <= 36 then ReadSigned(str, base) else 0
  {
    if |str| > 0 && str[0] == '-' {
      var u: int;
      u := StrToULL(str[1..], base);
      if u > 0x8000_0000_0000_0000 {
        return INT64_MAX;
      } else if u == 0x8000_0000_0000_0000 {
        result := INT64_MIN;
      } else {
        result := -u;
      }
    } else {
      var u := StrToULL(str, base);
      if u >= 0x8000_0000_0000_0000 {
        return INT64_MAX;
      }
      result := u;
    }
  }

  // -------------------------------------------------------------- what the digits mean

  predicate AllDigits(s: string, base: nat) { forall i :: 0 <= i < |s| ==> ParseDigit(s[i]) < base }

  /** The number the digits of s stand for, continued from n. */
  function Value(s: string, base: nat, n: nat): nat {
    if |s| == 0 then n else Value(s[1..], base, n * base + ParseDigit(s[0]))
  }

  lemma {:induction false} ValueGrows(s: string, base: nat, n: nat)
    requires base >= 1
    ensures Value(s, base, n) >= n
    decreases |s|
  {
    if |s| > 0 {
      ValueGrows(s[1..], base, n * base + ParseDigit(s[0]));
      assert n * base >= n;
    }
  }

  lemma OneDigitFits(n: nat, base: nat, d: nat)
    requires base >= 2 && n * base + d < TWO_64
    ensures n <= n * base && n * base % TWO_64 == n * base && (n * base + d) % TWO_64 == n * base + d
  {
  }

  lemma OneDigitRead(s: string, base: nat, n: nat)
    requires 2 <= base <= 36 && n <= UINT64_MAX && |s| > 0 && ParseDigit(s[0]) < base
    requires n * base + ParseDigit(s[0]) < TWO_64
    ensures ReadUnsigned(s, base, n) == ReadUnsigned(s[1..], base, n * base + ParseDigit(s[0]))
  {
    hide ParseDigit;
    OneDigitFits(n, base, ParseDigit(s[0]));
  }

  lemma {:induction false} ReadsExactlyFrom(s: string, base: nat, n: nat)
    requires 2 <= base <= 36 && AllDigits(s, base) && n <= UINT64_MAX && Value(s, base, n) < TWO_64
    ensures ReadUnsigned(s, base, n) == Value(s, base, n)
    decreases |s|
  {
    hide ParseDigit, ReadUnsigned;
    if |s| > 0 {
      var d := ParseDigit(s[0]);
      ValueGrows(s[1..], base, n * base + d);
      OneDigitRead(s, base, n);
      ReadsExactlyFrom(s[1..], base, n * base + d);
    } else {
      ReadsNothing(s, base, n);
    }
  }

  lemma ReadsNothing(s: string, base: nat, n: nat)
    requires 2 <= base <= 36 && n <= UINT64_MAX && |s| == 0
    ensures ReadUnsigned(s, base, n) == n
  {
  }

  /** A string of digits is read exactly when, and only when, its value fits 64 bits. */
  lemma ReadsExactlyWhatFits(s: string, base: nat)
    requires 2 <= base <= 36 && AllDigits(s, base)
    ensures ReadUnsigned(s, base, 0) == Value(s, base, 0) <==> Value(s, base, 0) < 0x1_0000_0000_0000_0000
  {
    if Value(s, base, 0) <= UINT64_MAX { ReadsExactlyFrom(s, base, 0); }
  }

  /** Thirty-six digits, the letters in either case; everything else is larger than any of them. */
  lemma DigitsAreDigits(c: char)
    ensures ParseDigit(c) < 36 <==> '0' <= c <= '9' || 'a' <= c <= 'z' || 'A' <= c <= 'Z'
    ensures '0' <= c <= '9' ==> ParseDigit(c) == c as int - 48
    ensures 'a' <= c <= 'z' ==> ParseDigit(c) == 10 + (c as int - 97)
    ensures 'A' <= c <= 'Z' ==> ParseDigit(c) == 10 + (c as int - 65)
  {
  }

  /** Numbers of 64 bits that do not fit a sign come out as the largest one, negative ones too. */
  lemma SaturatesSigned(s: string, base: nat)
    requires 2 <= base <= 36 && AllDigits(s, base) && Value(s, base, 0) <= UINT64_MAX
    ensures Value(s, base, 0) > 0x7FFF_FFFF_FFFF_FFFF ==> ReadSigned(s, base) == 0x7FFF_FFFF_FFFF_FFFF
    ensures Value(s, base, 0) > 0x8000_0000_0000_0000 ==> ReadSigned("-" + s, base) == 0x7FFF_FFFF_FFFF_FFFF
  {
    hide ReadUnsigned;
    ReadsExactlyWhatFits(s, base);
    assert ("-" + s)[1..] == s;
    if |s| > 0 { assert ParseDigit(s[0]) < base && ParseDigit('-') == 255; }
    else { assert Value(s, base, 0) == 0; }
  }

  /** What is returned at a character that is no digit: the result so far, scaled once more. */
  function StoppedAt(n: nat, base: nat): nat {
    var scaled := n * base % TWO_64;
    if scaled < n then UINT64_MAX else scaled
  }

  lemma {:induction false} StopsFrom(s: string, c: char, rest: string, base: nat, n: nat)
    requires 2 <= base <= 36 && AllDigits(s, base) && ParseDigit(c) >= base
    requires n <= UINT64_MAX && Value(s, base, n) <= UINT64_MAX
    ensures ReadUnsigned(s + [c] + rest, base, n) == StoppedAt(Value(s, base, n), base)
    decreases |s|
  {
    hide ParseDigit, ReadUnsigned;
    var text := s + [c] + rest;
    if |s| == 0 {
      assert text[0] == c;
      StopsAtOnce(text, base, n);
    } else {
      var d := ParseDigit(s[0]);
      assert text[0] == s[0] && text[1..] == s[1..] + [c] + rest;
      ValueGrows(s[1..], base, n * base + d);
      OneDigitRead(text, base, n);
      StopsFrom(s[1..], c, rest, base, n * base + d);
    }
  }

  lemma StopsAtOnce(s: string, base: nat, n: nat)
    requires 2 <= base <= 36 && n <= UINT64_MAX && |s| > 0 && ParseDigit(s[0]) >= base
    ensures ReadUnsigned(s, base, n) == StoppedAt(n, base)
  {
    hide ParseDigit;
  }

  /**
   Digits in front of anything else are not read as their value: the value comes back multiplied by the base, as long
   as that fits 64 bits, and so is right only for zero.
   */
  lemma DigitsBeforeOther(s: string, c: char, rest: string, base: nat)
    requires 2 <= base <= 36 && AllDigits(s, base) && ParseDigit(c) >= base
    requires Value(s, base, 0) * base <= UINT64_MAX
    ensures ReadUnsigned(s + [c] + rest, base, 0) == Value(s, base, 0) * base
    ensures ReadUnsigned(s + [c] + rest, base, 0) == Value(s, base, 0) <==> Value(s, base, 0) == 0
  {
    hide ParseDigit;
    var v := Value(s, base, 0);
    ScalesUp(v, base);
    StopsFrom(s, c, rest, base, 0);
  }

  lemma ScalesUp(v: nat, base: nat)
    requires base >= 2 && v * base <= UINT64_MAX
    ensures v <= v * base && v * base % TWO_64 == v * base && (v * base == v <==> v == 0)
  {
  }

  /** What a text of digits, perhaps behind a minus sign, stands for. */
  function SignedValue(s: string, base: nat): int {
    if |s| > 0 && s[0] == '-' then 0 - (Value(s[1..], base, 0) as int) else Value(s, base, 0)
  }

  /** The same for signed numbers, both ends of the 64-bit range included. */
  lemma ReadsExactlyWhatFitsSigned(s: string, base: nat)
    requires 2 <= base <= 36
    requires if |s| > 0 && s[0] == '-' then AllDigits(s[1..], base) else AllDigits(s, base)
    ensures ReadSigned(s, base) == SignedValue(s, base) <==>
            -0x8000_0000_0000_0000 <= SignedValue(s, base) < 0x8000_0000_0000_0000
  {
    if |s| > 0 && s[0] == '-' {
      ReadsExactlyWhatFits(s[1..], base);
    } else {
      ReadsExactlyWhatFits(s, base);
    }
  }
}
