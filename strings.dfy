/**
 * The few pieces of Go's strings, strconv and fmt packages that the server relies on:
 * decimal rendering of integers (%d), prefix/suffix/substring tests, lower-casing and
 * TrimSpace. Strings are sequences of runes.
 */
module Strings {

  predicate IsDigit(c: char) { '0' <= c <= '9' }

  function DigitChar(d: nat): (c: char)
    requires d < 10
    ensures IsDigit(c) && c as int - '0' as int == d
  {
    ('0' as int + d) as char
  }

  function DigitValue(c: char): int { c as int - '0' as int }

  /** The text `%d` prints for a non-negative integer. */
  function Decimal(n: nat): (r: string)
    ensures |r| > 0
    decreases n
  {
    if n < 10 then [DigitChar(n)] else Decimal(n / 10) + [DigitChar(n % 10)]
  }

  /** The rendering is made of digits only. */
  lemma {:induction false} DecimalDigits(n: nat)
    ensures forall i :: 0 <= i < |Decimal(n)| ==> IsDigit(Decimal(n)[i])
    decreases n
  {
    if n >= 10 {
      DecimalDigits(n / 10);
    }
  }

  /** Reads a string of digits back as a number (most significant digit first). */
  function ParseDecimal(s: string): int
  {
    if s == [] then 0 else ParseDecimal(s[..|s| - 1]) * 10 + DigitValue(s[|s| - 1])
  }

  lemma {:induction false} DecimalRoundTrip(n: nat)
    ensures ParseDecimal(Decimal(n)) == n
    decreases n
  {
    if n < 10 {
      assert Decimal(n)[..0] == [];
    } else {
      var s := Decimal(n / 10);
      DecimalRoundTrip(n / 10);
      assert (s + [DigitChar(n % 10)])[..|s|] == s;
    }
  }

  /** Different numbers print differently. */
  lemma DecimalInjective(a: nat, b: nat)
    requires Decimal(a) == Decimal(b)
    ensures a == b
  {
    DecimalRoundTrip(a);
    DecimalRoundTrip(b);
  }

  /** The text `%d` prints for any integer (a leading '-' for negatives). */
  function SignedDecimal(n: int): (r: string)
  {
    if n < 0 then "-" + Decimal(-n) else Decimal(n)
  }

  /** The rendering starts with '-' exactly for negative numbers. */
  lemma SignedDecimalSign(n: int)
    ensures |SignedDecimal(n)| > 0 && (SignedDecimal(n)[0] == '-' <==> n < 0)
  {
    if n >= 0 {
      DecimalDigits(n);
    }
  }

  lemma SignedDecimalInjective(a: int, b: int)
    requires SignedDecimal(a) == SignedDecimal(b)
    ensures a == b
  {
    var sa, sb := SignedDecimal(a), SignedDecimal(b);
    SignedDecimalSign(a);
    SignedDecimalSign(b);
    if a < 0 {
      assert Decimal(-a) == sa[1..] == sb[1..] == Decimal(-b);
      DecimalInjective(-a, -b);
    } else {
      DecimalInjective(a, b);
    }
  }

  /** strings.HasPrefix */
  predicate HasPrefix(s: string, prefix: string)
  {
    |prefix| <= |s| && s[..|prefix|] == prefix
  }

  /** strings.HasSuffix */
  predicate HasSuffix(s: string, suffix: string)
  {
    |suffix| <= |s| && s[|s| - |suffix|..] == suffix
  }

  /** strings.Contains: `sub` starts at the first position of `s` or occurs in the rest. */
  predicate Contains(s: string, sub: string)
    decreases |s|
  {
    |sub| <= |s| && (HasPrefix(s, sub) || Contains(s[1..], sub))
  }

  /** Contains holds exactly when `sub` starts at some position of `s`. */
  lemma {:induction false} ContainsIff(s: string, sub: string)
    ensures Contains(s, sub) <==> exists i :: 0 <= i <= |s| - |sub| && HasPrefix(s[i..], sub)
    decreases |s|
  {
    if |sub| <= |s| && HasPrefix(s, sub) {
      assert s[0..] == s;
    } else if |sub| <= |s| {
      ContainsIff(s[1..], sub);
      if Contains(s, sub) {
        var i :| 0 <= i <= |s| - 1 - |sub| && HasPrefix(s[1..][i..], sub);
        assert s[1..][i..] == s[i + 1..];
      } else {
        forall i | 0 <= i <= |s| - |sub|
          ensures !HasPrefix(s[i..], sub)
        {
          if i > 0 {
            assert s[1..][i - 1..] == s[i..];
          }
        }
      }
    }
  }

  /** An occurrence at position i is enough. */
  lemma ContainsAt(s: string, sub: string, i: nat)
    requires i <= |s| - |sub| && HasPrefix(s[i..], sub)
    ensures Contains(s, sub)
  {
    ContainsIff(s, sub);
  }

  /** unicode.ToLower restricted to ASCII letters; every other rune is kept. */
  function LowerChar(c: char): char
  {
    if 'A' <= c <= 'Z' then (c as int + 32) as char else c
  }

  /** strings.ToLower, rune by rune. */
  function ToLower(s: string): (r: string)
    ensures |r| == |s|
  {
    if s == [] then [] else [LowerChar(s[0])] + ToLower(s[1..])
  }

  /** Each rune is lower-cased in place. */
  lemma {:induction false} ToLowerPointwise(s: string)
    ensures forall i :: 0 <= i < |s| ==> ToLower(s)[i] == LowerChar(s[i])
    decreases |s|
  {
    if s != [] {
      ToLowerPointwise(s[1..]);
    }
  }

  /** Lower-casing twice changes nothing more. */
  lemma ToLowerIdempotent(s: string)
    ensures ToLower(ToLower(s)) == ToLower(s)
  {
    ToLowerPointwise(s);
    ToLowerPointwise(ToLower(s));
  }

  /** unicode.IsSpace: the runes with the Unicode White_Space property. */
  predicate IsSpace(c: char)
  {
    var n := c as int;
    (9 <= n <= 13) || n == 0x20 || n == 0x85 || n == 0xA0 || n == 0x1680
    || (0x2000 <= n <= 0x200A) || n == 0x2028 || n == 0x2029 || n == 0x202F
    || n == 0x205F || n == 0x3000
  }

  /** Drops leading white space. */
  function TrimLeft(s: string): (r: string)
    ensures |r| <= |s|
  {
    if s != [] && IsSpace(s[0]) then TrimLeft(s[1..]) else s
  }

  /** TrimLeft keeps a suffix of its input, */
  lemma {:induction false} TrimLeftSuffix(s: string)
    ensures HasSuffix(s, TrimLeft(s))
    decreases |s|
  {
    if s != [] && IsSpace(s[0]) {
      var r := TrimLeft(s[1..]);
      TrimLeftSuffix(s[1..]);
      assert s[1..][|s| - 1 - |r|..] == s[|s| - |r|..];
    }
  }

  /** drops only white space, */
  lemma {:induction false} TrimLeftDropsSpaces(s: string)
    ensures forall i :: 0 <= i < |s| - |TrimLeft(s)| ==> IsSpace(s[i])
    decreases |s|
  {
    if s != [] && IsSpace(s[0]) {
      var r := TrimLeft(s[1..]);
      TrimLeftDropsSpaces(s[1..]);
      forall i | 1 <= i < |s| - |r|
        ensures IsSpace(s[i])
      {
        assert s[i] == s[1..][i - 1];
      }
    }
  }

  /** and stops at the first rune that is not white space. */
  lemma {:induction false} TrimLeftStops(s: string)
    ensures TrimLeft(s) != [] ==> !IsSpace(TrimLeft(s)[0])
    decreases |s|
  {
    if s != [] && IsSpace(s[0]) {
      TrimLeftStops(s[1..]);
    }
  }

  lemma TrimLeftSpec(s: string)
    ensures HasSuffix(s, TrimLeft(s))
    ensures forall i :: 0 <= i < |s| - |TrimLeft(s)| ==> IsSpace(s[i])
    ensures TrimLeft(s) != [] ==> !IsSpace(TrimLeft(s)[0])
  {
    TrimLeftSuffix(s);
    TrimLeftDropsSpaces(s);
    TrimLeftStops(s);
  }

  /** Drops trailing white space. */
  function TrimRight(s: string): (r: string)
    ensures |r| <= |s|
  {
    if s != [] && IsSpace(s[|s| - 1]) then TrimRight(s[..|s| - 1]) else s
  }

  /** TrimRight keeps a prefix of its input, */
  lemma {:induction false} TrimRightPrefix(s: string)
    ensures HasPrefix(s, TrimRight(s))
    decreases |s|
  {
    if s != [] && IsSpace(s[|s| - 1]) {
      var init := s[..|s| - 1];
      TrimRightPrefix(init);
      assert init[..|TrimRight(init)|] == s[..|TrimRight(init)|];
    }
  }

  /** drops only white space, */
  lemma {:induction false} TrimRightDropsSpaces(s: string)
    ensures forall i :: |TrimRight(s)| <= i < |s| ==> IsSpace(s[i])
    decreases |s|
  {
    if s != [] && IsSpace(s[|s| - 1]) {
      var init := s[..|s| - 1];
      TrimRightDropsSpaces(init);
      forall i | |TrimRight(init)| <= i < |s| - 1
        ensures IsSpace(s[i])
      {
        assert s[i] == init[i];
      }
    }
  }

  /** and stops at the last rune that is not white space. */
  lemma {:induction false} TrimRightStops(s: string)
    ensures TrimRight(s) != [] ==> !IsSpace(TrimRight(s)[|TrimRight(s)| - 1])
    decreases |s|
  {
    if s != [] && IsSpace(s[|s| - 1]) {
      TrimRightStops(s[..|s| - 1]);
    }
  }

  lemma TrimRightSpec(s: string)
    ensures HasPrefix(s, TrimRight(s))
    ensures forall i :: |TrimRight(s)| <= i < |s| ==> IsSpace(s[i])
    ensures TrimRight(s) != [] ==> !IsSpace(TrimRight(s)[|TrimRight(s)| - 1])
  {
    TrimRightPrefix(s);
    TrimRightDropsSpaces(s);
    TrimRightStops(s);
  }

  /** strings.TrimSpace */
  function TrimSpace(s: string): (r: string)
  {
    TrimRight(TrimLeft(s))
  }

  /** TrimSpace yields the empty string exactly when every rune is white space. */
  lemma TrimSpaceEmptyIff(s: string)
    ensures TrimSpace(s) == [] <==> forall i :: 0 <= i < |s| ==> IsSpace(s[i])
  {
    TrimLeftSpec(s);
    TrimRightSpec(TrimLeft(s));
  }

  /** A non-empty TrimSpace result neither starts nor ends with white space. */
  lemma TrimSpaceEnds(s: string)
    requires TrimSpace(s) != []
    ensures !IsSpace(TrimSpace(s)[0]) && !IsSpace(TrimSpace(s)[|TrimSpace(s)| - 1])
  {
    var t := TrimLeft(s);
    var r := TrimRight(t);
    TrimLeftSpec(s);
    TrimRightSpec(t);
    assert r[0] == t[0];
  }
}
