/** Decimal text <-> integer conversions as the benchmark's counters use them:
    std::to_string on int and unsigned, and std::stoi on the strings it produces. */
module Decimal {

  datatype Option<+T> = None | Some(value: T)

  /** Range of a 32-bit C++ `int`. */
  const IntMin: int := -0x8000_0000
  const IntMax: int := 0x7fff_ffff

  predicate IsDigit(c: char) {
    '0' <= c <= '9'
  }

  /** Every character of s is a decimal digit (stated from the right, as ParseDigits reads). */
  predicate AllDigits(s: string)
    decreases |s|
  {
    s == [] || (AllDigits(s[..|s| - 1]) && IsDigit(s[|s| - 1]))
  }

  lemma {:induction false} AllDigitsAt(s: string, i: nat)
    requires AllDigits(s) && i < |s|
    ensures IsDigit(s[i])
    decreases |s|
  {
    if i < |s| - 1 {
      AllDigitsAt(s[..|s| - 1], i);
    }
  }

  function DigitChar(d: nat): (c: char)
    requires d < 10
    ensures IsDigit(c)
  {
    ('0' as int + d) as char
  }

  function DigitValue(c: char): (d: nat)
    requires IsDigit(c)
    ensures d < 10 && DigitChar(d) == c
  {
    c as int - '0' as int
  }

  /** std::to_string of a non-negative number: its digits, most significant first. */
  function NatToString(n: nat): string
    decreases n
  {
    if n < 10 then [DigitChar(n)] else NatToString(n / 10) + [DigitChar(n % 10)]
  }

  /** to_string writes at least one digit, only digits, and no leading zero. */
  lemma {:induction false} NatToStringDigits(n: nat)
    ensures |NatToString(n)| >= 1 && AllDigits(NatToString(n))
    ensures NatToString(n)[0] == '0' ==> n == 0 && |NatToString(n)| == 1
    decreases n
  {
    if n >= 10 {
      NatToStringDigits(n / 10);
      var s := NatToString(n);
      assert s[..|s| - 1] == NatToString(n / 10);
    }
  }

  /** std::to_string of a signed number: a '-' in front of the magnitude when negative. */
  function IntToString(n: int): string {
    if n < 0 then "-" + NatToString(-n) else NatToString(n)
  }

  /** The value of a string of decimal digits (leading zeros allowed, as stoi allows them). */
  function ParseDigits(s: string): nat
    requires AllDigits(s)
    decreases |s|
  {
    if s == [] then 0 else ParseDigits(s[..|s| - 1]) * 10 + DigitValue(s[|s| - 1])
  }

  /** The number written by an optional '-' followed by one or more digits, unbounded. */
  function ParseInt(s: string): Option<int> {
    if |s| >= 1 && AllDigits(s) then Some(ParseDigits(s))
    else if |s| >= 2 && s[0] == '-' && AllDigits(s[1..]) then Some(-(ParseDigits(s[1..]) as int))
    else None
  }

  /** std::stoi on the strings this model admits: None where stoi throws, either because
      the text is not a number (invalid_argument) or because the number does not fit an
      int (out_of_range). */
  function Stoi(s: string): (r: Option<int>)
    ensures r.Some? ==> IntMin <= r.value <= IntMax && ParseInt(s) == r
    ensures r.None? ==> ParseInt(s).None? || ParseInt(s).value < IntMin || ParseInt(s).value > IntMax
  {
    match ParseInt(s)
    case None => None
    case Some(v) => if IntMin <= v <= IntMax then Some(v) else None
  }

  lemma {:induction false} ParseNatToString(n: nat)
    ensures AllDigits(NatToString(n)) && ParseDigits(NatToString(n)) == n
    decreases n
  {
    var s := NatToString(n);
    NatToStringDigits(n);
    if n < 10 {
      assert s[..0] == [];
    } else {
      ParseNatToString(n / 10);
      NatToStringDigits(n / 10);
      assert s[..|s| - 1] == NatToString(n / 10);
    }
  }

  /** Reading back what to_string wrote gives the number again. */
  lemma ParseIntToString(n: int)
    ensures ParseInt(IntToString(n)) == Some(n)
  {
    var s := IntToString(n);
    if n < 0 {
      var t := NatToString(-n);
      ParseNatToString(-n);
      NatToStringDigits(-n);
      assert s == "-" + t && s[1..] == t;
      assert !AllDigits(s) by {
        if AllDigits(s) {
          AllDigitsAt(s, 0);
        }
      }
      assert ParseInt(s) == Some(-(ParseDigits(t) as int));
    } else {
      ParseNatToString(n);
      NatToStringDigits(n);
      assert ParseInt(s) == Some(ParseDigits(s));
    }
  }

  /** stoi(to_string(n)) == n for every int n. */
  lemma StoiToString(n: int)
    requires IntMin <= n <= IntMax
    ensures Stoi(IntToString(n)) == Some(n)
  {
    ParseIntToString(n);
  }

  /** Distinct numbers are written differently. */
  lemma IntToStringInjective(m: int, n: int)
    ensures IntToString(m) == IntToString(n) ==> m == n
  {
    ParseIntToString(m);
    ParseIntToString(n);
  }

  lemma {:induction false} ParseDigitsPositive(s: string)
    requires |s| >= 1 && AllDigits(s) && s[0] != '0'
    ensures ParseDigits(s) >= 1
    decreases |s|
  {
    if |s| > 1 {
      ParseDigitsPositive(s[..|s| - 1]);
    } else {
      assert s[..0] == [];
    }
  }

  /** On digit strings without a leading zero, to_string undoes the parse. */
  lemma {:induction false} NatToStringParse(s: string)
    requires |s| >= 1 && AllDigits(s)
    requires s[0] != '0' || |s| == 1
    ensures NatToString(ParseDigits(s)) == s
    decreases |s|
  {
    var pre, d := s[..|s| - 1], DigitValue(s[|s| - 1]);
    if |s| == 1 {
      assert pre == [];
    } else {
      ParseDigitsPositive(pre);
      NatToStringParse(pre);
      var n := ParseDigits(s);
      assert n == ParseDigits(pre) * 10 + d;
      assert n / 10 == ParseDigits(pre) && n % 10 == d;
      assert s == pre + [s[|s| - 1]];
    }
  }

  /** The text std::to_string writes for an int: digits with no leading zero (except "0"
      itself), or '-' followed by digits with no leading zero. */
  predicate Canonical(s: string) {
    (|s| >= 1 && AllDigits(s) && (s[0] != '0' || |s| == 1)) ||
    (|s| >= 2 && s[0] == '-' && AllDigits(s[1..]) && s[1] != '0')
  }

  /** On canonical text, to_string undoes stoi, for negative numbers as well. */
  lemma StoiCanonical(s: string)
    requires Canonical(s)
    ensures Stoi(s).Some? ==> IntToString(Stoi(s).value) == s
  {
    if |s| >= 1 && AllDigits(s) && (s[0] != '0' || |s| == 1) {
      NatToStringParse(s);
    } else {
      var t := s[1..];
      ParseDigitsPositive(t);
      NatToStringParse(t);
      assert s == "-" + t;
    }
  }

  /** For an int n, stoi reads n exactly from the canonical text of n, and that text is
      what to_string writes: the canonical texts and the ints are in one-to-one
      correspondence through stoi and to_string. */
  lemma StoiIffToString(s: string, n: int)
    requires IntMin <= n <= IntMax
    ensures Canonical(s) && Stoi(s) == Some(n) <==> s == IntToString(n)
  {
    if Canonical(s) && Stoi(s) == Some(n) {
      StoiCanonical(s);
    }
    if s == IntToString(n) {
      StoiToString(n);
      NatToStringDigits(if n < 0 then -n else n);
      if n < 0 {
        assert s[1..] == NatToString(-n);
      }
    }
  }
}
