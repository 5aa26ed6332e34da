/** Decimal text: Go's `strconv.Itoa`, `Atoi` and `ParseInt`, and the digit runs they work on. */
module Decimal {
  import opened Options

  const MAX_INT64: int := 0x7fff_ffff_ffff_ffff
  const MIN_INT64: int := -0x8000_0000_0000_0000

  predicate IsDigit(c: char) { '0' <= c <= '9' }

  predicate AllDigits(s: string) { forall i :: 0 <= i < |s| ==> IsDigit(s[i]) }

  function DigitValue(c: char): (d: nat)
    requires IsDigit(c)
    ensures d < 10
  {
    c as int - '0' as int
  }

  function DigitChar(d: nat): (c: char)
    requires d < 10
    ensures IsDigit(c) && DigitValue(c) == d
  {
    '0' + d as char
  }

  /** The number a digit string denotes, leading zeros allowed. */
  function Value(s: string): nat
    requires AllDigits(s)
  {
    if s == [] then 0 else Value(s[..|s| - 1]) * 10 + DigitValue(s[|s| - 1])
  }

  function NatText(n: nat): (s: string)
    ensures AllDigits(s) && s != []
  {
    if n < 10 then [DigitChar(n)] else NatText(n / 10) + [DigitChar(n % 10)]
  }

  /** `strconv.Itoa`. */
  function IntText(n: int): (s: string)
    ensures s != []
  {
    if n < 0 then "-" + NatText(-n) else NatText(n)
  }

  lemma {:induction false} ValueOfNatText(n: nat)
    ensures Value(NatText(n)) == n
  {
    var s := NatText(n);
    if n < 10 {
      assert s[..|s| - 1] == [];
    } else {
      ValueOfNatText(n / 10);
      assert s[..|s| - 1] == NatText(n / 10);
    }
  }

  /** Numerals are the usual ones, digit by digit; a sign stands in front of negative numbers only. */
  lemma UsualNumerals(n: nat, d: nat)
    requires d < 10
    ensures NatText(d) == "0123456789"[d..d + 1]
    ensures n > 0 ==> NatText(10 * n + d) == NatText(n) + "0123456789"[d..d + 1]
    ensures IntText(n) == NatText(n) && (n > 0 ==> IntText(0 - n as int) == "-" + NatText(n))
  {
    UsualDigit(d);
    assert (10 * n + d) / 10 == n && (10 * n + d) % 10 == d;
  }

  lemma UsualDigit(d: nat)
    requires d < 10
    ensures [DigitChar(d)] == "0123456789"[d..d + 1]
  {
    assert DigitChar(d) == "0123456789"[d];
  }

  /** Digits denote a number: its own numeral behind any number of zeros, and nothing else does. */
  lemma {:induction false} DigitsDenote(s: string) returns (zeros: string)
    requires AllDigits(s) && s != ""
    ensures s == zeros + NatText(Value(s)) && forall c :: c in zeros ==> c == '0'
    decreases |s|
  {
    if |s| == 1 {
      assert s[..0] == "" && s == [s[0]];
      zeros := "";
    } else {
      var front := s[..|s| - 1];
      zeros := DigitsDenote(front);
      LastDigit(s);
      if Value(front) == 0 {
        zeros := zeros + "0";
        assert s == zeros + NatText(Value(s));
      } else {
        assert s == zeros + (NatText(Value(front)) + [s[|s| - 1]]);
      }
    }
  }

  lemma LastDigit(s: string)
    requires AllDigits(s) && s != ""
    ensures var front, d := s[..|s| - 1], DigitValue(s[|s| - 1]);
            && s == front + [DigitChar(d)] && Value(s) == 10 * Value(front) + d
            && NatText(Value(s)) == if Value(front) == 0 then [DigitChar(d)] else NatText(Value(front)) + [DigitChar(d)]
  {
    var d := DigitValue(s[|s| - 1]);
    assert Value(s) / 10 == Value(s[..|s| - 1]) && Value(s) % 10 == d;
  }

  lemma {:induction false} ZerosInFront(zeros: string, s: string)
    requires AllDigits(s) && forall c :: c in zeros ==> c == '0'
    ensures AllDigits(zeros + s) && Value(zeros + s) == Value(s)
  {
    if zeros == "" {
      assert zeros + s == s;
    } else {
      assert zeros[0] in zeros && forall c :: c in zeros[1..] ==> c in zeros;
      ZerosInFront(zeros[1..], s);
      ValueOfPadded(zeros[1..] + s);
      assert zeros + s == "0" + (zeros[1..] + s);
    }
  }

  /** No leading zero: the text of a positive number starts with `1`..`9`. */
  lemma {:induction false} NatTextHead(n: nat)
    ensures NatText(n)[0] == '0' <==> n == 0
    ensures n == 0 ==> NatText(n) == "0"
  {
    if n >= 10 {
      NatTextHead(n / 10);
      assert NatText(n)[0] == NatText(n / 10)[0];
    }
  }

  /** A zero in front changes no value: the padded form reads back as the same number. */
  lemma {:induction false} ValueOfPadded(s: string)
    requires AllDigits(s)
    ensures AllDigits("0" + s)
    ensures Value("0" + s) == Value(s)
  {
    var t := "0" + s;
    if s == [] {
      assert t[..|t| - 1] == [];
    } else {
      ValueOfPadded(s[..|s| - 1]);
      assert t[..|t| - 1] == "0" + s[..|s| - 1];
    }
  }

  lemma IntTextInjective(a: int, b: int)
    requires IntText(a) == IntText(b)
    ensures a == b
  {
    if a < 0 { assert IntText(a)[0] == '-'; }
    if b < 0 { assert IntText(b)[0] == '-'; }
    assert a >= 0 ==> IsDigit(IntText(a)[0]);
    assert b >= 0 ==> IsDigit(IntText(b)[0]);
    if a < 0 {
      assert IntText(a)[1..] == NatText(-a) && IntText(b)[1..] == NatText(-b);
      ValueOfNatText(-a);
      ValueOfNatText(-b);
    } else {
      ValueOfNatText(a);
      ValueOfNatText(b);
    }
  }

  /** `strconv.Atoi` with its error dropped: saturates at the largest int. */
  function Saturating(s: string): (n: nat)
    requires AllDigits(s)
    ensures n <= MAX_INT64
  {
    if Value(s) <= MAX_INT64 then Value(s) else MAX_INT64
  }

  /** `strconv.ParseInt(s, 10, 64)`: an optional sign and digits, within 64 bits. */
  function ParseInt(s: string): Option<int> {
    var signed := s != [] && (s[0] == '-' || s[0] == '+');
    var d := if signed then s[1..] else s;
    if d == [] || !AllDigits(d) then None
    else
      var n := if signed && s[0] == '-' then -(Value(d) as int) else Value(d);
      if MIN_INT64 <= n <= MAX_INT64 then Some(n) else None
  }

  /** An optional sign, any number of zeros, and the numeral of `n` without its sign. */
  ghost predicate Spells(s: string, sign: string, zeros: string, n: int) {
    && (sign == "" || sign == "+" || sign == "-") && (forall c :: c in zeros ==> c == '0')
    && (if sign == "-" then n <= 0 else n >= 0)
    && s == sign + (zeros + NatText(if n < 0 then -n else n))
  }

  lemma SpelledParses(s: string, sign: string, zeros: string, n: int)
    requires Spells(s, sign, zeros, n) && -0x8000_0000_0000_0000 <= n <= 0x7fff_ffff_ffff_ffff
    ensures ParseInt(s) == Some(n)
  {
    var m: nat := if n < 0 then -n else n;
    var d := zeros + NatText(m);
    ZerosInFront(zeros, NatText(m));
    ValueOfNatText(m);
    if sign == "" {
      assert s == d && IsDigit(s[0]);
    } else {
      assert s[0] == sign[0] && s[1..] == d;
    }
  }

  /** A text is an integer exactly when it spells one that fits 64 bits. */
  lemma ParseIntIff(s: string, n: int)
    ensures ParseInt(s) == Some(n) <==>
            -0x8000_0000_0000_0000 <= n <= 0x7fff_ffff_ffff_ffff && exists sign, zeros :: Spells(s, sign, zeros, n)
  {
    if ParseInt(s) == Some(n) {
      var signed := s[0] == '-' || s[0] == '+';
      var d := if signed then s[1..] else s;
      var zeros := DigitsDenote(d);
      var sign := if signed then s[..1] else "";
      assert s == sign + d;
      assert Spells(s, sign, zeros, n);
    }
    if -0x8000_0000_0000_0000 <= n <= 0x7fff_ffff_ffff_ffff && exists sign, zeros :: Spells(s, sign, zeros, n) {
      var sign, zeros :| Spells(s, sign, zeros, n);
      SpelledParses(s, sign, zeros, n);
    }
  }

  /** Length of the longest digit prefix. */
  function DigitPrefix(s: string): (n: nat)
    ensures n <= |s|
    ensures AllDigits(s[..n])
    ensures n < |s| ==> !IsDigit(s[n])
  {
    if s == [] || !IsDigit(s[0]) then 0
    else
      var n := DigitPrefix(s[1..]);
      assert s[..n + 1] == [s[0]] + s[1..][..n];
      n + 1
  }

  lemma {:induction false} DigitPrefixOf(d: string, rest: string)
    requires AllDigits(d)
    requires rest == [] || !IsDigit(rest[0])
    ensures DigitPrefix(d + rest) == |d|
  {
    if d == [] {
      assert d + rest == rest;
    } else {
      DigitPrefixOf(d[1..], rest);
      assert (d + rest)[1..] == d[1..] + rest;
    }
  }
}
