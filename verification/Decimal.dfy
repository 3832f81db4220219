/**
 Decimal integers as the server prints them (`std::to_string`) and reads them
 (`std::from_chars` over the whole string into an int64).
 */
module Decimal {
  import opened Base

  predicate IsDigit(c: char) {
    '0' <= c <= '9'
  }

  function DigitValue(c: char): (d: int)
    requires IsDigit(c)
  {
    c as int - '0' as int
  }

  function DigitChar(d: int): (c: char)
    requires 0 <= d < 10
    ensures IsDigit(c) && DigitValue(c) == d
  {
    ('0' as int + d) as char
  }

  predicate AllDigits(s: Bytes) {
    forall i :: 0 <= i < |s| ==> IsDigit(s[i])
  }

  /** Value of a digit string, most significant digit first. */
  function DigitsValue(s: Bytes): nat
    requires AllDigits(s)
  {
    if s == [] then 0
    else 10 * DigitsValue(s[..|s| - 1]) + DigitValue(s[|s| - 1])
  }

  function NatToString(n: nat): (s: Bytes)
    ensures s != [] && AllDigits(s) && (s[0] == '0' ==> s == "0")
    ensures DigitsValue(s) == n
  {
    if n < 10 then
      var s := [DigitChar(n)];
      assert s[..|s| - 1] == [];
      s
    else
      var init := NatToString(n / 10);
      var s := init + [DigitChar(n % 10)];
      assert s[..|s| - 1] == init;
      s
  }

  function ToString(n: int): (s: Bytes)
    ensures s != []
    ensures forall i :: 0 <= i < |s| ==> IsDigit(s[i]) || s[i] == '-'
    ensures n >= 0 ==> AllDigits(s)
    ensures n < 0 ==> s[0] == '-'
  {
    if n < 0 then "-" + NatToString(-n) else NatToString(n)
  }

  /** Strict parse: the whole string is a base-10 int64. */
  function ParseI64(s: Bytes): (r: Option<int>)
    ensures r.Some? ==> InI64(r.value)
  {
    if s == [] then None
    else
      var digits := if s[0] == '-' then s[1..] else s;
      if digits == [] || !AllDigits(digits) then None
      else
        var v: int := if s[0] == '-' then 0 - DigitsValue(digits) else DigitsValue(digits);
        if InI64(v) then Some(v) else None
  }

  /** Printing then parsing an int64 gives it back, and nothing outside int64 parses. */
  lemma PrintParse(n: int)
    ensures ParseI64(ToString(n)) == if InI64(n) then Some(n) else None
  {
  }

  function Zeros(p: nat): (z: Bytes)
    ensures |z| == p && forall i :: 0 <= i < p ==> z[i] == '0'
  {
    seq(p, _ => '0')
  }

  /** The text is n in decimal: zeros may come first, and a minus sign before a number that is not positive. */
  predicate Spells(s: Bytes, n: int, p: nat) {
    || (n >= 0 && s == Zeros(p) + NatToString(n))
    || (n <= 0 && s == "-" + Zeros(p) + NatToString(-n))
  }

  lemma {:induction false} PaddedValue(p: nat, n: nat)
    ensures AllDigits(Zeros(p) + NatToString(n)) && DigitsValue(Zeros(p) + NatToString(n)) == n
    decreases n
  {
    var s := Zeros(p) + NatToString(n);
    var init := s[..|s| - 1];
    if n < 10 {
      assert init == Zeros(p);
      ZerosValue(p);
    } else {
      PaddedValue(p, n / 10);
      assert init == Zeros(p) + NatToString(n / 10);
    }
  }

  lemma {:induction false} ZerosValue(p: nat)
    ensures AllDigits(Zeros(p)) && DigitsValue(Zeros(p)) == 0
  {
    if p > 0 {
      ZerosValue(p - 1);
      assert Zeros(p)[..p - 1] == Zeros(p - 1);
    }
  }

  /** Every digit string is its value, printed, with zeros before it. */
  lemma {:induction false} DigitsSpell(s: Bytes) returns (p: nat)
    requires s != [] && AllDigits(s)
    ensures s == Zeros(p) + NatToString(DigitsValue(s))
    decreases |s|
  {
    var n := |s| - 1;
    var init := s[..n];
    assert s == init + [s[n]];
    var d := DigitValue(s[n]);
    assert DigitChar(d) == s[n];
    if init == [] {
      p := 0;
    } else {
      var q := DigitsSpell(init);
      var v := DigitsValue(init);
      if v == 0 {
        p := |init|;
        assert init == Zeros(p);
      } else {
        p := q;
        assert DigitsValue(s) / 10 == v && DigitsValue(s) % 10 == d;
      }
    }
  }

  /** What is accepted as an integer: exactly the decimal spellings of the int64s. */
  lemma ParseMeans(s: Bytes, n: int)
    ensures ParseI64(s) == Some(n) <==> InI64(n) && exists p: nat :: Spells(s, n, p)
  {
    if ParseI64(s) == Some(n) {
      var digits := if s[0] == '-' then s[1..] else s;
      var p := DigitsSpell(digits);
      assert Spells(s, n, p);
    }
    if InI64(n) {
      forall p: nat | Spells(s, n, p)
        ensures ParseI64(s) == Some(n)
      {
        SpellingParses(s, n, p);
      }
    }
  }

  lemma SpellingParses(s: Bytes, n: int, p: nat)
    requires InI64(n) && Spells(s, n, p)
    ensures ParseI64(s) == Some(n)
  {
    var digits := Zeros(p) + NatToString(if n < 0 then -n else n);
    PaddedValue(p, if n < 0 then -n else n);
    if s == digits {
      assert IsDigit(s[0]);
    } else {
      assert s[1..] == digits;
    }
  }

  lemma ToStringInjective(a: int, b: int)
    requires ToString(a) == ToString(b)
    ensures a == b
  {
    assert a < 0 <==> b < 0;
    if a < 0 {
      assert ToString(a)[1..] == NatToString(-a);
      assert ToString(b)[1..] == NatToString(-b);
    }
  }

  function Pow10(k: nat): nat {
    if k == 0 then 1 else 10 * Pow10(k - 1)
  }

  lemma PowerOfTen()
    ensures Pow10(19) == 1_0000_000_000_000_000_000
  {
    assert Pow10(4) == 10_000;
    assert Pow10(8) == 100_000_000;
    assert Pow10(12) == 1_000_000_000_000;
    assert Pow10(16) == 10_000_000_000_000_000;
  }

  /** A number below 10^k prints in at most k digits. */
  lemma {:induction false} PrintedLength(n: nat, k: nat)
    requires k > 0 && n < Pow10(k)
    ensures |NatToString(n)| <= k
  {
    assert Pow10(1) == 10 * Pow10(0);
    if n >= 10 {
      assert k > 1;
      PrintedLength(n / 10, k - 1);
    }
  }
}
