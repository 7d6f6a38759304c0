/** Decimal integers as strconv prints and parses them. */
module Decimal {
  import opened Wrappers

  predicate IsDigit(c: char) {
    '0' <= c <= '9'
  }

  predicate AllDigits(s: string) {
    forall i :: 0 <= i < |s| ==> IsDigit(s[i])
  }

  function DigitChar(d: nat): (c: char)
    requires d < 10
    ensures IsDigit(c)
  {
    '0' + d as char
  }

  function DigitValue(c: char): (d: nat)
    requires IsDigit(c)
    ensures d < 10
  {
    (c as int) - ('0' as int)
  }

  function Digits(n: nat): (s: string)
    ensures |s| > 0 && AllDigits(s)
  {
    if n < 10 then [DigitChar(n)] else Digits(n / 10) + [DigitChar(n % 10)]
  }

  function Value(s: string): nat
    requires AllDigits(s)
  {
    if s == [] then 0 else Value(s[..|s| - 1]) * 10 + DigitValue(s[|s| - 1])
  }

  lemma {:induction false} ValueOfDigits(n: nat)
    ensures Value(Digits(n)) == n
    decreases n
  {
    if n < 10 {
      assert Digits(n)[..0] == [];
    } else {
      ValueOfDigits(n / 10);
      var s := Digits(n);
      assert s[..|s| - 1] == Digits(n / 10);
    }
  }

  // strconv.FormatInt(n, 10).
  function Format(n: int): (s: string)
    ensures |s| > 0 && forall i :: 0 <= i < |s| ==> IsDigit(s[i]) || s[i] == '-'
  {
    if n < 0 then "-" + Digits(-n) else Digits(n)
  }

  // strconv.ParseInt(s, 10, 64); None is its error.
  function Parse(s: string): Option<Int64> {
    if s == "" then None
    else
      var signed := s[0] == '-' || s[0] == '+';
      var body := if signed then s[1..] else s;
      if body == "" || !AllDigits(body) then None
      else
        var n: int := Value(body);
        var v := if s[0] == '-' then -n else n;
        if MIN_INT64 <= v <= MAX_INT64 then Some(v) else None
  }

  lemma ParseFormat(n: Int64)
    ensures Parse(Format(n)) == Some(n)
  {
    var m: int := n;
    if m < 0 {
      ValueOfDigits(-m);
      assert Format(m)[1..] == Digits(-m);
    } else {
      ValueOfDigits(m);
      assert IsDigit(Digits(m)[0]);
    }
  }

  lemma FormatInjective(a: int, b: int)
    requires Format(a) == Format(b)
    ensures a == b
  {
    ValueOfDigits(if a < 0 then -a else a);
    ValueOfDigits(if b < 0 then -b else b);
    assert Format(a)[0] == '-' <==> a < 0 by {
      assert a >= 0 ==> IsDigit(Digits(a)[0]);
    }
    assert Format(b)[0] == '-' <==> b < 0 by {
      assert b >= 0 ==> IsDigit(Digits(b)[0]);
    }
    if a < 0 && b < 0 {
      assert Format(a)[1..] == Digits(-a) && Format(b)[1..] == Digits(-b);
    }
  }
}
