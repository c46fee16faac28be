/** Decimal numbers as they are printed and parsed. */
module Decimal {
  import opened Options

  predicate IsDigit(c: char) {
    '0' <= c <= '9'
  }

  const FIGURES: string := "0123456789"

  function DigitOf(v: nat): (c: char)
    requires v < 10
    ensures IsDigit(c) && ValueOf(c) == v
  {
    ('0' as int + v) as char
  }

  function ValueOf(c: char): (v: nat)
    requires IsDigit(c)
    ensures v < 10 && FIGURES[v] == c
  {
    c as int - '0' as int
  }

  predicate AllDigits(s: string) {
    forall i :: 0 <= i < |s| ==> IsDigit(s[i])
  }

  function Digits(n: nat): (s: string)
    ensures |s| >= 1 && AllDigits(s)
  {
    if n < 10 then [DigitOf(n)] else Digits(n / 10) + [DigitOf(n % 10)]
  }

  /** The number without its last `i` decimal places. */
  function Shifted(n: nat, i: nat): nat {
    if i == 0 then n else Shifted(n / 10, i - 1)
  }

  /** Decimal places run from right to left, and the first one is not 0. */
  lemma {:induction false} DigitsArePlaces(n: nat, i: nat)
    ensures i < |Digits(n)| ==> Digits(n)[|Digits(n)| - 1 - i] == FIGURES[Shifted(n, i) % 10]
    ensures i < |Digits(n)| <==> i == 0 || Shifted(n, i) > 0
    decreases i
  {
    if n < 10 {
      SmallShift(n, i);
    } else if i > 0 {
      DigitsArePlaces(n / 10, i - 1);
    }
  }

  lemma {:induction false} SmallShift(n: nat, i: nat)
    requires n < 10
    ensures i > 0 ==> Shifted(n, i) == 0
  {
    if i > 0 {
      SmallShift(n / 10, i - 1);
    }
  }

  /** The number a digit string denotes after the digits read into `acc`. */
  function Value(s: string, acc: nat): nat
    requires AllDigits(s)
    decreases |s|
  {
    if s == [] then acc else Value(s[1..], 10 * acc + ValueOf(s[0]))
  }

  lemma {:induction false} ValueAppend(s: string, c: char, acc: nat)
    requires AllDigits(s) && IsDigit(c)
    ensures AllDigits(s + [c]) && Value(s + [c], acc) == 10 * Value(s, acc) + ValueOf(c)
    decreases |s|
  {
    if s == [] {
      assert [] + [c] == [c];
      assert [c][1..] == [];
    } else {
      ValueAppend(s[1..], c, 10 * acc + ValueOf(s[0]));
      assert (s + [c])[1..] == s[1..] + [c];
    }
  }

  /** Printing and reading back is the identity on every natural number. */
  lemma {:induction false} ValueDigits(n: nat)
    ensures Value(Digits(n), 0) == n
  {
    if n >= 10 {
      ValueDigits(n / 10);
      ValueAppend(Digits(n / 10), DigitOf(n % 10), 0);
    } else {
      assert [DigitOf(n)][1..] == [];
    }
  }

  const MAX_INT: int := 0x7FFF_FFFF_FFFF_FFFF

  /** strconv.Atoi on a 64-bit platform. */
  function Atoi(s: string): Option<int> {
    var negative := s != [] && s[0] == '-';
    var digits := if s != [] && (s[0] == '-' || s[0] == '+') then s[1..] else s;
    if digits == [] || !AllDigits(digits) then None
    else
      var v: int := Value(digits, 0);
      if negative then if v > MAX_INT + 1 then None else Some(-v)
      else if v > MAX_INT then None else Some(v)
  }

  lemma AtoiDigits(n: nat)
    requires n <= MAX_INT
    ensures Atoi(Digits(n)) == Some(n)
  {
    ValueDigits(n);
    assert IsDigit(Digits(n)[0]);
  }
}
