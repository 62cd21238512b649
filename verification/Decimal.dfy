// Printing integers with %d and reading them back with atoi.
module Decimal {
  import opened Basics
  import opened Text

  const LONG_MIN: int := -0x8000_0000_0000_0000
  const LONG_MAX: int := 0x7fff_ffff_ffff_ffff

  /** What isspace accepts. */
  const SPACES: set<Byte> := {' ', '\t', '\n', '\U{0B}', '\U{0C}', '\r'}

  predicate IsDigit(c: Byte) { '0' <= c <= '9' }
  function DigitValue(c: Byte): nat requires IsDigit(c) { c as int - '0' as int }
  function DigitOf(d: nat): (c: Byte)
    requires d < 10
    ensures IsDigit(c) && DigitValue(c) == d
  {
    ('0' as int + d) as char
  }

  /** %d of a number that is not negative; also what std::to_string prints. */
  function NatText(n: nat): string {
    if n < 10 then [DigitOf(n)] else NatText(n / 10) + [DigitOf(n % 10)]
  }

  /** %d */
  function IntText(n: int): string {
    if n < 0 then "-" + NatText(-n) else NatText(n)
  }

  /** The value of the digits at the front of s, read on from `sofar`. */
  function DigitsFrom(s: string, sofar: nat): nat {
    if s == [] || !IsDigit(s[0]) then sofar else DigitsFrom(s[1..], 10 * sofar + DigitValue(s[0]))
  }

  function SignedDigits(s: string): int {
    if s != [] && s[0] == '-' then 0 - DigitsFrom(s[1..], 0)
    else if s != [] && s[0] == '+' then DigitsFrom(s[1..], 0)
    else DigitsFrom(s, 0)
  }

  /** The low 32 bits, read as a signed number. */
  function ToInt32(n: int): (r: int)
    ensures INT_MIN <= r <= INT_MAX
    ensures INT_MIN <= n <= INT_MAX ==> r == n
  {
    var u := n % 0x1_0000_0000;
    if u <= INT_MAX then u else u - 0x1_0000_0000
  }

  /** atoi: skip white space, read a sign and digits, saturate at the range of long, cut to an int. */
  function Atoi(s: string): (r: int)
    ensures INT_MIN <= r <= INT_MAX
  {
    var v := SignedDigits(s[FindFirstNotOf(s, SPACES, 0)..]);
    ToInt32(if v < LONG_MIN then LONG_MIN else if v > LONG_MAX then LONG_MAX else v)
  }

  lemma {:induction false} DigitsOfNat(n: nat, rest: string)
    ensures DigitsFrom(NatText(n) + rest, 0) == DigitsFrom(rest, n)
  {
    if n < 10 {
      assert ([DigitOf(n)] + rest)[1..] == rest;
    } else {
      var last := [DigitOf(n % 10)];
      assert NatText(n) + rest == NatText(n / 10) + (last + rest);
      DigitsOfNat(n / 10, last + rest);
      assert (last + rest)[1..] == rest;
    }
  }

  lemma {:induction false} NatTextIsDigits(n: nat)
    ensures NatText(n) != [] && forall i :: 0 <= i < |NatText(n)| ==> IsDigit(NatText(n)[i])
  {
    if n >= 10 {
      NatTextIsDigits(n / 10);
    }
  }

  /** Printing is in base ten. */
  lemma NatTextTimesTen(n: nat, d: nat)
    requires d < 10
    ensures NatText(10 * n + d) == (if n == 0 then [] else NatText(n)) + ['0' + d as char]
  {
    if n == 0 {
      assert [] + [DigitOf(d)] == [DigitOf(d)];
    } else {
      assert (10 * n + d) / 10 == n && (10 * n + d) % 10 == d;
    }
  }

  lemma {:induction false} ZerosCountNothing(zeros: nat, rest: string)
    ensures DigitsFrom(seq(zeros, _ => '0') + rest, 0) == DigitsFrom(rest, 0)
  {
    var s := seq(zeros, _ => '0') + rest;
    if zeros == 0 {
      assert s == rest;
    } else {
      assert s[0] == '0' && s[1..] == seq(zeros - 1, _ => '0') + rest;
      ZerosCountNothing(zeros - 1, rest);
    }
  }

  /** The clamped number cut to its low 32 bits. */
  predicate LowBits(r: int, v: int) {
    INT_MIN <= r <= INT_MAX && (r - Max(LONG_MIN, Min(v, LONG_MAX))) % 0x1_0000_0000 == 0
  }

  lemma SpacesAreSkipped(pre: string, s: string)
    requires Only(pre, SPACES) && (s == [] || s[0] !in SPACES)
    ensures LowBits(Atoi(pre + s), SignedDigits(s))
  {
    hide SignedDigits;
    SkipFront(pre, s);
  }

  /** What is in front of a text and not looked for is skipped. */
  lemma SkipFront(pre: string, s: string)
    requires Only(pre, SPACES) && (s == [] || s[0] !in SPACES)
    ensures FindFirstNotOf(pre + s, SPACES, 0) == |pre| && (pre + s)[|pre|..] == s
  {
    hide FindFirstNotOf;
    var t := pre + s;
    assert forall j :: 0 <= j < |pre| ==> t[j] == pre[j];
    assert s != [] ==> t[|pre|] == s[0];
  }

  predicate Sign(s: string) { s == "" || s == "+" || s == "-" }

  /** What comes after white space: a sign, then digits if there are any. */
  lemma SignedIs(sign: string, digits: string)
    requires Sign(sign)
    requires sign == "" && digits != [] ==> digits[0] !in SPACES && digits[0] != '+' && digits[0] != '-'
    ensures sign + digits == [] || (sign + digits)[0] !in SPACES
    ensures SignedDigits(sign + digits) == if sign == "-" then 0 - DigitsFrom(digits, 0) else DigitsFrom(digits, 0)
  {
    hide DigitsFrom;
    if sign == "" {
      assert sign + digits == digits;
    } else {
      assert (sign + digits)[0] == sign[0] && (sign + digits)[1..] == digits;
    }
  }

  /** atoi of a text that holds a number behind white space and a sign: the number,
      however large, saturated and cut. */
  lemma AtoiOfNumber(pre: string, sign: string, zeros: nat, n: nat, rest: string)
    requires Only(pre, SPACES) && Sign(sign) && (rest == [] || !IsDigit(rest[0]))
    ensures LowBits(Atoi(pre + (sign + (seq(zeros, _ => '0') + (NatText(n) + rest)))), if sign == "-" then 0 - n else n)
  {
    hide DigitsFrom, NatText, Atoi, SignedDigits, LowBits, Sign;
    var digits := seq(zeros, _ => '0') + (NatText(n) + rest);
    NatTextIsDigits(n);
    ZerosCountNothing(zeros, NatText(n) + rest);
    DigitsOfNat(n, rest);
    NothingMore(rest, n);
    assert digits != [] && IsDigit(digits[0]);
    SignedIs(sign, digits);
    SpacesAreSkipped(pre, sign + digits);
  }

  lemma NothingMore(rest: string, sofar: nat)
    requires rest == [] || !IsDigit(rest[0])
    ensures DigitsFrom(rest, sofar) == sofar
  {
  }

  /** And 0 where there is none. */
  lemma AtoiOfNoNumber(pre: string, sign: string, rest: string)
    requires Only(pre, SPACES) && Sign(sign) && (rest == [] || !IsDigit(rest[0]))
    requires sign == "" && rest != [] ==> rest[0] !in SPACES && rest[0] != '+' && rest[0] != '-'
    ensures Atoi(pre + (sign + rest)) == 0
  {
    hide Atoi, SignedDigits, Sign;
    SignedIs(sign, rest);
    SpacesAreSkipped(pre, sign + rest);
  }

  /** atoi gives back every printed int, whatever follows that is not a digit. */
  lemma AtoiOfIntText(n: int, rest: string)
    requires INT_MIN <= n <= INT_MAX
    requires rest == [] || !IsDigit(rest[0])
    ensures Atoi(IntText(n) + rest) == n
  {
    hide Atoi, NatText;
    var m, sign := if n < 0 then -n else n, if n < 0 then "-" else "";
    AtoiOfNumber([], sign, 0, m, rest);
    assert IntText(n) + rest == [] + (sign + (seq(0, _ => '0') + (NatText(m) + rest)));
  }
}
