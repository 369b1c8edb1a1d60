/** Decimal text of integers, and the C++ conversion back. */
module Numerals {
  import opened Options
  import opened Tokenizer

  const DIGITS := "0123456789"

  predicate IsDigit(c: char) { '0' <= c <= '9' }

  function DigitValue(c: char): nat
    requires IsDigit(c)
  {
    (c as int) - ('0' as int)
  }

  function Digits(n: nat): (s: string)
    ensures s != "" && forall c :: c in s ==> IsDigit(c)
  {
    if n < 10 then [DIGITS[n]] else Digits(n / 10) + [DIGITS[n % 10]]
  }

  function IntText(i: int): string {
    if i < 0 then "-" + Digits(-i) else Digits(i)
  }

  /** The value of the leading digits of `s`, after `acc`. */
  function LeadingValue(s: string, acc: nat): nat {
    if s == "" || !IsDigit(s[0]) then acc else LeadingValue(s[1..], acc * 10 + DigitValue(s[0]))
  }

  predicate IsSpace(c: char) { c == ' ' || '\t' <= c <= '\r' }

  function SkipSpaces(s: string): string {
    if s != "" && IsSpace(s[0]) then SkipSpaces(s[1..]) else s
  }

  const INT_MAX: int := 0x7fff_ffff

  predicate IsInt32(i: int) { -INT_MAX - 1 <= i <= INT_MAX }

  /** `std::stoi`: leading spaces, a sign, then digits up to the first other character. It throws when
      there is no digit or the value is no `int`. */
  function Stoi(s: string): Option<int> {
    var t := SkipSpaces(s);
    var signed := t != "" && (t[0] == '-' || t[0] == '+');
    var u := if signed then t[1..] else t;
    if u == "" || !IsDigit(u[0]) then None
    else
      var v: int := LeadingValue(u, 0);
      var i: int := if signed && t[0] == '-' then -v else v;
      if IsInt32(i) then Some(i) else None
  }

  lemma {:induction false} LeadingValueAppend(s: string, c: char, acc: nat)
    requires IsDigit(c) && forall d :: d in s ==> IsDigit(d)
    ensures LeadingValue(s + [c], acc) == LeadingValue(s, acc) * 10 + DigitValue(c)
  {
    if s == "" {
      assert s + [c] == [c];
      assert [c][1..] == "";
    } else {
      assert (s + [c])[1..] == s[1..] + [c];
      LeadingValueAppend(s[1..], c, acc * 10 + DigitValue(s[0]));
    }
  }

  lemma {:induction false} DigitsRead(n: nat)
    ensures LeadingValue(Digits(n), 0) == n
  {
    if n < 10 {
      DigitAt(n);
      assert Digits(n)[1..] == "";
    } else {
      DigitAt(n % 10);
      DigitsRead(n / 10);
      LeadingValueAppend(Digits(n / 10), DIGITS[n % 10], 0);
    }
  }

  lemma DigitAt(d: nat)
    requires d < 10
    ensures IsDigit(DIGITS[d]) && DigitValue(DIGITS[d]) == d
  {}

  /** Exactly the 32-bit integers survive printing and reading. */
  lemma IntTextRead(i: int)
    ensures Stoi(IntText(i)) == if IsInt32(i) then Some(i) else None
  {
    var s := IntText(i);
    if i < 0 {
      DigitsRead(-i);
      assert s[1..] == Digits(-i);
    } else {
      DigitsRead(i);
      assert s[0] in s;
    }
  }
}
