/** Decimal numerals, as the headers and the account's records carry them. */
module Decimals {
  import opened Wrappers

  predicate IsDigit(c: char) { '0' <= c <= '9' }

  predicate AllDigits(s: string) { forall i :: 0 <= i < |s| ==> IsDigit(s[i]) }

  function Value(s: string): nat
    requires AllDigits(s)
  {
    if s == [] then 0 else Value(s[..|s| - 1]) * 10 + (s[|s| - 1] as int - '0' as int)
  }

  function Digits(n: nat): string {
    (if n < 10 then [] else Digits(n / 10)) + [('0' as int + n % 10) as char]
  }

  /** What is written reads back, and is a non-empty run of digits. */
  lemma {:induction false} DigitsReadBack(n: nat)
    ensures Digits(n) != [] && AllDigits(Digits(n)) && Value(Digits(n)) == n
  {
    var last := [('0' as int + n % 10) as char];
    if n < 10 {
      assert Digits(n) == last;
      assert Value(last[..0]) == 0;
    } else {
      DigitsReadBack(n / 10);
      assert Digits(n)[..|Digits(n)| - 1] == Digits(n / 10);
    }
  }

  /** The length of the run of digits `s` begins with. */
  function DigitRun(s: string): (n: nat)
    ensures n <= |s| && AllDigits(s[..n])
    ensures n < |s| ==> !IsDigit(s[n])
  {
    if s == [] || !IsDigit(s[0]) then 0
    else
      var n := 1 + DigitRun(s[1..]);
      assert forall i :: 1 <= i < n ==> s[i] == s[1..][i - 1];
      n
  }

  /** The run of digits before something else is all of what was written there. */
  lemma {:induction false} DigitRunOf(digits: string, rest: string)
    requires AllDigits(digits) && (rest == [] || !IsDigit(rest[0]))
    ensures DigitRun(digits + rest) == |digits|
    ensures (digits + rest)[..|digits|] == digits && (digits + rest)[|digits|..] == rest
  {
    if digits == [] {
      assert digits + rest == rest;
    } else {
      DigitRunOf(digits[1..], rest);
      assert (digits + rest)[1..] == digits[1..] + rest;
    }
  }

  predicate IsSpace(c: char) { c == ' ' || '\t' <= c <= '\r' || '\U{1C}' <= c <= '\U{1F}' }

  function StripLeft(s: string): string {
    if s != [] && IsSpace(s[0]) then StripLeft(s[1..]) else s
  }

  function StripRight(s: string): string {
    if s != [] && IsSpace(s[|s| - 1]) then StripRight(s[..|s| - 1]) else s
  }

  function Strip(s: string): string { StripRight(StripLeft(s)) }

  lemma {:induction false} StripNothing(s: string)
    requires s != [] && !IsSpace(s[0]) && !IsSpace(s[|s| - 1])
    ensures Strip(s) == s
  {
  }

  /** The digits of an integer literal that may group them with single underscores. */
  function Ungrouped(s: string): Option<string> {
    var n := DigitRun(s);
    if n == 0 then None
    else if n == |s| then Some(s)
    else if s[n] != '_' then None
    else match Ungrouped(s[n + 1..]) case None => None case Some(rest) => Some(s[..n] + rest)
  }

  /** A sign and an integer literal, with space around them. */
  function ParseInt(s: string): Option<int> {
    var text := Strip(s);
    var negative := |text| > 0 && text[0] == '-';
    var signed := |text| > 0 && (text[0] == '-' || text[0] == '+');
    match Ungrouped(if signed then text[1..] else text)
    case None => None
    case Some(digits) => if !AllDigits(digits) then None else Some(if negative then 0 - Value(digits) else Value(digits))
  }

  lemma {:induction false} RunOfDigits(s: string)
    requires AllDigits(s)
    ensures DigitRun(s) == |s|
  {
    if s != [] { RunOfDigits(s[1..]); }
  }

  lemma {:induction false} NumeralParses(s: string)
    requires |s| > 0 && AllDigits(s)
    ensures ParseInt(s) == Some(Value(s))
  {
    assert IsDigit(s[0]) && IsDigit(s[|s| - 1]);
    StripNothing(s);
    RunOfDigits(s);
  }
}
