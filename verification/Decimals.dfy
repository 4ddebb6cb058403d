/** Decimal text of unsigned numbers: `std::to_string`, and `std::stoull` with its 64-bit limit and the white space it
    skips. What is printed has digits only and determines the number, which is what separates the counter in the text of
    a branch id. */
module Decimals {
  datatype Option<T> = None | Some(value: T)

  const TWO_64: nat := 0x1_0000_0000_0000_0000

  function Digit(d: nat): char
    requires d < 10
  {
    "0123456789"[d]
  }

  predicate IsDigit(c: char) {
    '0' <= c <= '9'
  }

  function DigitValue(c: char): (d: nat)
    requires IsDigit(c)
    ensures d < 10
  {
    c as int - '0' as int
  }

  lemma DigitRoundTrip(d: nat)
    requires d < 10
    ensures IsDigit(Digit(d)) && DigitValue(Digit(d)) == d
  {
  }

  predicate AllDigits(s: string) {
    forall i :: 0 <= i < |s| ==> IsDigit(s[i])
  }

  /** `std::to_string`. */
  function Dec(n: nat): (s: string)
    ensures s != []
  {
    if n < 10 then [Digit(n)] else Dec(n / 10) + [Digit(n % 10)]
  }

  function DigitsValue(s: string): nat
    requires AllDigits(s)
  {
    if s == [] then 0 else 10 * DigitsValue(s[..|s| - 1]) + DigitValue(s[|s| - 1])
  }

  lemma {:induction false} DecDigits(n: nat)
    ensures AllDigits(Dec(n)) && DigitsValue(Dec(n)) == n
  {
    DigitRoundTrip(n % 10);
    if n >= 10 {
      DecDigits(n / 10);
      var s := Dec(n);
      assert s[..|s| - 1] == Dec(n / 10);
    } else {
      assert Dec(n)[..0] == [];
    }
  }

  lemma DecInjective(m: nat, n: nat)
    requires Dec(m) == Dec(n)
    ensures m == n
  {
    DecDigits(m);
    DecDigits(n);
  }

  predicate IsSpace(c: char) {
    c == ' ' || '\t' <= c <= '\r'
  }

  function SkipSpace(s: string): string {
    if s != [] && IsSpace(s[0]) then SkipSpace(s[1..]) else s
  }

  /** `std::stoull` that must consume the whole text; None stands for every kind of failure.
      A minus sign is legal and negates modulo 2^64. */
  function ParseSnapshotId(text: string): (r: Option<nat>)
    ensures r.Some? ==> r.value < TWO_64
  {
    var s := SkipSpace(text);
    var signed := s != [] && (s[0] == '+' || s[0] == '-');
    var digits := if signed then s[1..] else s;
    if digits == [] || !AllDigits(digits) || DigitsValue(digits) >= TWO_64 then None
    else if signed && s[0] == '-' then Some((TWO_64 - DigitsValue(digits)) % TWO_64)
    else Some(DigitsValue(digits))
  }

  /** A printed number parses back, unless it does not fit 64 bits. */
  lemma ParseDec(n: nat)
    ensures ParseSnapshotId(Dec(n)) == if n < TWO_64 then Some(n) else None
  {
    DecDigits(n);
    assert IsDigit(Dec(n)[0]);
  }

  /** Positional notation: the digits '0' to '9' have the codes 48 to 57, and the last digit counts once. */
  lemma DecPositional(n: nat, d: nat)
    requires d < 10
    ensures Dec(d) == [(48 + d) as char]
    ensures n > 0 ==> Dec(10 * n + d) == Dec(n) + [(48 + d) as char]
  {
  }

  // ----- what parses -----

  /** Blank, tab, line feed, vertical tab, form feed or carriage return. */
  ghost predicate White(s: string) {
    forall i :: 0 <= i < |s| ==> s[i] as int == 32 || 9 <= s[i] as int <= 13
  }

  /** The digits 0 to 9. */
  ghost predicate Digits(s: string) {
    forall i :: 0 <= i < |s| ==> 48 <= s[i] as int <= 57
  }

  /** The digits read from left to right. */
  ghost function Numeral(s: string, read: nat): nat
    requires Digits(s)
  {
    if s == [] then read else Numeral(s[1..], 10 * read + (s[0] as int - 48))
  }

  lemma {:induction false} NumeralSnoc(s: string, c: char, read: nat)
    requires Digits(s) && IsDigit(c)
    ensures Digits(s + [c]) && Numeral(s + [c], read) == 10 * Numeral(s, read) + (c as int - 48)
  {
    if s == [] {
      assert s + [c] == [c];
    } else {
      NumeralSnoc(s[1..], c, 10 * read + (s[0] as int - 48));
      assert (s + [c])[1..] == s[1..] + [c];
    }
  }

  lemma {:induction false} DigitsValueIs(s: string)
    requires Digits(s)
    ensures AllDigits(s) && DigitsValue(s) == Numeral(s, 0)
  {
    if s != [] {
      var n := |s| - 1;
      DigitsValueIs(s[..n]);
      NumeralSnoc(s[..n], s[n], 0);
      assert s == s[..n] + [s[n]];
    }
  }

  lemma {:induction false} SpaceSkipped(space: string, rest: string)
    requires White(space) && (rest != [] ==> !IsSpace(rest[0]))
    ensures SkipSpace(space + rest) == rest
  {
    if space == [] {
      assert space + rest == rest;
    } else {
      assert (space + rest)[1..] == space[1..] + rest;
      SpaceSkipped(space[1..], rest);
    }
  }

  lemma {:induction false} SkippedSpace(s: string) returns (space: string)
    ensures White(space) && s == space + SkipSpace(s)
  {
    if s != [] && IsSpace(s[0]) {
      var more := SkippedSpace(s[1..]);
      space := [s[0]] + more;
      assert s == [s[0]] + s[1..];
    } else {
      space := [];
    }
  }

  /** White space, perhaps a sign, and digits up to the end. */
  ghost predicate NumberText(text: string, space: string, sign: string, digits: string) {
    && text == space + sign + digits && White(space) && (sign == "" || sign == "+" || sign == "-")
    && digits != "" && Digits(digits)
  }

  /** Numbers must fit 64 bits; a minus sign negates them modulo 2^64. */
  ghost function Worth(sign: string, n: nat): Option<nat> {
    if n >= 0x1_0000_0000_0000_0000 then None
    else if sign == "-" && n > 0 then Some(0x1_0000_0000_0000_0000 - n)
    else Some(n)
  }

  /** What follows the white space: no more of it, and the sign is seen in its first character. */
  lemma SignSplit(sign: string, digits: string)
    requires (sign == "" || sign == "+" || sign == "-") && digits != "" && Digits(digits)
    ensures var s := sign + digits; !IsSpace(s[0]) && s[|sign|..] == digits && s[0..] == s
    ensures var s := sign + digits; (s[0] == '+' <==> sign == "+") && (s[0] == '-' <==> sign == "-")
  {
    assert 48 <= digits[0] as int <= 57;
  }

  lemma ParsesAs(text: string, space: string, sign: string, digits: string)
    requires NumberText(text, space, sign, digits)
    ensures ParseSnapshotId(text) == Worth(sign, Numeral(digits, 0))
  {
    hide DigitsValue, Numeral, SkipSpace, AllDigits, IsSpace, Digits, White, IsDigit;
    var s := sign + digits;
    SignSplit(sign, digits);
    assert text == space + s;
    SpaceSkipped(space, s);
    DigitsValueIs(digits);
    Negated(Numeral(digits, 0));
  }

  lemma Negated(n: nat)
    ensures n < TWO_64 ==> (TWO_64 - n) % TWO_64 == if n > 0 then TWO_64 - n else 0
  {
  }

  /** Exactly such texts parse, as far as their numbers fit, and to what they are worth. */
  lemma ParseIff(text: string, v: nat)
    ensures ParseSnapshotId(text) == Some(v) <==> exists space, sign, digits ::
      NumberText(text, space, sign, digits) && Worth(sign, Numeral(digits, 0)) == Some(v)
  {
    forall space, sign, digits | NumberText(text, space, sign, digits)
      ensures ParseSnapshotId(text) == Worth(sign, Numeral(digits, 0))
    {
      ParsesAs(text, space, sign, digits);
    }
    if ParseSnapshotId(text).Some? {
      var space := SkippedSpace(text);
      var s := SkipSpace(text);
      var sign := if s[0] == '+' || s[0] == '-' then [s[0]] else "";
      var digits := s[|sign|..];
      assert s == sign + digits;
      assert text == space + sign + digits by { assert space + (sign + digits) == space + sign + digits; }
      assert NumberText(text, space, sign, digits);
    }
  }
}
