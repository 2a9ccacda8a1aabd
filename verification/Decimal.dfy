/** Decimal text: how the C++ standard library prints integers and reads them back. */
module Decimal {
  import opened Wrappers

  const INT64_MIN: int := -0x8000_0000_0000_0000
  const INT64_MAX: int := 0x7fff_ffff_ffff_ffff
  const UINT64_MAX: int := 0xffff_ffff_ffff_ffff

  predicate IsDigit(c: char) { '0' <= c <= '9' }

  predicate AllDigits(s: string) { forall c <- s :: IsDigit(c) }

  function Digit(d: nat): char
    requires d < 10
  {
    ['0', '1', '2', '3', '4', '5', '6', '7', '8', '9'][d]
  }

  function DigitValue(c: char): nat
    requires IsDigit(c)
  {
    c as int - '0' as int
  }

  /** The value of a string of digits; empty reads as 0. */
  function Value(s: string): nat
    requires AllDigits(s)
  {
    if s == "" then 0 else 10 * Value(s[..|s| - 1]) + DigitValue(s[|s| - 1])
  }

  function NatText(n: nat): (s: string)
    ensures s != "" && AllDigits(s)
  {
    if n < 10 then [Digit(n)] else NatText(n / 10) + [Digit(n % 10)]
  }

  /** `std::to_string`. */
  function IntText(n: int): string {
    if n < 0 then "-" + NatText(-n) else NatText(n)
  }

  predicate IsInt64(n: int) { INT64_MIN <= n <= INT64_MAX }

  /** `std::from_chars` into a `long long`, accepted only when it consumes the whole text. */
  function ParseInt(text: string): Option<int> {
    var negative := text != "" && text[0] == '-';
    var digits := if negative then text[1..] else text;
    if digits == "" || !AllDigits(digits) then None
    else
      var n: int := if negative then 0 - Value(digits) else Value(digits);
      if IsInt64(n) then Some(n) else None
  }

  lemma {:induction false} ValueOfNatText(n: nat)
    ensures Value(NatText(n)) == n
  {
    var s := NatText(n);
    if n >= 10 {
      assert s[..|s| - 1] == NatText(n / 10);
      ValueOfNatText(n / 10);
    } else {
      assert s[..|s| - 1] == "";
    }
  }

  lemma ParseDigits(digits: string)
    requires digits != "" && AllDigits(digits)
    ensures ParseInt(digits) == if Value(digits) <= INT64_MAX then Some(Value(digits)) else None
    ensures ParseInt("-" + digits) == if -INT64_MIN < Value(digits) then None else Some(0 - Value(digits))
  {
    assert IsDigit(digits[0]) by { assert digits[0] in digits; }
    assert ("-" + digits)[1..] == digits;
  }

  /** A printed integer reads back. */
  lemma ParsePrintedInt(n: int)
    requires IsInt64(n)
    ensures ParseInt(IntText(n)) == Some(n)
  {
    var size := if n < 0 then -n else n;
    ValueOfNatText(size);
    ParseDigits(NatText(size));
  }

  predicate Reads(text: string, digits: string, n: int) {
    && digits != "" && AllDigits(digits)
    && ((text == digits && n == Value(digits)) || (text == "-" + digits && n == 0 - Value(digits)))
  }

  /** An integer is read from digits, or a minus sign and digits, and nothing else, if it has 64 bits. */
  lemma ParsesExactly(text: string, n: int)
    ensures ParseInt(text) == Some(n) <==> IsInt64(n) && exists digits :: Reads(text, digits, n)
  {
    if ParseInt(text) == Some(n) {
      var digits := if text[0] == '-' then text[1..] else text;
      assert Reads(text, digits, n) by { assert text[0] == '-' ==> text == "-" + text[1..]; }
    }
    if digits :| IsInt64(n) && Reads(text, digits, n) {
      ParseDigits(digits);
    }
  }

  lemma NatTextInjective(m: nat, n: nat)
    requires NatText(m) == NatText(n)
    ensures m == n
  {
    ValueOfNatText(m);
    ValueOfNatText(n);
  }

  // ---- strtoull and strtoll ----

  predicate IsSpace(c: char) { c == ' ' || '\t' <= c <= '\r' }

  function SkipSpace(s: string): string {
    if s != "" && IsSpace(s[0]) then SkipSpace(s[1..]) else s
  }

  function LeadingDigits(s: string): (d: string)
    ensures AllDigits(d)
  {
    if s != "" && IsDigit(s[0]) then [s[0]] + LeadingDigits(s[1..]) else ""
  }

  predicate Signed(s: string) { s != "" && (s[0] == '-' || s[0] == '+') }

  /** `strtoull` in base 10: leading space, a sign, then as many digits as there are; 0 without any, the
      largest value on overflow, and a minus sign wraps around. */
  function ToUInt64(text: string): nat {
    var s := SkipSpace(text);
    var n := Value(LeadingDigits(if Signed(s) then s[1..] else s));
    if n > UINT64_MAX then UINT64_MAX
    else if s != "" && s[0] == '-' && n > 0 then UINT64_MAX + 1 - n
    else n
  }

  /** `strtoll` in base 10. */
  function ToInt64(text: string): int {
    var s := SkipSpace(text);
    var n := Value(LeadingDigits(if Signed(s) then s[1..] else s));
    if s != "" && s[0] == '-' then (if 0 - n < INT64_MIN then INT64_MIN else 0 - n)
    else if n > INT64_MAX then INT64_MAX else n
  }

  lemma {:induction false} LeadingDigitsOfDigits(s: string)
    requires AllDigits(s)
    ensures LeadingDigits(s) == s
  {
    if s != "" {
      LeadingDigitsOfDigits(s[1..]);
      assert [s[0]] + s[1..] == s;
    }
  }

  lemma {:induction false} SpaceIsSkipped(space: string, rest: string)
    requires (forall c <- space :: IsSpace(c)) && (rest == "" || !IsSpace(rest[0]))
    ensures SkipSpace(space + rest) == rest
  {
    if space == "" {
      assert space + rest == rest;
    } else {
      assert (space + rest)[1..] == space[1..] + rest;
      SpaceIsSkipped(space[1..], rest);
    }
  }

  lemma {:induction false} DigitsLead(digits: string, rest: string)
    requires AllDigits(digits) && (rest == "" || !IsDigit(rest[0]))
    ensures LeadingDigits(digits + rest) == digits
  {
    if digits == "" {
      assert digits + rest == rest;
    } else {
      assert (digits + rest)[1..] == digits[1..] + rest;
      DigitsLead(digits[1..], rest);
      assert [digits[0]] + digits[1..] == digits;
    }
  }

  predicate IsSign(sign: string) { sign == "" || sign == "+" || sign == "-" }

  lemma SignedDigits(space: string, sign: string, digits: string, rest: string)
    requires (forall c <- space :: IsSpace(c)) && IsSign(sign)
    requires digits != "" && AllDigits(digits) && (rest == "" || !IsDigit(rest[0]))
    ensures var s := SkipSpace(space + (sign + (digits + rest)));
      && LeadingDigits(if Signed(s) then s[1..] else s) == digits
      && (s != "" && s[0] == '-' <==> sign == "-")
  {
    var tail := digits + rest;
    assert tail[0] == digits[0] && IsDigit(digits[0]) by { assert digits[0] in digits; }
    assert sign == "" ==> sign + tail == tail;
    SpaceIsSkipped(space, sign + tail);
    assert sign != "" ==> (sign + tail)[1..] == tail;
    DigitsLead(digits, rest);
  }

  /** Space, a sign, digits, and anything that is no digit: the value of the digits, up to the largest there is. A
      minus sign negates it, which wraps an unsigned number around. */
  lemma NumberFromText(space: string, sign: string, digits: string, rest: string)
    requires (forall c <- space :: IsSpace(c)) && IsSign(sign)
    requires digits != "" && AllDigits(digits) && (rest == "" || !IsDigit(rest[0]))
    ensures var text, n := space + (sign + (digits + rest)), Value(digits);
      && ToUInt64(text) ==
           (if n > UINT64_MAX then UINT64_MAX else if sign == "-" && n > 0 then UINT64_MAX + 1 - n else n)
      && ToInt64(text) ==
           if sign == "-" then (if 0 - n < INT64_MIN then INT64_MIN else 0 - n)
           else if n > INT64_MAX then INT64_MAX else n
  {
    SignedDigits(space, sign, digits, rest);
  }

  lemma ToUInt64OfNatText(n: nat)
    requires n <= UINT64_MAX
    ensures ToUInt64(NatText(n)) == n
  {
    var s := NatText(n);
    assert IsDigit(s[0]) by { assert s[0] in s; }
    LeadingDigitsOfDigits(s);
    ValueOfNatText(n);
  }

  lemma ToInt64OfDigits(digits: string)
    requires digits != "" && AllDigits(digits)
    ensures ToInt64(digits) == if Value(digits) > INT64_MAX then INT64_MAX else Value(digits)
    ensures ToInt64("-" + digits) == if 0 - Value(digits) < INT64_MIN then INT64_MIN else 0 - Value(digits)
  {
    assert IsDigit(digits[0]) by { assert digits[0] in digits; }
    LeadingDigitsOfDigits(digits);
    assert ("-" + digits)[1..] == digits;
  }

  lemma ToInt64OfIntText(n: int)
    requires IsInt64(n)
    ensures ToInt64(IntText(n)) == n
  {
    var size := if n < 0 then -n else n;
    ValueOfNatText(size);
    ToInt64OfDigits(NatText(size));
  }
}
