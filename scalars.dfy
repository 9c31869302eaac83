/** Textual forms of the scalar kinds the codec supports: unsigned
    integers of a given bit width, booleans and characters. They stand
    for Rust's `to_string` (encoding) and `str::parse` (decoding); a parse
    failure becomes a Deserialize error. */
module Scalars {
  import opened Errors

  function Pow2(bits: nat): (r: nat)
    ensures r >= 1
  {
    if bits == 0 then 1 else 2 * Pow2(bits - 1)
  }

  predicate IsDigit(c: char) { '0' <= c <= '9' }

  predicate AllDigits(s: string) {
    forall i :: 0 <= i < |s| ==> IsDigit(s[i])
  }

  function DigitValue(c: char): nat
    requires IsDigit(c)
  {
    c as int - '0' as int
  }

  function Digit(d: nat): (c: char)
    requires d < 10
    ensures IsDigit(c) && DigitValue(c) == d
  {
    (d + '0' as int) as char
  }

  /** Decimal text of `n` without leading zeros (`u64::to_string`). */
  function FormatNat(n: nat): (s: string)
    ensures s != []
    ensures forall i :: 0 <= i < |s| ==> IsDigit(s[i])
  {
    if n < 10 then [Digit(n)] else FormatNat(n / 10) + [Digit(n % 10)]
  }

  /** The number the digits `s` denote, read left to right after `acc`. */
  function DigitsValue(acc: nat, s: string): nat
    requires forall i :: 0 <= i < |s| ==> IsDigit(s[i])
    decreases s
  {
    if s == [] then acc else DigitsValue(10 * acc + DigitValue(s[0]), s[1..])
  }

  /** Rust's digit loop for an unsigned type whose values are below
      `bound`: the first non-digit is an invalid-digit error, and a
      running value that reaches `bound` is an overflow error. */
  function ParseDigits(acc: nat, s: string, bound: nat): (r: Result<nat>)
    requires acc < bound
    ensures r.Ok? ==> r.value < bound
    ensures r.Err? ==> r.error.Deserialize?
    decreases s
  {
    if s == [] then Ok(acc)
    else if !IsDigit(s[0]) then Err(Deserialize("invalid digit found in string"))
    else if 10 * acc + DigitValue(s[0]) >= bound then Err(Deserialize("number too large to fit in target type"))
    else ParseDigits(10 * acc + DigitValue(s[0]), s[1..], bound)
  }

  /** The digits `str::parse` reads for an unsigned type: `s` without
      one optional leading `+`. */
  function UnsignedDigits(s: string): string
  {
    if s != [] && s[0] == '+' then s[1..] else s
  }

  /** `str::parse` for an unsigned integer of `bits` bits: an optional
      leading `+`, then at least one decimal digit (leading zeros
      allowed) whose value fits the width. */
  function ParseUInt(s: string, bits: nat): (r: Result<nat>)
    ensures var ds := UnsignedDigits(s);
      r.Ok? <==> ds != [] && AllDigits(ds) && DigitsValue(0, ds) < Pow2(bits)
    ensures r.Ok? ==> AllDigits(UnsignedDigits(s)) && r.value == DigitsValue(0, UnsignedDigits(s))
    ensures r.Ok? ==> r.value < Pow2(bits)
    ensures r.Err? ==> r.error.Deserialize?
  {
    ParseDigitsSpec(0, UnsignedDigits(s), Pow2(bits));
    if s == [] then Err(Deserialize("cannot parse integer from empty string"))
    else if s == "+" then Err(Deserialize("invalid digit found in string"))
    else ParseDigits(0, UnsignedDigits(s), Pow2(bits))
  }

  /** The digit loop succeeds exactly on all-digit text whose value stays
      below the bound, and then gives that value. */
  lemma {:induction false} ParseDigitsSpec(acc: nat, s: string, bound: nat)
    requires acc < bound
    ensures ParseDigits(acc, s, bound).Ok? <==> AllDigits(s) && DigitsValue(acc, s) < bound
    ensures ParseDigits(acc, s, bound).Ok? ==> AllDigits(s) && ParseDigits(acc, s, bound).value == DigitsValue(acc, s)
    decreases s
  {
    if s != [] {
      assert AllDigits(s) <==> IsDigit(s[0]) && AllDigits(s[1..]) by {
        if IsDigit(s[0]) && AllDigits(s[1..]) {
          forall i | 0 <= i < |s| ensures IsDigit(s[i]) {
            if i > 0 { assert s[i] == s[1..][i - 1]; }
          }
        }
      }
      if IsDigit(s[0]) {
        var next := 10 * acc + DigitValue(s[0]);
        if next >= bound {
          if AllDigits(s) { DigitsValueAtLeast(next, s[1..]); }
        } else {
          ParseDigitsSpec(next, s[1..], bound);
        }
      }
    }
  }

  lemma {:induction false} DigitsValueSnoc(acc: nat, s: string, c: char)
    requires forall i :: 0 <= i < |s| ==> IsDigit(s[i])
    requires IsDigit(c)
    ensures DigitsValue(acc, s + [c]) == 10 * DigitsValue(acc, s) + DigitValue(c)
    decreases s
  {
    if s != [] {
      assert (s + [c])[1..] == s[1..] + [c];
      DigitsValueSnoc(10 * acc + DigitValue(s[0]), s[1..], c);
    }
  }

  lemma {:induction false} DigitsValueAtLeast(acc: nat, s: string)
    requires forall i :: 0 <= i < |s| ==> IsDigit(s[i])
    ensures DigitsValue(acc, s) >= acc
    decreases s
  {
    if s != [] {
      DigitsValueAtLeast(10 * acc + DigitValue(s[0]), s[1..]);
    }
  }

  /** The decimal text of `n` reads back as `n`. */
  lemma {:induction false} FormatNatValue(n: nat)
    ensures DigitsValue(0, FormatNat(n)) == n
  {
    if n >= 10 {
      FormatNatValue(n / 10);
      DigitsValueSnoc(0, FormatNat(n / 10), Digit(n % 10));
    }
  }

  lemma {:induction false} ParseDigitsValue(acc: nat, s: string, bound: nat)
    requires forall i :: 0 <= i < |s| ==> IsDigit(s[i])
    requires acc < bound && DigitsValue(acc, s) < bound
    ensures ParseDigits(acc, s, bound) == Ok(DigitsValue(acc, s))
    decreases s
  {
    if s != [] {
      DigitsValueAtLeast(10 * acc + DigitValue(s[0]), s[1..]);
      ParseDigitsValue(10 * acc + DigitValue(s[0]), s[1..], bound);
    }
  }

  /** Formatting then parsing an integer that fits in `bits` bits gives
      it back. */
  lemma ParseFormatUInt(n: nat, bits: nat)
    requires n < Pow2(bits)
    ensures ParseUInt(FormatNat(n), bits) == Ok(n)
  {
    var s := FormatNat(n);
    FormatNatValue(n);
    assert s[0] != '+' && s != "+";
    ParseDigitsValue(0, s, Pow2(bits));
  }

  /** Leading zeros and a leading `+` are accepted; a sign alone, a
      minus sign and a trailing non-digit are not. */
  lemma ParseUIntExamples()
    ensures ParseUInt("007", 8) == Ok(7)
    ensures ParseUInt("+5", 8) == Ok(5)
    ensures ParseUInt("256", 8).Err? && ParseUInt("255", 8) == Ok(255)
    ensures ParseUInt("-1", 8).Err? && ParseUInt("+", 8).Err? && ParseUInt("1a", 8).Err?
  {
    assert UnsignedDigits("007") == "007";
    assert UnsignedDigits("+5") == "5";
    assert UnsignedDigits("-1") == "-1" && !IsDigit('-');
    assert UnsignedDigits("1a") == "1a" && !IsDigit("1a"[1]);
    assert Pow2(8) == 256;
  }

  /** `bool::to_string`. */
  function FormatBool(b: bool): (s: string)
    ensures ParseBool(s) == Ok(b)
  {
    if b then "true" else "false"
  }

  /** `bool::from_str`: exactly `true` or `false`. */
  function ParseBool(s: string): (r: Result<bool>)
    ensures r.Ok? <==> s == "true" || s == "false"
    ensures r.Err? ==> r.error.Deserialize?
  {
    if s == "true" then Ok(true)
    else if s == "false" then Ok(false)
    else Err(Deserialize("provided string was not `true` or `false`"))
  }

  /** `char::to_string`. */
  function FormatChar(c: char): (s: string)
    ensures ParseChar(s) == Ok(c)
  {
    [c]
  }

  /** `char::from_str`: exactly one character. */
  function ParseChar(s: string): (r: Result<char>)
    ensures r.Ok? <==> |s| == 1
    ensures r.Ok? ==> r.value == s[0]
    ensures r.Err? ==> r.error.Deserialize?
  {
    if s == [] then Err(Deserialize("cannot parse char from empty string"))
    else if |s| > 1 then Err(Deserialize("too many characters in string"))
    else Ok(s[0])
  }
}
