// Hexadecimal digits, read in either case and printed in capitals.
module HexDigits {
  import opened Options

  function HexValue(b: bv8): Option<bv16> {
    if 48 <= b <= 57 then Some((b - 48) as bv16)
    else if 65 <= b <= 70 then Some((b - 55) as bv16)
    else if 97 <= b <= 102 then Some((b - 87) as bv16)
    else None
  }

  function HexDigit(n: bv16): bv8
    requires n < 16
  {
    if n < 10 then 48 + n as bv8 else 55 + n as bv8
  }

  // The same in small letters.
  function SmallDigit(n: bv16): bv8
    requires n < 16
  {
    if n < 10 then 48 + n as bv8 else 87 + n as bv8
  }

  lemma HexDigitValue(n: bv16)
    requires n < 16
    ensures HexValue(HexDigit(n)) == Some(n)
  {
  }

  // The characters that are read as a digit are the two that print it, and no others are read.
  lemma HexValueIff(b: bv8, n: bv16)
    requires n < 16
    ensures HexValue(b) == Some(n) <==> b == HexDigit(n) || b == SmallDigit(n)
    ensures HexValue(b).Some? ==> HexValue(b).value < 16
  {
  }

  // No printed digit is a NUL, a line end, white space, a sign or the x of a prefix.
  lemma HexDigitPlain(n: bv16)
    requires n < 16
    ensures 47 < HexDigit(n) < 71
  {
  }
}
