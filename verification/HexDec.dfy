// hexdec of src/dsmr.c: octet strings are sent as pairs of hexadecimal digits.
module HexDec {
  import opened HexDigits
  import opened Telegram

  // hextable; every other character counts as -1.
  function Digit(c: Byte): Byte {
    match HexValue(c)
    case Some(v) => Small(v)
    case None => 255
  }

  function Small(v: bv16): Byte {
    (v & 255) as Byte
  }

  // The digit of a value, in capitals or small letters.
  function Written(d: Byte, small: bool): (c: Byte)
    requires d < 16
    ensures c != 0
  {
    HexDigitPlain(d as bv16);
    if small then SmallDigit(d as bv16) else HexDigit(d as bv16)
  }

  function Pair(high: Byte, low: Byte): Byte {
    (Digit(high) << 4) | Digit(low)
  }

  // Two characters for each octet, each in either case.
  function Encoded(s: Line, small: nat -> bool, at: nat): (h: Line)
    ensures |h| == 2 * |s| && 0 !in h
    decreases |s|
  {
    if s == [] then []
    else [Written(s[0] >> 4, small(at)), Written(s[0] & 15, small(at + 1))] + Encoded(s[1..], small, at + 2)
  }

  function Decoded(hex: Line): Line
    requires |hex| % 2 == 0
  {
    if hex == [] then [] else [Pair(hex[0], hex[1])] + Decoded(hex[2..])
  }

  // The loop, on a C string of even length, whose characters can index the table: it reads two
  // characters and writes one octet.
  method Decode(buf: array<Byte>, hex: Line)
    requires 0 !in hex && |hex| % 2 == 0 && |hex| / 2 <= buf.Length && forall c | c in hex :: c < 128
    modifies buf
    ensures buf[..] == Decoded(hex) + old(buf[|hex| / 2..])
  {
    hide Digit, Decoded;
    DecodedNothing();
    var p, i := 0, 0;
    ghost var done: Line := [];
    assert hex[0..] == hex;
    while p < |hex|
      invariant p == 2 * i <= |hex|
      invariant buf[..i] == done && done + Decoded(hex[p..]) == Decoded(hex)
      invariant buf[i..] == old(buf[i..])
    {
      var ret := Digit(hex[p]);
      p := p + 1;
      ret := (ret << 4) | Digit(hex[p]);
      p := p + 1;
      DecodedStep(hex, p - 2, done);
      done := done + [ret];
      buf[i] := ret;
      i := i + 1;
      assert buf[..i] == buf[..i - 1] + [ret];
    }
    assert hex[p..] == [];
    assert buf[..] == buf[..i] + buf[i..];
  }

  lemma DecodedNothing()
    ensures Decoded([]) == []
  {
  }

  lemma DecodedStep(hex: Line, p: nat, done: Line)
    requires |hex| % 2 == 0 && p % 2 == 0 && p + 2 <= |hex|
    ensures done + [Pair(hex[p], hex[p + 1])] + Decoded(hex[p + 2..]) == done + Decoded(hex[p..])
  {
    assert hex[p..][2..] == hex[p + 2..];
  }

  lemma PairBack(b: Byte, high: bool, low: bool)
    ensures b >> 4 < 16 && b & 15 < 16 && Pair(Written(b >> 4, high), Written(b & 15, low)) == b
  {
    Halves(b);
    HexValueIff(Written(b >> 4, high), (b >> 4) as bv16);
    HexValueIff(Written(b & 15, low), (b & 15) as bv16);
    hide HexValue, HexDigit, SmallDigit;
  }

  lemma Halves(b: Byte)
    ensures b >> 4 < 16 && b & 15 < 16 && ((b >> 4) << 4) | (b & 15) == b
  {
  }

  // Whatever octets are encoded, in capitals and small letters as one likes, they are decoded again.
  lemma {:induction false} DecodeEncode(s: Line, small: nat -> bool, at: nat)
    ensures Decoded(Encoded(s, small, at)) == s
    decreases |s|
  {
    hide Pair, Written;
    if s != [] {
      DecodeEncode(s[1..], small, at + 2);
      PairBack(s[0], small(at), small(at + 1));
      assert Encoded(s, small, at)[2..] == Encoded(s[1..], small, at + 2);
    }
  }

  // A character that is no digit counts as all ones: low in a pair it makes the octet all ones, high it
  // makes the upper half so.
  lemma PairWithout(high: Byte, low: Byte)
    ensures HexValue(low).None? ==> Pair(high, low) == 255
    ensures HexValue(high).None? && HexValue(low).Some? ==> Pair(high, low) == 240 | HexValue(low).value as Byte
  {
    if HexValue(low).Some? {
      HexValueIff(low, HexValue(low).value);
    }
  }
}
