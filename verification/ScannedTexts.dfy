// What the checksum gate reads in texts that are not four capital digits.
module ScannedTexts {
  import opened HexDigits
  import opened Telegram
  import opened TelegramChecks

  // The last n hexadecimal digits of v, in capitals or small letters.
  function Hexes(v: bv16, n: nat, small: bool): (s: Line)
    ensures |s| == n
  {
    if n == 0 then []
    else Hexes(v >> 4, n - 1, small) + [if small then SmallDigit(v & 15) else HexDigit(v & 15)]
  }

  // Values of at most n digits.
  predicate Short(v: bv16, n: nat) {
    match n
    case 0 => v == 0
    case 1 => v < 16
    case 2 => v < 256
    case 3 => v < 4096
    case _ => true
  }

  predicate White(s: Line) {
    forall i | 0 <= i < |s| :: s[i] == 32 || 9 <= s[i] <= 13
  }

  // A minus or a plus or nothing.
  datatype Sign = Minus | Plus | NoSign

  function SignText(sign: Sign): Line {
    match sign
    case Minus => [45]
    case Plus => [43]
    case NoSign => []
  }

  // 0x or 0X or nothing.
  predicate Prefix(s: Line) {
    s == [] || s == [48, 120] || s == [48, 88]
  }

  // White space, a sign, a prefix and n digits, as many as the width of four has room for or followed
  // by something else, are read as the number that they print.
  lemma ScanPrinted(white: Line, sign: Sign, prefix: Line, v: bv16, n: nat, small: bool, rest: Line)
    requires White(white) && Prefix(prefix) && Short(v, n)
    requires 0 < n <= 4 - |SignText(sign)| - |prefix|
    requires n == 4 - |SignText(sign)| - |prefix| || rest == [] || HexValue(rest[0]).None?
    requires rest != [] && prefix == [] && v == 0 && n == 1 ==> rest[0] != 120 && rest[0] != 88
    ensures Scan(white + (SignText(sign) + (prefix + (Hexes(v, n, small) + rest))))
            == Number(sign == Minus, v)
  {
    hide HexValue, HexDigit, SmallDigit, HexPrefix, Short, Hexes, White, Prefixed, SignText, Scan;
    var digits := Hexes(v, n, small) + rest;
    HexesPlain(v, n, small);
    assert digits[0] == Hexes(v, n, small)[0];
    if prefix == [] {
      NoPrefix(v, n, small, rest);
    }
    ScanDigits(white, sign, prefix, digits);
    HexesRead(v, n, small, rest, 4 - |SignText(sign)| - |prefix|);
  }

  lemma ScanDigits(white: Line, sign: Sign, prefix: Line, digits: Line)
    requires White(white) && Prefix(prefix) && digits != [] && HexValue(digits[0]).Some? && 48 <= digits[0] <= 102
    requires prefix == [] ==> !Prefixed(digits)
    ensures |SignText(sign)| <= 1
    ensures Scan(white + (SignText(sign) + (prefix + digits)))
            == Number(sign == Minus, HexPrefix(0, digits, 4 - |SignText(sign)| - |prefix|))
  {
    hide HexValue, HexPrefix, White, SkipSpace, Signed, Prefixed, SignText, Scan;
    var t := prefix + digits;
    var s := SignText(sign) + t;
    PrefixRead(prefix, digits);
    SignRead(sign, t);
    SpaceSkipped(white, s);
    ScanIs(white + s, s, t, digits);
  }

  lemma ScanIs(text: Line, s: Line, t: Line, digits: Line)
    requires SkipSpace(text) == s && digits != [] && HexValue(digits[0]).Some?
    requires t == (if Signed(s) then s[1..] else s) && digits == if Prefixed(t) then t[2..] else t
    ensures var width := 4 - (if Signed(s) then 1 else 0) - if Prefixed(t) then 2 else 0;
            Scan(text) == Number(Signed(s) && s[0] == 45, HexPrefix(0, digits, width))
  {
    hide HexValue, HexPrefix, SkipSpace;
  }

  // So the gate lets such a text pass exactly if the number is the checksum, and no minus stands before
  // it unless it is zero.
  lemma GateReads(rows: seq<Line>, crc: bv16, white: Line, sign: Sign, prefix: Line, v: bv16, n: nat, small: bool,
                  rest: Line, lucky: bool)
    requires White(white) && Prefix(prefix) && Short(v, n)
    requires 0 < n <= 4 - |SignText(sign)| - |prefix|
    requires n == 4 - |SignText(sign)| - |prefix| || rest == [] || HexValue(rest[0]).None?
    requires rest != [] && prefix == [] && v == 0 && n == 1 ==> rest[0] != 120 && rest[0] != 88
    ensures var text := white + (SignText(sign) + (prefix + (Hexes(v, n, small) + rest)));
            Accept(Record(rows, crc, text), false, lucky) <==> v == crc && (sign == Minus ==> v == 0)
  {
    ScanPrinted(white, sign, prefix, v, n, small, rest);
    hide Scan, Hexes, White, Short, HexValue;
    assert Hexes(v, n, small) != [];
  }

  // A text in which no digit comes next is not read at all.
  lemma ScanNothing(white: Line, sign: Sign, prefix: Line, rest: Line)
    requires White(white) && Prefix(prefix)
    requires rest != [] ==> HexValue(rest[0]).None? && !White([rest[0]]) && !Signed(rest)
    ensures Scan(white + (SignText(sign) + (prefix + rest))) == Nothing
  {
    var t := prefix + rest;
    var s := SignText(sign) + t;
    assert rest != [] ==> [rest[0]][0] == rest[0];
    if s == [] {
      assert white + s == white + [];
      AllSkipped(white);
    } else {
      assert s[0] != 32 && !(9 <= s[0] <= 13);
      SpaceSkipped(white, s);
    }
    hide HexValue, SkipSpace, White;
    assert Signed(s) ==> s[1..] == t;
    assert Prefixed(t) ==> t[2..] == rest && prefix != [];
  }

  lemma {:induction false} AllSkipped(white: Line)
    requires White(white)
    ensures SkipSpace(white + []) == []
  {
    assert white + [] == white;
    if white != [] {
      AllSkipped(white[1..]);
      assert white[1..] + [] == white[1..];
    }
  }

  lemma SignRead(sign: Sign, t: Line)
    requires t != [] && 48 <= t[0] <= 102
    ensures var s := SignText(sign) + t;
            && (Signed(s) <==> sign != NoSign) && (Signed(s) ==> s[1..] == t && |SignText(sign)| == 1)
            && (!Signed(s) ==> s == t && |SignText(sign)| == 0) && (Signed(s) && s[0] == 45 <==> sign == Minus)
            && s != [] && s[0] != 32 && !(9 <= s[0] <= 13) && |SignText(sign)| <= 1
  {
  }

  lemma PrefixRead(prefix: Line, digits: Line)
    requires Prefix(prefix) && digits != [] && 48 <= digits[0] <= 102 && (prefix == [] ==> !Prefixed(digits))
    ensures var t := prefix + digits;
            && t != [] && 48 <= t[0] <= 102 && (Prefixed(t) <==> prefix != [])
            && (Prefixed(t) ==> t[2..] == digits && |prefix| == 2) && (!Prefixed(t) ==> t == digits && |prefix| == 0)
  {
  }

  lemma {:induction false} SpaceSkipped(white: Line, s: Line)
    requires White(white) && s != [] && s[0] != 32 && !(9 <= s[0] <= 13)
    ensures SkipSpace(white + s) == s
  {
    if white == [] {
      assert white + s == s;
    } else {
      SpaceSkipped(white[1..], s);
      assert (white + s)[1..] == white[1..] + s;
    }
  }

  // A digit is no white space, no sign and no x.
  lemma {:induction false} HexesPlain(v: bv16, n: nat, small: bool)
    ensures forall i | 0 <= i < n :: HexValue(Hexes(v, n, small)[i]).Some?
    ensures forall i | 0 <= i < n :: 48 <= Hexes(v, n, small)[i] <= 102 && Hexes(v, n, small)[i] != 88
    ensures n > 0 && Short(v, n) && Hexes(v, n, small)[0] == 48 && n == 1 ==> v == 0
  {
    if n > 0 {
      HexesPlain(v >> 4, n - 1, small);
      HexValueIff(if small then SmallDigit(v & 15) else HexDigit(v & 15), v & 15);
    }
  }

  lemma NoPrefix(v: bv16, n: nat, small: bool, rest: Line)
    requires 0 < n && Short(v, n) && (rest != [] && v == 0 && n == 1 ==> rest[0] != 120 && rest[0] != 88)
    ensures !Prefixed(Hexes(v, n, small) + rest)
  {
    hide HexValue, HexDigit, SmallDigit;
    HexesPlain(v, n, small);
    var s, t := Hexes(v, n, small), Hexes(v, n, small) + rest;
    assert t[0] == s[0];
    if n > 1 {
      assert t[1] == s[1];
    } else if rest != [] {
      assert t[1] == rest[0];
    }
    hide Hexes;
  }

  lemma {:induction false} HexesRead(v: bv16, n: nat, small: bool, rest: Line, width: nat)
    requires n <= width && n <= 4 && Short(v, n)
    requires n == width || rest == [] || HexValue(rest[0]).None?
    ensures HexPrefix(0, Hexes(v, n, small) + rest, width) == v
  {
    DigitsRead(v, n, small, rest, width);
  }

  lemma {:induction false} DigitsRead(v: bv16, n: nat, small: bool, rest: Line, width: nat)
    requires n <= width && n <= 4 && Short(v, n)
    ensures HexPrefix(0, Hexes(v, n, small) + rest, width) == HexPrefix(v, rest, width - n)
    decreases n
  {
    hide HexPrefix, HexValue, HexDigit, SmallDigit, Hexes;
    if n == 0 {
      assert Hexes(v, n, small) + rest == rest;
    } else {
      Shorter(v, n);
      HexesLast(v, n, small, rest);
      var more := LastDigit(v, small) + rest;
      DigitsRead(v >> 4, n - 1, small, more, width);
      DigitRead(v, small, rest, width - n + 1);
    }
  }

  function LastDigit(v: bv16, small: bool): Line {
    [if small then SmallDigit(v & 15) else HexDigit(v & 15)]
  }

  lemma HexesLast(v: bv16, n: nat, small: bool, rest: Line)
    requires n > 0
    ensures Hexes(v, n, small) + rest == Hexes(v >> 4, n - 1, small) + (LastDigit(v, small) + rest)
  {
    hide HexDigit, SmallDigit;
  }

  lemma DigitRead(v: bv16, small: bool, rest: Line, width: nat)
    requires width > 0 && Push4(v >> 4, v & 15) == v
    ensures HexPrefix(v >> 4, LastDigit(v, small) + rest, width) == HexPrefix(v, rest, width - 1)
  {
    var c := LastDigit(v, small)[0];
    HexValueIff(c, v & 15);
    hide HexDigit, SmallDigit, HexValue;
    assert (LastDigit(v, small) + rest)[1..] == rest;
  }

  lemma Shorter(v: bv16, n: nat)
    requires 0 < n <= 4 && Short(v, n)
    ensures Short(v >> 4, n - 1) && Push4(v >> 4, v & 15) == v && v & 15 < 16
  {
  }
}
