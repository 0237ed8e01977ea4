// Numbers in a request, as a client prints them and as the decoder reads them.
module HttpNumbers {
  import opened CStrings
  import opened HttpFields
  import opened HttpFraming
  import opened HttpMachine

  // The decimal digits of a number.
  function Decimals(n: nat): (s: string)
    ensures s != "" && Decimal(s)
  {
    if n < 10 then [(n + '0' as int) as char] else Decimals(n / 10) + [(n % 10 + '0' as int) as char]
  }

  lemma {:induction false} DigitsPrinted(n: nat)
    ensures Digits(Decimals(n), 0) == n
  {
    var c := (n % 10 + '0' as int) as char;
    if n < 10 {
      DigitLast("", c, 0);
    } else {
      DigitsPrinted(n / 10);
      DigitLast(Decimals(n / 10), c, 0);
    }
  }

  lemma DigitLast(a: string, c: char, sofar: nat)
    requires Decimal(a) && IsDigit(c)
    ensures Digits(a + [c], sofar) == 10 * Digits(a, sofar) + (c as int - '0' as int)
  {
    DigitsConcat(a, [c], sofar);
    assert [c][1..] == "";
  }

  predicate White(s: string) {
    forall i | 0 <= i < |s| :: s[i] == ' ' || 9 as char <= s[i] <= 13 as char
  }

  // White space, a sign and digits, up to something else, are read as the number that they print.
  lemma {:induction false} AtoiPrinted(white: string, sign: string, n: nat, rest: string)
    requires White(white) && (sign == "" || sign == "+" || sign == "-")
    requires rest == "" || !('0' <= rest[0] <= '9')
    ensures Atoi(white + (sign + (Decimals(n) + rest))) == if sign == "-" then 0 - n else n
    decreases |white|
  {
    var t := sign + (Decimals(n) + rest);
    if white == "" {
      assert white + t == t;
      var digits := Decimals(n) + rest;
      DigitsPrinted(n);
      DigitsEnd(Decimals(n), rest);
      assert digits[0] == Decimals(n)[0];
      assert sign != "" ==> t[1..] == digits;
      assert sign == "" ==> t == digits;
      hide Digits, Decimals;
    } else {
      AtoiPrinted(white[1..], sign, n, rest);
      assert (white + t)[1..] == white[1..] + t;
      hide Decimals;
    }
  }

  lemma DigitsEnd(a: string, rest: string)
    requires Decimal(a) && (rest == "" || !('0' <= rest[0] <= '9'))
    ensures Digits(a + rest, 0) == Digits(a, 0)
  {
    DigitsConcat(a, rest, 0);
  }

  // The header that tells the length of a body.
  function LengthHeader(n: nat): string {
    "Content-Length: " + Decimals(n)
  }

  lemma HeaderRead(length: int, n: nat)
    requires |Decimals(n)| < 256
    ensures Headed(length, CText(LengthHeader(n))) == n
  {
    hide Decimals, Atoi, Text;
    var name, s := "Content-Length", Decimals(n);
    HeaderPlain(n);
    TextIs(LengthHeader(n), LengthHeader(n), '\0');
    assert LengthHeader(n) == name + [':'] + (" " + s);
    FieldParts(name, " " + s);
    var h := name + [':'] + (" " + s);
    assert h[|name| + 2..] == s && h[|name| + 1] == ' ';
    AtoiPrinted("", "", n, "");
    assert "" + ("" + (s + "")) == s;
    assert Clip(name, 256) == name && Clip(s, 256) == s;
    hide First;
  }

  lemma HeaderPlain(n: nat)
    ensures Plain(LengthHeader(n)) && LengthHeader(n) != "" && '\0' !in LengthHeader(n)
  {
    hide Decimals;
    var a, s := "Content-Length: ", Decimals(n);
    assert Plain(a) && '\0' !in a;
    assert forall i | 0 <= i < |s| :: IsDigit(s[i]);
  }

  // A first request whose header tells the length of its body in decimal is framed: one call, at the
  // last byte of the body.
  lemma PrintedLengthFramed(line: string, body: string)
    requires Plain(line) && body != "" && |Decimals(|body|)| < 256
    ensures var r := Request(line, [LengthHeader(|body|)], body);
            Log(INITIAL, Print(r), 0) == Calls(INITIAL.server, [r], 0)
  {
    hide Log, Print, Calls, LengthHeader, Decimals, Plain;
    var r := Request(line, [LengthHeader(|body|)], body);
    HeaderPlain(|body|);
    HeaderRead(0, |body|);
    assert Lined(r);
    assert r.headers[1..] == [];
    assert Declared(0, r.headers) == |body|;
    assert Clean(0, 0, [r]) by {
      assert [r][1..] == [];
    }
    RequestFramed(INITIAL, r, 0);
  }

  // A first request whose header tells a negative length is never answered, whatever follows.
  lemma NegativeHangs(line: string, n: nat, more: string)
    requires Plain(line) && n > 0 && |Decimals(n)| < 255
    ensures var r := Request(line, ["Content-Length: -" + Decimals(n)], "");
            Log(INITIAL, Head(r) + more, 0) == []
  {
    hide Decimals, Run, Log, Headed, CText, Requested, Plain;
    var h := "Content-Length: -" + Decimals(n);
    var r := Request(line, [h], "");
    NegativeRead(n);
    assert Lined(r);
    assert r.headers[1..] == [];
    assert Declared(0, r.headers) == 0 - n;
    HeadRead(INITIAL, r, 0);
    RunConcat(INITIAL, Head(r), more, 0);
    Waits(Run(INITIAL, Head(r)), more, |Head(r)|);
  }

  lemma NegativeRead(n: nat)
    requires |Decimals(n)| < 255
    ensures Headed(0, CText("Content-Length: -" + Decimals(n))) == 0 - n
    ensures Plain("Content-Length: -" + Decimals(n))
  {
    hide Decimals, Atoi, Text;
    var name, s := "Content-Length", "-" + Decimals(n);
    var a, h := "Content-Length: -", name + [':'] + (" " + s);
    assert Plain(a) && '\0' !in a && (forall i | 0 <= i < |Decimals(n)| :: IsDigit(Decimals(n)[i]));
    assert a + Decimals(n) == h;
    TextIs(h, h, '\0');
    FieldParts(name, " " + s);
    assert h[|name| + 2..] == s && h[|name| + 1] == ' ';
    AtoiPrinted("", "-", n, "");
    assert "" + ("-" + (Decimals(n) + "")) == s;
    assert Clip(name, 256) == name && Clip(s, 256) == s;
    hide First;
  }

  // A body whose wanted length is behind is waited for in vain.
  lemma {:induction false} Waits(m: Machine, s: string, at: nat)
    requires m.state == DATA && m.length <= m.dataread
    ensures Log(m, s, at) == []
    decreases |s|
  {
    if s != "" {
      Waits(Step(m, s[0]), s[1..], at + 1);
    }
  }
}
