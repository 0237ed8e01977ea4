// The length a header line declares: what sections 3.2 and 3.3.2 of RFC 7230 make of it, and exactly
// when the decoder makes the same of it.
module HttpFields {
  import opened CStrings
  import opened HttpMachine
  import opened Options

  const NAME := "Content-Length"

  // ----- as the RFC reads it -----

  function Lower(c: char): char {
    if 'A' <= c <= 'Z' then (c as int + 32) as char else c
  }

  predicate SameName(a: string, b: string) {
    |a| == |b| && forall i | 0 <= i < |a| :: Lower(a[i]) == Lower(b[i])
  }

  // Optional white space.
  predicate IsBlank(c: char) {
    c == ' ' || c == '\t'
  }

  predicate Blank(s: string) {
    forall i | 0 <= i < |s| :: IsBlank(s[i])
  }

  predicate Decimal(s: string) {
    forall i | 0 <= i < |s| :: IsDigit(s[i])
  }

  function TrimLeft(s: string): (t: string)
    ensures |t| <= |s| && t == s[|s| - |t|..] && Blank(s[..|s| - |t|])
    ensures t != "" ==> !IsBlank(t[0])
  {
    if s != "" && IsBlank(s[0]) then
      var t := TrimLeft(s[1..]);
      assert s[..|s| - |t|] == [s[0]] + s[1..][..|s| - 1 - |t|];
      t
    else s
  }

  function TrimRight(s: string): (t: string)
    ensures t <= s && Blank(s[|t|..])
    ensures t != "" ==> !IsBlank(t[|t| - 1])
  {
    if s != "" && IsBlank(s[|s| - 1]) then
      var t := TrimRight(s[..|s| - 1]);
      assert s[|t|..] == s[..|s| - 1][|t|..] + [s[|s| - 1]];
      t
    else s
  }

  // A field name in any case, a colon, and a number between optional white space.
  function RfcLength(text: string): Option<nat> {
    var i := First(text, ':');
    if i == |text| || !SameName(text[..i], NAME) then None
    else
      var v := TrimLeft(TrimRight(text[i + 1..]));
      if v != "" && Decimal(v) then Some(Digits(v, 0)) else None
  }

  // ----- as the decoder reads it -----

  // The name in this spelling, a colon and a space.
  predicate Noticed(text: string) {
    var i := First(text, ':');
    i + 1 < |text| && text[i + 1] == ' ' && text[..i] == NAME
  }

  // What follows the space.
  function ValueText(text: string): string
    requires Noticed(text)
  {
    text[First(text, ':') + 2..]
  }

  lemma HeadedIs(length: int, text: string)
    ensures Headed(length, text) == if Noticed(text) then Atoi(Clip(ValueText(text), 256)) else length
  {
    hide Atoi;
  }

  // ----- when they agree -----

  ghost predicate Agrees(text: string) {
    forall length: int :: Headed(length, text) == match RfcLength(text) case Some(v) => v case None => length
  }

  // The decoder agrees with the RFC exactly on the lines that declare no length and that it does not
  // notice, and on those that declare one, that it notices, and whose number ends within the 255
  // characters it keeps of the value or is zero.
  lemma AgreesIff(text: string)
    ensures Agrees(text) <==>
            match RfcLength(text)
            case None => !Noticed(text)
            case Some(v) => Noticed(text) && (v == 0 || |TrimRight(ValueText(text))| <= 255)
  {
    hide Atoi, Digits, Headed, RfcLength, Noticed, ValueText;
    if Noticed(text) {
      var n := Atoi(Clip(ValueText(text), 256));
      HeadedIs(n + 1, text);
      match RfcLength(text) {
        case None =>
        case Some(v) =>
          NumberKept(text);
          HeadedIs(v, text);
          forall length: int ensures Headed(length, text) == n { HeadedIs(length, text); }
      }
    } else {
      match RfcLength(text) {
        case None =>
          forall length: int ensures Headed(length, text) == length { HeadedIs(length, text); }
        case Some(v) =>
          HeadedIs(v + 1, text);
      }
    }
  }

  // The number that survives the clipping is the number declared exactly if it is kept whole or zero.
  lemma NumberKept(text: string)
    requires Noticed(text) && RfcLength(text).Some?
    ensures Atoi(Clip(ValueText(text), 256)) == RfcLength(text).value
            <==> RfcLength(text).value == 0 || |TrimRight(ValueText(text))| <= 255
  {
    hide Atoi, Digits, TrimLeft, TrimRight, Decimal, Blank, SameName, Clip;
    var tail := ValueText(text);
    assert text[First(text, ':') + 1..] == " " + tail;
    SpaceFirst(tail);
    var t := TrimRight(tail);
    var v := TrimLeft(t);
    assert RfcLength(text) == Some(Digits(v, 0)) && v != "" && Decimal(v);
    hide RfcLength, Noticed, ValueText;
    if |t| <= 255 {
      KeptWhole(tail, t, v);
    } else {
      KeptCut(tail, t, v);
    }
  }

  lemma SpaceFirst(tail: string)
    ensures TrimLeft(TrimRight(" " + tail)) == TrimLeft(TrimRight(tail))
  {
    RightOfSpace(tail);
    var t := TrimRight(tail);
    assert t != "" ==> (" " + t)[1..] == t;
  }

  lemma {:induction false} RightOfSpace(tail: string)
    ensures TrimRight(" " + tail) == if TrimRight(tail) == "" then "" else " " + TrimRight(tail)
    decreases |tail|
  {
    var s := " " + tail;
    if tail == "" {
      assert s[..0] == "";
    } else if IsBlank(tail[|tail| - 1]) {
      assert s[..|s| - 1] == " " + tail[..|tail| - 1];
      RightOfSpace(tail[..|tail| - 1]);
    }
  }

  lemma KeptWhole(tail: string, t: string, v: string)
    requires t == TrimRight(tail) && v == TrimLeft(t) && v != "" && Decimal(v) && |t| <= 255
    ensures Atoi(Clip(tail, 256)) == Digits(v, 0)
  {
    hide Atoi, Digits, TrimLeft, TrimRight, Decimal, Blank, Clip;
    var o, c := t[..|t| - |v|], Clip(tail, 256);
    Clipped(tail);
    var rest := tail[|t|..|c|];
    BlankPart(tail, |t|, |c|);
    CutParts(tail, t, v, |c|);
    AtoiNumber(o, v, rest);
  }

  lemma Clipped(s: string)
    ensures var c := Clip(s, 256);
            |c| <= |s| && c == s[..|c|] && (|c| == |s| || |c| == 255)
  {
  }

  lemma CutParts(tail: string, t: string, v: string, n: nat)
    requires t <= tail && |v| <= |t| <= n <= |tail| && v == t[|t| - |v|..]
    ensures tail[..n] == t[..|t| - |v|] + (v + tail[|t|..n])
  {
    assert t == t[..|t| - |v|] + v;
    assert tail[..n] == t + tail[|t|..n];
  }

  lemma KeptCut(tail: string, t: string, v: string)
    requires t == TrimRight(tail) && v == TrimLeft(t) && v != "" && Decimal(v) && |t| > 255
    ensures Atoi(Clip(tail, 256)) == Digits(v, 0) <==> Digits(v, 0) == 0
  {
    hide Atoi, Digits, TrimLeft, TrimRight, Decimal, Blank;
    var o, c := t[..|t| - |v|], Clip(tail, 256);
    assert c == tail[..255] == t[..255];
    if |o| >= 255 {
      assert c == o[0..255];
      BlankPart(o, 0, 255);
      AtoiBlank(c);
    } else {
      var j := 255 - |o|;
      var w := v[..j];
      assert c == o + w && o + w == o + (w + "");
      AtoiDigits(v, j);
      BlankPart("", 0, 0);
      AtoiNumber(o, w, "");
      CutNumber(v, j);
    }
  }

  lemma BlankPart(s: string, i: nat, j: nat)
    requires i <= j <= |s| && (Blank(s) || Blank(s[i..]) || s == "")
    ensures Blank(s[i..j])
  {
    assert forall k | 0 <= k < j - i :: s[i..j][k] == s[i..][k] == s[i + k];
  }

  lemma AtoiDigits(v: string, j: nat)
    requires Decimal(v) && 0 < j <= |v|
    ensures Decimal(v[..j]) && v[..j] != ""
  {
  }

  lemma {:induction false} AtoiBlank(s: string)
    requires Blank(s)
    ensures Atoi(s) == 0
  {
    if s != "" {
      BlankPart(s, 1, |s|);
      AtoiBlank(s[1..]);
    }
  }

  // White space before a number and anything blank behind it do not matter.
  lemma {:induction false} AtoiNumber(o: string, v: string, rest: string)
    requires Blank(o) && v != "" && Decimal(v) && Blank(rest)
    ensures Atoi(o + (v + rest)) == Digits(v, 0)
    decreases |o|
  {
    if o == "" {
      assert o + (v + rest) == v + rest;
      assert (v + rest)[0] == v[0] && IsDigit(v[0]);
      DigitsStop(v, rest, 0);
    } else {
      BlankPart(o, 1, |o|);
      AtoiNumber(o[1..], v, rest);
      assert (o + (v + rest))[1..] == o[1..] + (v + rest);
      assert (o + (v + rest))[0] == o[0];
    }
  }

  lemma {:induction false} DigitsStop(v: string, rest: string, sofar: nat)
    requires Decimal(v) && Blank(rest)
    ensures Digits(v + rest, sofar) == Digits(v, sofar)
    decreases |v|
  {
    if v == "" {
      assert v + rest == rest;
    } else {
      assert (v + rest)[1..] == v[1..] + rest && (v + rest)[0] == v[0];
      DigitsStop(v[1..], rest, 10 * sofar + (v[0] as int - '0' as int));
    }
  }

  // A number cut short is smaller, unless it is zero.
  lemma CutNumber(v: string, j: nat)
    requires Decimal(v) && j < |v|
    ensures Digits(v[..j], 0) == Digits(v, 0) <==> Digits(v, 0) == 0
  {
    DigitsConcat(v[..j], v[j..], 0);
    assert v == v[..j] + v[j..];
    DigitsGrow(v[j..], Digits(v[..j], 0));
  }

  lemma {:induction false} DigitsConcat(a: string, b: string, sofar: nat)
    requires Decimal(a)
    ensures Digits(a + b, sofar) == Digits(b, Digits(a, sofar))
    decreases |a|
  {
    if a == "" {
      assert a + b == b;
    } else {
      assert (a + b)[1..] == a[1..] + b && (a + b)[0] == a[0];
      DigitsConcat(a[1..], b, 10 * sofar + (a[0] as int - '0' as int));
    }
  }

  lemma {:induction false} DigitsGrow(s: string, sofar: nat)
    requires Decimal(s)
    ensures Digits(s, sofar) >= sofar
    ensures s != "" && sofar > 0 ==> Digits(s, sofar) > sofar
    decreases |s|
  {
    if s != "" {
      DigitsGrow(s[1..], 10 * sofar + (s[0] as int - '0' as int));
    }
  }

  // ----- lines on which they differ -----

  lemma FieldParts(name: string, rest: string)
    requires ':' !in name
    ensures var text := name + [':'] + rest;
            First(text, ':') == |name| && text[..|name|] == name && text[|name| + 1..] == rest
  {
    FirstAfter(name, ':', rest);
  }

  lemma FieldLength(name: string, rest: string)
    requires ':' !in name
    ensures var v := TrimLeft(TrimRight(rest));
            RfcLength(name + [':'] + rest)
            == if SameName(name, NAME) && v != "" && Decimal(v) then Some(Digits(v, 0)) else None
  {
    FieldParts(name, rest);
    hide SameName, Digits, First, TrimLeft, TrimRight, Decimal;
  }

  lemma FieldNoticed(name: string, rest: string)
    requires ':' !in name
    ensures var text := name + [':'] + rest;
            && (Noticed(text) <==> name == NAME && rest != "" && rest[0] == ' ')
            && (Noticed(text) ==> ValueText(text) == rest[1..])
  {
    var text := name + [':'] + rest;
    FieldParts(name, rest);
    hide First;
    assert rest != "" ==> text[|name| + 1] == rest[0] && text[|name| + 2..] == rest[1..];
  }

  // What a line of a name, a colon and a number declares, with or without a space before the number.
  lemma FieldRead(name: string, space: string, v: string)
    requires ':' !in name && (space == "" || space == " ") && v != "" && Decimal(v)
    ensures var text := name + [':'] + (space + v);
            && RfcLength(text) == (if SameName(name, NAME) then Some(Digits(v, 0)) else None)
            && (Noticed(text) <==> name == NAME && space == " ")
            && (Noticed(text) ==> ValueText(text) == v)
  {
    assert IsDigit(v[0]) && IsDigit(v[|v| - 1]);
    Untrimmed(v);
    hide SameName, Digits, TrimLeft, TrimRight, Decimal, RfcLength, Noticed, ValueText, NAME;
    FieldLength(name, space + v);
    FieldNoticed(name, space + v);
    if space == " " {
      SpaceFirst(v);
      assert (space + v)[1..] == v;
    } else {
      assert space + v == v;
    }
  }

  lemma Untrimmed(v: string)
    requires v != "" && !IsBlank(v[0]) && !IsBlank(v[|v| - 1])
    ensures TrimLeft(TrimRight(v)) == v
  {
  }

  // A name in lower case, or a missing space, hides the length from the decoder.
  lemma LengthMissed(v: string)
    requires v != "" && Decimal(v)
    ensures var lower, close := LOWER_CASE + [':'] + (" " + v), NAME + [':'] + ("" + v);
            && RfcLength(lower) == RfcLength(close) == Some(Digits(v, 0))
            && !Agrees(lower) && !Agrees(close)
  {
    NameDiffers();
    hide Digits, Agrees, Noticed, RfcLength, SameName, Decimal, LOWER_CASE, NAME;
    FieldRead(LOWER_CASE, " ", v);
    FieldRead(NAME, "", v);
    AgreesIff(LOWER_CASE + [':'] + (" " + v));
    AgreesIff(NAME + [':'] + ("" + v));
  }

  const LOWER_CASE := "content-length"

  lemma NameDiffers()
    ensures LOWER_CASE != NAME && SameName(LOWER_CASE, NAME) && SameName(NAME, NAME)
    ensures ':' !in LOWER_CASE && ':' !in NAME
  {
    assert LOWER_CASE[0] != NAME[0];
  }
}
