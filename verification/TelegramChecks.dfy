// The checksum gate of dsmr_process, and what it lets through.
module TelegramChecks {
  import opened Crc16
  import opened HexDigits
  import opened Options
  import opened Telegram
  import opened TelegramFrames

  function Push4(acc: bv16, digit: bv16): bv16 {
    (acc << 4) | digit
  }

  // Up to `width` leading hexadecimal digits.
  function HexPrefix(acc: bv16, text: Line, width: nat): bv16
    decreases width
  {
    if width == 0 || text == [] || HexValue(text[0]).None? then acc
    else HexPrefix(Push4(acc, HexValue(text[0]).value), text[1..], width - 1)
  }

  // What sscanf with "%04x" reads, when it reads a number.
  datatype Scanned = Nothing | Number(negative: bool, value: bv16)

  function SkipSpace(text: Line): Line {
    if text != [] && (text[0] == 32 || 9 <= text[0] <= 13) then SkipSpace(text[1..]) else text
  }

  predicate Signed(s: Line) {
    s != [] && (s[0] == 43 || s[0] == 45)
  }

  predicate Prefixed(s: Line) {
    |s| > 1 && s[0] == 48 && (s[1] == 120 || s[1] == 88)
  }

  // White space does not count for the width of four; a sign and a 0x prefix do.  A prefix without
  // digits, on which C libraries differ, reads nothing.
  function Scan(text: Line): Scanned {
    var s := SkipSpace(text);
    var (t, width) := if Signed(s) then (s[1..], 3) else (s, 4);
    var (digits, left) := if Prefixed(t) then (t[2..], width - 2) else (t, width);
    if digits == [] || HexValue(digits[0]).None? then Nothing
    else Number(Signed(s) && s[0] == 45, HexPrefix(0, digits, left))
  }

  // The checksum compared with the number read: a negative one is no checksum.  `lucky` stands for
  // whether the variable sscanf leaves unwritten happens to hold the checksum.
  predicate Matches(text: Line, crc: bv16, lucky: bool) {
    match Scan(text)
    case Number(negative, value) => value == crc && (negative ==> value == 0)
    case Nothing => lucky
  }

  // The gate.
  predicate Accept(r: Record, ignoreCrc: bool, lucky: bool) {
    ignoreCrc || r.text == [] || Matches(r.text, r.crc, lucky)
  }

  // Reading back the printed checksum, whatever follows it.
  lemma ScanHex4(c: bv16, more: Line)
    ensures Scan(Hex4(c) + more) == Number(false, c)
  {
    hide Scan, Push4, HexValue, HexDigit;
    var a, b, d, e := c >> 12, (c >> 8) & 15, (c >> 4) & 15, c & 15;
    FourDigits(c);
    HexDigitValue(a);
    HexDigitValue(b);
    HexDigitValue(d);
    HexDigitValue(e);
    HexDigitPlain(a);
    HexDigitPlain(b);
    ScanFour(HexDigit(a), HexDigit(b), HexDigit(d), HexDigit(e), a, b, d, e, more);
  }

  lemma FourDigits(c: bv16)
    ensures Push4(Push4(Push4(Push4(0, c >> 12), (c >> 8) & 15), (c >> 4) & 15), c & 15) == c
  {
  }

  lemma ScanFour(p: Byte, q: Byte, r: Byte, s: Byte, a: bv16, b: bv16, d: bv16, e: bv16, more: Line)
    requires HexValue(p) == Some(a) && HexValue(q) == Some(b) && HexValue(r) == Some(d) && HexValue(s) == Some(e)
    requires p > 47 && q < 71
    ensures Scan([p, q, r, s] + more) == Number(false, Push4(Push4(Push4(Push4(0, a), b), d), e))
  {
    hide HexValue;
    hide Push4;
    var x := Push4(Push4(Push4(0, a), b), d);
    assert HexPrefix(x, [s] + more, 1) == HexPrefix(Push4(x, e), ([s] + more)[1..], 0);
    assert ([r, s] + more)[1..] == [s] + more;
    assert ([q, r, s] + more)[1..] == [r, s] + more;
    assert ([p, q, r, s] + more)[1..] == [q, r, s] + more;
    assert HexPrefix(Push4(Push4(0, a), b), [r, s] + more, 2) == HexPrefix(x, [s] + more, 1);
    assert HexPrefix(Push4(0, a), [q, r, s] + more, 3) == HexPrefix(Push4(Push4(0, a), b), [r, s] + more, 2);
    assert SkipSpace([p, q, r, s] + more) == [p, q, r, s] + more;
  }

  // Every printed frame passes the gate, checked or not.
  lemma PrintedAccepted(f: Frame, lucky: bool)
    ensures Accept(Record(f.lines, Fold(0, Body(f)), Digits(f)), false, lucky)
  {
    hide Body;
    hide Hex4;
    hide Fold;
    hide Scan;
    ScanHex4(Fold(0, Body(f)), []);
    assert Hex4(Fold(0, Body(f))) + [] == Hex4(Fold(0, Body(f)));
  }

  // ----- damaged telegrams -----

  ghost predicate Reading(s: State) {
    s == START || s == SEPARATOR || s == DATA
  }

  // A stretch from the slash that hands nothing over and is still being read is all checksummed.
  lemma {:induction false} ReadingSum(m: Machine, t: Line)
    requires Ready(m) && t != [] && t[0] == SLASH && Log(m, t) == []
    ensures !Between(Run(m, t).state) && Inv(Run(m, t))
    ensures Reading(Run(m, t).state) ==> Run(m, t).crc == Fold(0, t)
    decreases |t|
  {
    hide Crc;
    hide Fold;
    var n := |t| - 1;
    var p, b := t[..n], t[n];
    assert t == p + [b];
    RunSnoc(m, p, b);
    FoldSnoc(0, p, b);
    if p == [] {
      SlashRead(m);
      StepInv(m, SLASH);
      assert t == [SLASH];
    } else {
      assert Log(m, p) == [];
      ReadingSum(m, p);
      StepInv(Run(m, p), b);
      ReadingStep(Run(m, p), b);
    }
  }

  lemma ReadingStep(m: Machine, b: Byte)
    requires !Between(m.state) && Emit(m, b) == []
    ensures !Between(Step(m, b).state)
    ensures Reading(Step(m, b).state) ==> Reading(m.state) && Step(m, b).crc == Crc(m.crc, b)
    ensures Step(m, b).state == END_TRANS && b == BANG ==> m.state == DATA && Step(m, b).crc == Crc(m.crc, b)
  {
    hide Crc;
  }

  // A stretch from a slash to a bang that the machine reads as one telegram up to its checksum.
  ghost predicate Framed(m: Machine, body: Line) {
    && |body| > 1 && body[0] == SLASH && body[|body| - 1] == BANG
    && Log(m, body) == [] && Run(m, body).state == END_TRANS
  }

  lemma FramedSum(m: Machine, body: Line)
    requires Ready(m) && Framed(m, body)
    ensures Run(m, body).crc == Fold(0, body)
  {
    hide Crc;
    hide Fold;
    var n := |body| - 1;
    var p := body[..n];
    assert body == p + [BANG];
    RunSnoc(m, p, BANG);
    FoldSnoc(0, p, BANG);
    ReadingSum(m, p);
    ReadingStep(Run(m, p), BANG);
  }

  lemma FramedEnd(m: Machine, body: Line)
    requires Framed(m, body)
    ensures Log(m, body) == [] && Run(m, body).state == END_TRANS
  {
  }

  // Whatever a decoder has seen before: a framed telegram gives one record, with the checksum of its
  // bytes, and with its own digits only as far as no older bytes stand before them.
  lemma FramedRecord(m: Machine, body: Line, x: Line)
    requires Ready(m) && Framed(m, body) && CR !in x && LF !in x && 0 !in x
    ensures var n := Run(m, body);
            Log(m, body + x + EOL) == [Record(n.rows, Fold(0, body), Shown(m.crcbuf, n.location, x))]
    ensures Ready(Run(m, body + x + EOL))
    ensures var n := Run(m, body).location;
            Run(m, body + x + EOL).crcbuf == Write(Writes(m.crcbuf, n, x), n + |x|, 0)
  {
    hide Crc, Fold, Shown, Ready, Framed, Run, Log;
    FramedSum(m, body);
    FramedEnd(m, body);
    FramedBuffer(m, body);
    TailShown(Run(m, body), x);
    RunConcat(m, body, x + EOL);
    assert body + x + EOL == body + (x + EOL);
  }

  // At most two adjacent bytes between the slash and the bang of a telegram with its correct checksum
  // change, and the framing survives.  The one record is turned away exactly if no line is unfinished
  // at the bang, or if the text shown is there and is not the new checksum.
  lemma DamageIff(m: Machine, p: Line, a: Line, b: Line, s: Line, lucky: bool)
    requires Ready(m) && |a| == |b| <= 2 && a != b && Framed(m, p + b + s)
    ensures var sent, n := Hex4(Fold(0, p + a + s)), Run(m, p + b + s).location;
            var log, text := Log(m, p + b + s + sent + EOL), Shown(m.crcbuf, n, sent);
            && |log| == 1
            && (!Accept(log[0], false, lucky)
                <==> n == 0 || (text != [] && !Matches(text, Fold(0, p + b + s), lucky)))
  {
    hide Crc, Fold, Hex4, Scan, Ready, Framed, Run, Log, Shown;
    var body, c := p + b + s, Fold(0, p + a + s);
    var n, sent := Run(m, body).location, Hex4(c);
    TwoBytesDetected(0, p, a, b, s);
    Hex4Plain(c);
    FramedRecord(m, body, sent);
    if n == 0 {
      ShownWhole(m.crcbuf, sent);
      ScanHex4(c, []);
      assert sent + [] == sent;
      Hex4Some(c);
    }
  }

  lemma Hex4Some(c: bv16)
    ensures Hex4(c) != []
  {
  }

  // With no unfinished line at the bang, damage is always turned away.
  lemma DamageRejected(m: Machine, p: Line, a: Line, b: Line, s: Line, lucky: bool)
    requires Ready(m) && |a| == |b| <= 2 && a != b
    requires Framed(m, p + b + s) && Run(m, p + b + s).location == 0
    ensures var sent := Hex4(Fold(0, p + a + s));
            && |Log(m, p + b + s + sent + EOL)| == 1
            && !Accept(Log(m, p + b + s + sent + EOL)[0], false, lucky)
  {
    hide Fold, Hex4, Scan, Ready, Framed, Run, Log, Shown;
    DamageIff(m, p, a, b, s, lucky);
  }

  // On the first telegram, exactly then: a buffer never written shows nothing.
  lemma FirstDamageIff(m: Machine, p: Line, a: Line, b: Line, s: Line, lucky: bool)
    requires Ready(m) && m.crcbuf == [] && |a| == |b| <= 2 && a != b
    requires Framed(m, p + b + s)
    ensures var sent := Hex4(Fold(0, p + a + s));
            var log := Log(m, p + b + s + sent + EOL);
            |log| == 1 && (!Accept(log[0], false, lucky) <==> Run(m, p + b + s).location == 0)
  {
    hide Fold, Hex4, Scan, Ready, Framed, Run, Log;
    DamageIff(m, p, a, b, s, lucky);
    var n := Run(m, p + b + s).location;
    if n > 0 {
      assert Cells([], n)[0] == 0;
    }
  }

  // Nothing is written to the checksum buffer before the bang.
  lemma FramedBuffer(m: Machine, body: Line)
    requires Ready(m) && Framed(m, body)
    ensures Run(m, body).crcbuf == m.crcbuf
  {
    hide Crc;
    var n := |body| - 1;
    var p := body[..n];
    assert body == p + [BANG];
    RunSnoc(m, p, BANG);
    ReadingSum(m, p);
    ReadingStep(Run(m, p), BANG);
    ReadingBuffer(m, p);
  }

  lemma {:induction false} ReadingBuffer(m: Machine, t: Line)
    requires Ready(m) && t != [] && t[0] == SLASH && Log(m, t) == [] && Reading(Run(m, t).state)
    ensures Run(m, t).crcbuf == m.crcbuf
    decreases |t|
  {
    hide Crc;
    hide Fold;
    var n := |t| - 1;
    var p, b := t[..n], t[n];
    assert t == p + [b];
    RunSnoc(m, p, b);
    if p != [] {
      assert Log(m, p) == [];
      ReadingSum(m, p);
      ReadingStep(Run(m, p), b);
      ReadingBuffer(m, p);
    }
  }

  // ----- input whose every carriage return starts a line end -----

  ghost predicate Crlf(s: Line) {
    forall i | 0 <= i < |s| - 1 :: s[i] == CR ==> s[i + 1] == LF
  }

  // After input that ended with a carriage return or not.
  ghost predicate CrlfInv(m: Machine, cr: bool) {
    && (m.state == END_TRANS ==> m.location == 0)
    && (m.state == DATA && m.startline && !cr ==> m.location == 0)
  }

  lemma CrlfStep(m: Machine, cr: bool, b: Byte)
    requires CrlfInv(m, cr) && Inv(m) && (cr ==> b == LF)
    ensures CrlfInv(Step(m, b), b == CR)
  {
    hide Crc, CStr, Write;
  }

  // On such input a bang never finds an unfinished line, so the digits always start the buffer.
  lemma {:induction false} CrlfBang(s: Line)
    requires Crlf(s)
    ensures CrlfInv(Run(INITIAL, s), s != [] && s[|s| - 1] == CR) && Inv(Run(INITIAL, s))
    decreases |s|
  {
    assert Inv(INITIAL);
    hide Step, Emit, Inv;
    if s != [] {
      var n := |s| - 1;
      var p, b := s[..n], s[n];
      assert s == p + [b];
      CrlfBang(p);
      RunSnoc(INITIAL, p, b);
      StepInv(Run(INITIAL, p), b);
      CrlfStep(Run(INITIAL, p), p != [] && p[n - 1] == CR, b);
    }
  }
}
