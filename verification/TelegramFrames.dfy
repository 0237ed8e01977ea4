// Printed telegrams and what the machine makes of them: the shape of section 6.2 of the P1
// Companion Standard, as src/p1sim.c writes it.
module TelegramFrames {
  import opened Crc16
  import opened CStrings
  import opened HexDigits
  import opened Telegram

  // `header` follows the slash; `checked` says whether the checksum is printed after the bang.
  datatype Frame = Frame(header: Line, lines: seq<Line>, checked: bool)

  const EOL: Line := [CR, LF]

  ghost predicate LineOk(l: Line) {
    CR !in l && LF !in l && (l == [] || l[0] != BANG)
  }

  ghost predicate FrameOk(f: Frame) {
    LF !in f.header && forall i | 0 <= i < |f.lines| :: LineOk(f.lines[i])
  }

  // The checksum as the meter prints it: four upper-case hexadecimal digits.
  function Hex4(c: bv16): Line {
    [HexDigit(c >> 12), HexDigit((c >> 8) & 15), HexDigit((c >> 4) & 15), HexDigit(c & 15)]
  }

  function PrintLines(lines: seq<Line>): Line {
    if lines == [] then [] else lines[0] + EOL + PrintLines(lines[1..])
  }

  // From the slash through the bang: what the checksum covers.
  function Body(f: Frame): Line {
    [SLASH] + f.header + EOL + EOL + PrintLines(f.lines) + [BANG]
  }

  function Digits(f: Frame): Line {
    if f.checked then Hex4(Fold(0, Body(f))) else []
  }

  function Print(f: Frame): Line {
    Body(f) + Digits(f) + EOL
  }

  // Between two telegrams, at the start of a line.
  ghost predicate Ready(m: Machine) {
    Between(m.state) && m.startline && Inv(m)
  }

  // Junk that holds no slash at a line start and ends at a line boundary.
  ghost predicate JunkOk(startline: bool, junk: Line)
    decreases |junk|
  {
    if junk == [] then startline
    else !(startline && junk[0] == SLASH) && JunkOk(junk[0] == CR || junk[0] == LF, junk[1..])
  }

  lemma {:induction false} JunkSkipped(m: Machine, junk: Line)
    requires Between(m.state) && Inv(m) && JunkOk(m.startline, junk)
    ensures Ready(Run(m, junk)) && Log(m, junk) == []
    ensures Run(m, junk) == m.(startline := true)
    decreases |junk|
  {
    hide Crc;
    if junk != [] {
      StepInv(m, junk[0]);
      JunkSkipped(Step(m, junk[0]), junk[1..]);
    }
  }

  // ----- one telegram, piece by piece -----

  function EndsLine(startline: bool, s: Line): bool {
    if s == [] then startline else s[|s| - 1] == CR || s[|s| - 1] == LF
  }

  lemma {:induction false} HeaderRead(m: Machine, h: Line)
    requires m.state == START && LF !in h
    ensures Run(m, h) == m.(crc := Fold(m.crc, h), startline := EndsLine(m.startline, h))
    ensures Log(m, h) == []
    decreases |h|
  {
    hide Crc;
    if h != [] {
      HeaderRead(Step(m, h[0]), h[1..]);
    }
  }

  // The line that separates header and data may hold anything: it only counts for the checksum.
  lemma {:induction false} SeparatorSkipped(m: Machine, gap: Line)
    requires m.state == SEPARATOR && LF !in gap
    ensures Run(m, gap) == m.(crc := Fold(m.crc, gap), startline := EndsLine(m.startline, gap))
    ensures Log(m, gap) == []
    decreases |gap|
  {
    hide Crc;
    if gap != [] {
      SeparatorSkipped(Step(m, gap[0]), gap[1..]);
    }
  }

  // A line feed from the header, and then another line end, lead to the data.
  lemma SeparatorRead(m: Machine)
    requires m.state == START
    ensures Run(m, EOL + EOL) == m.(state := DATA, crc := Fold(m.crc, EOL + EOL), startline := true)
    ensures Log(m, EOL + EOL) == []
  {
    hide Crc;
    var a, b, c, d := CR, LF, CR, LF;
    assert EOL + EOL == [a, b, c, d];
    Run4(m, a, b, c, d);
  }

  lemma Run2(m: Machine, a: Byte, b: Byte)
    ensures Run(m, [a, b]) == Step(Step(m, a), b)
    ensures Log(m, [a, b]) == Emit(m, a) + Emit(Step(m, a), b)
    ensures Fold(m.crc, [a, b]) == Crc(Crc(m.crc, a), b)
  {
    hide Step;
    hide Emit;
    hide Crc;
    assert [a, b] == [a] + [b];
    assert [a] == [] + [a];
    RunSnoc(m, [a], b);
    RunSnoc(m, [], a);
    FoldSnoc(m.crc, [a], b);
    FoldSnoc(m.crc, [], a);
  }

  lemma FoldFour(c: bv16, p: Byte, q: Byte, r: Byte, s: Byte)
    ensures Fold(c, [p, q, r, s]) == Crc(Crc(Crc(Crc(c, p), q), r), s)
  {
    hide Crc;
    FoldSnoc(c, [p, q, r], s);
    FoldSnoc(c, [p, q], r);
    FoldSnoc(c, [p], q);
    FoldSnoc(c, [], p);
    assert [p, q, r] + [s] == [p, q, r, s] && [p, q] + [r] == [p, q, r] && [p] + [q] == [p, q] && [] + [p] == [p];
  }

  // The value published for this CRC, of the digits 1 to 9.
  lemma CheckValue()
    ensures Fold(0, [49, 50, 51, 52, 53, 54, 55, 56, 57]) == 0xBB3D
  {
    FirstSteps();
    LastSteps();
    hide Crc;
    FoldFour(0, 49, 50, 51, 52);
    FoldFour(0x14BA, 53, 54, 55, 56);
    FoldConcat(0, [49, 50, 51, 52], [53, 54, 55, 56]);
    var s: Line := [49, 50, 51, 52, 53, 54, 55, 56];
    assert [49, 50, 51, 52] + [53, 54, 55, 56] == s;
    FoldSnoc(0, s, 57);
    assert s + [57] == [49, 50, 51, 52, 53, 54, 55, 56, 57];
    hide Fold;
  }

  lemma FirstSteps()
    ensures Crc(0, 49) == 0xD4C1 && Crc(0xD4C1, 50) == 0x4594 && Crc(0x4594, 51) == 0xBA04 && Crc(0xBA04, 52) == 0x14BA
  {
  }

  lemma LastSteps()
    ensures Crc(0x14BA, 53) == 0xA455 && Crc(0xA455, 54) == 0x29E4 && Crc(0x29E4, 55) == 0x9D68
    ensures Crc(0x9D68, 56) == 0x3C9D && Crc(0x3C9D, 57) == 0xBB3D
  {
  }

  lemma Run4(m: Machine, a: Byte, b: Byte, c: Byte, d: Byte)
    ensures Run(m, [a, b, c, d]) == Step(Step(Step(Step(m, a), b), c), d)
    ensures Log(m, [a, b, c, d])
            == Emit(m, a) + Emit(Step(m, a), b) + Emit(Step(Step(m, a), b), c) + Emit(Step(Step(Step(m, a), b), c), d)
    ensures Fold(m.crc, [a, b, c, d]) == Crc(Crc(Crc(Crc(m.crc, a), b), c), d)
  {
    hide Step, Emit, Crc, Run, Log, Fold;
    Run2(m, a, b);
    var n := Step(Step(m, a), b);
    Run2(n, c, d);
    assert [a, b, c, d] == [a, b] + [c, d];
    RunConcat(m, [a, b], [c, d]);
    FoldFour(m.crc, a, b, c, d);
  }

  lemma FieldStep(m: Machine, b: Byte)
    requires m.state == DATA && b != CR && b != LF && (m.startline ==> b != BANG)
    ensures Step(m, b) == m.(crc := Crc(m.crc, b), startline := false, line := m.line + [b], location := m.location + 1)
    ensures Emit(m, b) == []
  {
    hide Crc;
  }

  lemma {:induction false} FieldRead(m: Machine, l: Line)
    requires m.state == DATA && CR !in l && LF !in l && (m.startline ==> l == [] || l[0] != BANG)
    ensures Run(m, l) == m.(crc := Fold(m.crc, l), startline := EndsLine(m.startline, l),
                            line := m.line + l, location := m.location + |l|)
    ensures Log(m, l) == []
    decreases |l|
  {
    hide Crc, Step, Emit;
    if l == [] {
      assert m.line + l == m.line;
    } else {
      FieldStep(m, l[0]);
      FieldRead(Step(m, l[0]), l[1..]);
      assert m.line + [l[0]] + l[1..] == m.line + l;
    }
  }

  lemma LineRead(m: Machine, l: Line)
    requires m.state == DATA && m.startline && Inv(m) && m.line == [] && LineOk(l)
    ensures Run(m, l + EOL) == m.(crc := Fold(m.crc, l + EOL), rows := m.rows + [l])
    ensures Log(m, l + EOL) == []
  {
    hide Crc;
    FieldRead(m, l);
    assert m.line + l == l;
    RunConcat(m, l, EOL);
    FoldConcat(m.crc, l, EOL);
    Run2(Run(m, l), CR, LF);
  }

  lemma {:induction false} LinesRead(m: Machine, lines: seq<Line>)
    requires m.state == DATA && m.startline && Inv(m) && m.line == []
    requires forall i | 0 <= i < |lines| :: LineOk(lines[i])
    ensures var p := PrintLines(lines);
            Run(m, p) == m.(crc := Fold(m.crc, p), rows := m.rows + lines) && Log(m, p) == []
    decreases |lines|
  {
    hide Crc;
    hide Step;
    hide Emit;
    if lines == [] {
      assert m.rows + lines == m.rows;
    } else {
      var l, rest := lines[0] + EOL, PrintLines(lines[1..]);
      LineRead(m, lines[0]);
      RunConcat(m, l, rest);
      FoldConcat(m.crc, l, rest);
      LinesRead(Run(m, l), lines[1..]);
      assert m.rows + [lines[0]] + lines[1..] == m.rows + lines;
    }
  }

  function Head(f: Frame): Line {
    [SLASH] + f.header + (EOL + EOL)
  }

  lemma HeadRead(m: Machine, f: Frame)
    requires Ready(m) && FrameOk(f)
    ensures Run(m, Head(f)) == Machine(DATA, true, Fold(0, Head(f)), [], [], 0, m.crcbuf)
    ensures Log(m, Head(f)) == []
  {
    var h, e := f.header, EOL + EOL;
    SlashRead(m);
    RunConcat(m, [SLASH], h);
    FoldConcat(0, [SLASH], h);
    RunConcat(m, [SLASH] + h, e);
    FoldConcat(0, [SLASH] + h, e);
    var m1 := Machine(START, false, Fold(0, [SLASH]), [], [], 0, m.crcbuf);
    HeaderRead(m1, h);
    SeparatorRead(Run(m1, h));
    hide Crc;
    hide Fold;
    hide Step;
    hide Emit;
    hide Run;
    hide Log;
  }

  // From the slash through the bang.
  lemma BodyRead(m: Machine, f: Frame)
    requires Ready(m) && FrameOk(f)
    ensures Run(m, Body(f)) == Machine(END_TRANS, false, Fold(0, Body(f)), f.lines, [], 0, m.crcbuf)
    ensures Log(m, Body(f)) == []
  {
    var d, p := Head(f), PrintLines(f.lines);
    var all := d + p;
    assert Body(f) == all + [BANG] by {
      assert [SLASH] + f.header + EOL + EOL == Head(f);
    }
    HeadRead(m, f);
    RunConcat(m, d, p);
    FoldConcat(0, d, p);
    var m3 := Machine(DATA, true, Fold(0, d), [], [], 0, m.crcbuf);
    LinesRead(m3, f.lines);
    assert [] + f.lines == f.lines;
    var m4 := Machine(DATA, true, Fold(0, all), f.lines, [], 0, m.crcbuf);
    assert Run(m, all) == m4 && Log(m, all) == [];
    RunSnoc(m, all, BANG);
    FoldSnoc(0, all, BANG);
    BangRead(m4);
    hide Crc;
    hide Fold;
    hide Step;
    hide Emit;
    hide Run;
    hide Log;
  }

  lemma BangRead(m: Machine)
    requires m.state == DATA && m.startline
    ensures Step(m, BANG) == m.(state := END_TRANS, crc := Crc(m.crc, BANG), startline := false) && Emit(m, BANG) == []
  {
    hide Crc;
  }

  lemma SlashRead(m: Machine)
    requires Ready(m)
    ensures Run(m, [SLASH]) == m.(state := START, crc := Fold(0, [SLASH]), startline := false)
    ensures Log(m, [SLASH]) == []
  {
    hide Crc;
    RunSnoc(m, [], SLASH);
    FoldSnoc(0, [], SLASH);
    assert [] + [SLASH] == [SLASH];
  }

  // ----- the checksum buffer -----

  function Writes(s: Line, i: nat, x: Line): Line
    decreases |x|
  {
    if x == [] then s else Writes(Write(s, i, x[0]), i + 1, x[1..])
  }

  ghost function Cell(s: Line, k: nat): Byte {
    if k < |s| then s[k] else 0
  }

  lemma {:induction false} WritesCells(s: Line, i: nat, x: Line)
    ensures forall k: nat :: Cell(Writes(s, i, x), k) == if i <= k < i + |x| then x[k - i] else Cell(s, k)
    ensures x != [] ==> |Writes(s, i, x)| >= i + |x|
    decreases |x|
  {
    if x != [] {
      var w := Write(s, i, x[0]);
      WritesCells(w, i + 1, x[1..]);
      assert forall k: nat :: Cell(w, k) == if k == i then x[0] else Cell(s, k);
      WritesLength(w, i + 1, x[1..]);
    }
  }

  lemma {:induction false} WritesLength(s: Line, i: nat, x: Line)
    ensures |Writes(s, i, x)| >= |s|
    decreases |x|
  {
    if x != [] {
      WritesLength(Write(s, i, x[0]), i + 1, x[1..]);
    }
  }

  // The first n cells, zero where nothing was written.
  ghost function Cells(s: Line, n: nat): (c: Line)
    ensures |c| == n && forall k | 0 <= k < n :: c[k] == Cell(s, k)
  {
    seq(n, k requires 0 <= k < n => Cell(s, k))
  }

  // What the buffer shows as a string when x is written from place n on and closed: x itself from
  // the start; otherwise what stood there before, up to its NUL, and x only if there is none.
  ghost function Shown(s: Line, n: nat, x: Line): Line {
    var before := CStr(Cells(s, n));
    if |before| < n then before else before + x
  }

  lemma ShownText(s: Line, n: nat, x: Line)
    requires 0 !in x
    ensures CStr(Write(Writes(s, n, x), n + |x|, 0)) == Shown(s, n, x)
  {
    hide Writes, Write, Cells, Text;
    WrittenCells(s, n, x);
    var v, before := Write(Writes(s, n, x), n + |x|, 0), CStr(Cells(s, n));
    if |before| < n {
      TextIs(v, before, 0);
    } else {
      assert v[..n + |x|] == before + x;
      TextIs(v, before + x, 0);
    }
  }

  lemma WrittenCells(s: Line, n: nat, x: Line)
    ensures var v := Write(Writes(s, n, x), n + |x|, 0);
            && |v| > n + |x| && v[n + |x|] == 0
            && v[..n] == Cells(s, n) && v[n..n + |x|] == x
  {
    WritesCells(s, n, x);
    var w := Writes(s, n, x);
    hide Writes;
    var v := Write(w, n + |x|, 0);
    assert forall k: nat | k < n + |x| :: v[k] == Cell(w, k);
    assert forall k | 0 <= k < |x| :: v[n..n + |x|][k] == Cell(w, n + k) == x[k];
  }

  lemma {:induction false} DigitsRead(m: Machine, x: Line)
    requires (m.state == END_TRANS || m.state == END_TRANS_CRC) && CR !in x && LF !in x
    ensures Run(m, x) == m.(state := if x == [] then m.state else END_TRANS_CRC, startline := EndsLine(m.startline, x),
                            crcbuf := Writes(m.crcbuf, m.location, x), location := m.location + |x|)
    ensures Log(m, x) == []
    decreases |x|
  {
    hide Write;
    if x != [] {
      DigitsRead(Step(m, x[0]), x[1..]);
    }
  }

  lemma LineEndRead(m: Machine)
    requires m.state == END_TRANS || m.state == END_TRANS_CRC
    ensures Log(m, EOL) == [Record(m.rows, m.crc, CStr(Write(m.crcbuf, m.location, 0)))]
    ensures Ready(Run(m, EOL)) && Run(m, EOL).state == TRAILER
    ensures Run(m, EOL).crcbuf == Write(m.crcbuf, m.location, 0)
  {
    Run2(m, CR, LF);
    hide Write;
    hide CStr;
    hide Crc;
    hide Fold;
  }

  // From the bang to the end of the line: the record is handed over, and the machine is ready again.
  lemma TailShown(m: Machine, x: Line)
    requires m.state == END_TRANS && CR !in x && LF !in x && 0 !in x
    ensures Log(m, x + EOL) == [Record(m.rows, m.crc, Shown(m.crcbuf, m.location, x))]
    ensures Ready(Run(m, x + EOL)) && Run(m, x + EOL).state == TRAILER
    ensures Run(m, x + EOL).crcbuf == Write(Writes(m.crcbuf, m.location, x), m.location + |x|, 0)
  {
    hide Write, Writes, CStr, Shown, Crc, Fold, Run, Log, Ready;
    DigitsRead(m, x);
    var n := Run(m, x);
    ShownText(m.crcbuf, m.location, x);
    LineEndRead(n);
    RunConcat(m, x, EOL);
  }

  // Without an unfinished line at the bang, the digits are what is handed over.
  lemma TailRead(m: Machine, x: Line)
    requires m.state == END_TRANS && m.location == 0 && CR !in x && LF !in x && 0 !in x
    ensures Log(m, x + EOL) == [Record(m.rows, m.crc, x)]
    ensures Ready(Run(m, x + EOL)) && Run(m, x + EOL).state == TRAILER
  {
    TailShown(m, x);
    ShownWhole(m.crcbuf, x);
  }

  lemma ShownWhole(s: Line, x: Line)
    ensures Shown(s, 0, x) == x
  {
    assert Cells(s, 0) == [];
    assert [] + x == x;
  }

  lemma Hex4Plain(c: bv16)
    ensures CR !in Hex4(c) && LF !in Hex4(c) && 0 !in Hex4(c)
  {
    HexDigitPlain(c >> 12);
    HexDigitPlain((c >> 8) & 15);
    HexDigitPlain((c >> 4) & 15);
    HexDigitPlain(c & 15);
    hide HexDigit;
  }

  // Printing and reading undo each other: one record, with the printed lines and the right checksum.
  lemma FrameRead(m: Machine, f: Frame)
    requires Ready(m) && FrameOk(f)
    ensures Log(m, Print(f)) == [Record(f.lines, Fold(0, Body(f)), Digits(f))]
    ensures Ready(Run(m, Print(f)))
  {
    hide Crc;
    hide Fold;
    hide Step;
    hide Emit;
    hide Body;
    hide Run;
    hide Log;
    hide Hex4;
    hide Ready;
    var c := Fold(0, Body(f));
    BodyRead(m, f);
    Hex4Plain(c);
    TailRead(Machine(END_TRANS, false, c, f.lines, [], 0, m.crcbuf), Digits(f));
    assert Print(f) == Body(f) + (Digits(f) + EOL);
    RunConcat(m, Body(f), Digits(f) + EOL);
  }

  // ----- whole streams -----

  function Stream(junk: seq<Line>, fs: seq<Frame>): Line
    requires |junk| == |fs|
  {
    if fs == [] then [] else junk[0] + Print(fs[0]) + Stream(junk[1..], fs[1..])
  }

  function Records(fs: seq<Frame>): seq<Record> {
    if fs == [] then []
    else [Record(fs[0].lines, Fold(0, Body(fs[0])), Digits(fs[0]))] + Records(fs[1..])
  }

  // Telegrams, each after junk that ends a line, come out as exactly their lines, in order.
  lemma {:induction false} StreamRead(m: Machine, junk: seq<Line>, fs: seq<Frame>)
    requires Ready(m) && |junk| == |fs|
    requires forall i | 0 <= i < |fs| :: FrameOk(fs[i]) && JunkOk(true, junk[i])
    ensures Log(m, Stream(junk, fs)) == Records(fs) && Ready(Run(m, Stream(junk, fs)))
    decreases |fs|
  {
    hide Fold;
    hide Step;
    hide Emit;
    hide Print;
    hide Body;
    hide Digits;
    hide Run, Log, JunkOk, FrameOk;
    if fs == [] {
      NothingRead(m);
    } else {
      var j, p, rest := junk[0], Print(fs[0]), Stream(junk[1..], fs[1..]);
      JunkSkipped(m, j);
      FrameRead(Run(m, j), fs[0]);
      RunConcat(m, j, p);
      RunConcat(m, j + p, rest);
      StreamRead(Run(m, j + p), junk[1..], fs[1..]);
    }
  }

  lemma NothingRead(m: Machine)
    ensures Run(m, []) == m && Log(m, []) == []
  {
  }
}
