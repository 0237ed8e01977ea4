// What the decoder's buffers must hold: the code checks no bound.
module Capacity {
  import opened Crc16
  import opened Telegram
  import opened TelegramFrames

  const ROWS := 256
  const COLUMNS := 4096
  const CRCS := 256

  // The byte must find room in the buffer it goes to.
  ghost predicate Room(m: Machine, b: Byte) {
    match Switch(m, b).2
    case BUFFER_FIELD => |m.rows| < ROWS && m.location < COLUMNS
    case TERMINATE_FIELD => |m.rows| < ROWS && m.location < COLUMNS
    case BUFFER_CRC => m.location < CRCS
    case PROCESS_RECORD => m.location < CRCS
    case NONE => true
  }

  ghost predicate Bounded(m: Machine, s: Line)
    decreases |s|
  {
    s != [] ==> Room(m, s[0]) && Bounded(Step(m, s[0]), s[1..])
  }

  lemma {:induction false} BoundedConcat(m: Machine, a: Line, b: Line)
    ensures Bounded(m, a + b) <==> Bounded(m, a) && Bounded(Run(m, a), b)
    decreases |a|
  {
    hide Step, Room;
    if a == [] {
      assert a + b == b;
    } else {
      BoundedConcat(Step(m, a[0]), a[1..], b);
      assert (a + b)[1..] == a[1..] + b;
    }
  }

  lemma BoundedOne(m: Machine, b: Byte)
    ensures Bounded(m, [b]) <==> Room(m, b)
  {
    hide Step, Room;
    assert [b][1..] == [];
  }

  // A telegram of at most 256 lines of fewer than 4096 bytes.
  ghost predicate Fits(f: Frame) {
    |f.lines| <= 256 && forall i | 0 <= i < |f.lines| :: |f.lines[i]| < 4096
  }

  // ----- printed telegrams fit, piece by piece -----

  lemma {:induction false} JunkFits(m: Machine, junk: Line)
    requires Between(m.state) && JunkOk(m.startline, junk)
    ensures Bounded(m, junk)
    decreases |junk|
  {
    hide Crc;
    if junk != [] {
      JunkFits(Step(m, junk[0]), junk[1..]);
    }
  }

  lemma {:induction false} HeaderFits(m: Machine, h: Line)
    requires m.state == START && LF !in h
    ensures Bounded(m, h)
    decreases |h|
  {
    hide Crc;
    if h != [] {
      HeaderFits(Step(m, h[0]), h[1..]);
    }
  }

  lemma HeadFits(m: Machine, f: Frame)
    requires Ready(m) && FrameOk(f)
    ensures Bounded(m, Head(f))
  {
    hide Crc, Fold, Step, Run, Bounded;
    var h := f.header;
    SlashRead(m);
    SlashFits(m);
    var n := Run(m, [SLASH]);
    HeaderFits(n, h);
    HeaderRead(n, h);
    SeparatorFits(Run(n, h));
    BoundedConcat(n, h, EOL + EOL);
    BoundedConcat(m, [SLASH], h + (EOL + EOL));
    assert Head(f) == [SLASH] + (h + (EOL + EOL));
  }

  lemma SlashFits(m: Machine)
    requires Ready(m)
    ensures Bounded(m, [SLASH])
  {
    BoundedOne(m, SLASH);
  }

  lemma SeparatorFits(m: Machine)
    requires m.state == START
    ensures Bounded(m, EOL + EOL)
  {
    hide Crc;
    assert EOL + EOL == [CR] + [LF] + [CR] + [LF];
    var n := Step(Step(m, CR), LF);
    BoundedOne(m, CR);
    BoundedOne(Step(m, CR), LF);
    BoundedOne(n, CR);
    BoundedOne(Step(n, CR), LF);
    BoundedConcat(m, [CR], [LF]);
    Run2(m, CR, LF);
    RunSnoc(m, [CR] + [LF], CR);
    RunSnoc(m, [], CR);
    BoundedConcat(m, [CR] + [LF], [CR]);
    BoundedConcat(m, [CR] + [LF] + [CR], [LF]);
  }

  lemma {:induction false} FieldFits(m: Machine, l: Line)
    requires m.state == DATA && CR !in l && LF !in l && (m.startline ==> l == [] || l[0] != BANG)
    ensures Bounded(m, l) <==> l == [] || (|m.rows| < ROWS && m.location + |l| <= COLUMNS)
    decreases |l|
  {
    hide Crc;
    if l != [] {
      FieldFits(Step(m, l[0]), l[1..]);
    }
  }

  lemma LineFits(m: Machine, l: Line)
    requires m.state == DATA && m.startline && Inv(m) && m.line == [] && LineOk(l)
    ensures Bounded(m, l + EOL) <==> |m.rows| < ROWS && |l| < COLUMNS
  {
    FieldFits(m, l);
    FieldRead(m, l);
    LineEndFits(Run(m, l));
    hide Bounded, Run, Crc, Fold;
    BoundedConcat(m, l, EOL);
  }

  lemma LineEndFits(m: Machine)
    requires m.state == DATA
    ensures Bounded(m, EOL) <==> |m.rows| < ROWS && m.location < COLUMNS
  {
    hide Crc;
    assert EOL == [CR] + [LF];
    BoundedOne(m, CR);
    BoundedOne(Step(m, CR), LF);
    RunSnoc(m, [], CR);
    assert [] + [CR] == [CR];
    BoundedConcat(m, [CR], [LF]);
  }

  lemma {:induction false} LinesFit(m: Machine, lines: seq<Line>)
    requires m.state == DATA && m.startline && Inv(m) && m.line == [] && |m.rows| <= ROWS
    requires forall i | 0 <= i < |lines| :: LineOk(lines[i])
    ensures Bounded(m, PrintLines(lines))
            <==> |m.rows| + |lines| <= ROWS && forall i | 0 <= i < |lines| :: |lines[i]| < COLUMNS
    decreases |lines|
  {
    hide Crc, Fold, Step, Run;
    if lines != [] {
      var l, rest := lines[0] + EOL, lines[1..];
      LineFits(m, lines[0]);
      LineRead(m, lines[0]);
      BoundedConcat(m, l, PrintLines(rest));
      if |m.rows| < ROWS {
        LinesFit(Run(m, l), rest);
        assert forall i | 0 <= i < |rest| :: rest[i] == lines[i + 1];
        assert forall i | 0 < i < |lines| :: lines[i] == rest[i - 1];
      }
    }
  }

  lemma {:induction false} DigitsFit(m: Machine, x: Line)
    requires (m.state == END_TRANS || m.state == END_TRANS_CRC) && CR !in x && LF !in x && m.location + |x| < CRCS
    ensures Bounded(m, x)
    decreases |x|
  {
    hide Write, Crc;
    if x != [] {
      DigitsFit(Step(m, x[0]), x[1..]);
    }
  }

  lemma TailFits(m: Machine, x: Line)
    requires m.state == END_TRANS && m.location + |x| < CRCS && CR !in x && LF !in x
    ensures Bounded(m, x + EOL)
  {
    DigitsFit(m, x);
    DigitsRead(m, x);
    hide Bounded, Run, Crc, Fold, Writes;
    EndFits(Run(m, x));
    BoundedConcat(m, x, EOL);
  }

  lemma EndFits(m: Machine)
    requires (m.state == END_TRANS || m.state == END_TRANS_CRC) && m.location < CRCS
    ensures Bounded(m, EOL)
  {
    hide Crc, Write;
    assert EOL == [CR] + [LF];
    BoundedOne(m, CR);
    BoundedOne(Step(m, CR), LF);
    RunSnoc(m, [], CR);
    assert [] + [CR] == [CR];
    BoundedConcat(m, [CR], [LF]);
  }

  lemma BodyFits(m: Machine, f: Frame)
    requires Ready(m) && FrameOk(f)
    ensures Bounded(m, Body(f)) <==> Fits(f)
  {
    BodyParts(f);
    hide Crc, Fold, Step, Run, Bounded, Body, Head, PrintLines;
    var d, p := Head(f), PrintLines(f.lines);
    HeadFits(m, f);
    HeadRead(m, f);
    var n := Machine(DATA, true, Fold(0, d), [], [], 0, m.crcbuf);
    LinesFit(n, f.lines);
    LinesRead(n, f.lines);
    BangFits(Run(n, p));
    BoundedConcat(n, p, [BANG]);
    BoundedConcat(m, d, p + [BANG]);
  }

  lemma BodyParts(f: Frame)
    ensures Body(f) == Head(f) + (PrintLines(f.lines) + [BANG])
  {
    hide PrintLines;
  }

  // A printed telegram stays within the buffers exactly if it fits.
  lemma FrameFits(m: Machine, f: Frame)
    requires Ready(m) && FrameOk(f)
    ensures Bounded(m, Print(f)) <==> Fits(f)
  {
    hide Crc, Fold, Step, Run, Bounded, Hex4, Body, Fits;
    BodyFits(m, f);
    BodyRead(m, f);
    Hex4Plain(Fold(0, Body(f)));
    FewDigits(f);
    TailFits(Run(m, Body(f)), Digits(f));
    BoundedConcat(m, Body(f), Digits(f) + EOL);
    assert Print(f) == Body(f) + (Digits(f) + EOL);
  }

  lemma FewDigits(f: Frame)
    ensures |Digits(f)| <= 4
  {
    hide Body, Fold;
  }

  lemma BangFits(m: Machine)
    requires m.state == DATA && m.startline
    ensures Bounded(m, [BANG])
  {
    BoundedOne(m, BANG);
  }

  // A stream, with any junk before each telegram, stays within them exactly if every telegram fits.
  lemma {:induction false} StreamFits(m: Machine, junk: seq<Line>, fs: seq<Frame>)
    requires Ready(m) && |junk| == |fs|
    requires forall i | 0 <= i < |fs| :: FrameOk(fs[i]) && JunkOk(true, junk[i])
    ensures Bounded(m, Stream(junk, fs)) <==> forall i | 0 <= i < |fs| :: Fits(fs[i])
    decreases |fs|
  {
    hide Crc, Fold, Step, Run, Print, JunkOk, FrameOk, Fits;
    if fs != [] {
      var j, p, rest := junk[0], Print(fs[0]), Stream(junk[1..], fs[1..]);
      JunkFits(m, j);
      JunkSkipped(m, j);
      var n := Run(m, j);
      FrameFits(n, fs[0]);
      FrameRead(n, fs[0]);
      StreamFits(Run(n, p), junk[1..], fs[1..]);
      BoundedConcat(n, p, rest);
      BoundedConcat(m, j, p + rest);
      assert j + p + rest == j + (p + rest);
      assert forall i | 0 < i < |fs| :: fs[i] == fs[1..][i - 1];
      assert forall i | 0 <= i < |fs| - 1 :: fs[1..][i] == fs[i + 1];
    }
  }
}
