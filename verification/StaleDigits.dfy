// Telegrams that the gate lets through unchecked: a carriage return in place of the last line feed
// leaves a line unfinished, and the checksum digits go behind what the buffer held before.
module StaleDigits {
  import opened Crc16
  import opened CStrings
  import opened Telegram
  import opened TelegramFrames
  import opened TelegramChecks
  import Obis

  const OPEN := [SLASH] + EOL + EOL

  // An empty header, whole lines, and one with the damaged line end.
  function Unfinished(ks: seq<Line>, l: Line): Line {
    OPEN + (PrintLines(ks) + (l + [CR, CR, BANG]))
  }

  // It is a printed telegram with one byte changed.
  lemma OneByteChanged(ks: seq<Line>, l: Line)
    ensures var p := OPEN + (PrintLines(ks) + (l + [CR]));
            && Body(Frame([], ks + [l], true)) == p + [LF] + [BANG]
            && Unfinished(ks, l) == p + [CR] + [BANG]
  {
    hide PrintLines;
    LinesSnoc(ks, l);
    assert Head(Frame([], ks + [l], true)) == OPEN;
    Regrouped(OPEN, PrintLines(ks), l, LF);
    Regrouped(OPEN, PrintLines(ks), l, CR);
    assert l + EOL == l + [CR, LF];
  }

  lemma Regrouped(o: Line, a: Line, l: Line, b: Byte)
    ensures o + (a + (l + [CR])) + [b] + [BANG] == o + (a + (l + [CR, b])) + [BANG]
    ensures o + (a + (l + [CR])) + [b] + [BANG] == o + (a + (l + [CR, b, BANG]))
  {
    var s, t := a + (l + [CR]), a + (l + [CR, b]);
    assert s + [b] == t;
    assert o + s + [b] == o + (s + [b]);
    assert t + [BANG] == a + (l + [CR, b, BANG]);
    assert o + t + [BANG] == o + (t + [BANG]);
  }

  lemma {:induction false} LinesSnoc(ks: seq<Line>, l: Line)
    ensures PrintLines(ks + [l]) == PrintLines(ks) + (l + EOL)
    decreases |ks|
  {
    if ks == [] {
      assert [l][1..] == [] && [] + [l] == [l];
      assert l + EOL + [] == l + EOL;
    } else {
      LinesSnoc(ks[1..], l);
      assert (ks + [l])[1..] == ks[1..] + [l];
      assert ks[0] + EOL + (PrintLines(ks[1..]) + (l + EOL)) == (ks[0] + EOL + PrintLines(ks[1..])) + (l + EOL);
    }
  }

  ghost predicate LinesOk(ks: seq<Line>) {
    forall i | 0 <= i < |ks| :: LineOk(ks[i])
  }

  lemma UnfinishedRead(m: Machine, ks: seq<Line>, l: Line)
    requires Ready(m) && LinesOk(ks) && LineOk(l) && l != []
    ensures Run(m, Unfinished(ks, l))
            == Machine(END_TRANS, false, Fold(0, Unfinished(ks, l)), ks, l, |l|, m.crcbuf)
    ensures Log(m, Unfinished(ks, l)) == []
    ensures Framed(m, Unfinished(ks, l))
  {
    hide Crc, Fold, Run, Log;
    var f := Frame([], [], false);
    assert Head(f) == OPEN;
    HeadRead(m, f);
    var d := Machine(DATA, true, Fold(0, OPEN), [], [], 0, m.crcbuf);
    hide Ready;
    UnfinishedEnd(d, ks, l);
    RunConcat(m, OPEN, PrintLines(ks) + (l + [CR, CR, BANG]));
    FoldConcat(0, OPEN, PrintLines(ks) + (l + [CR, CR, BANG]));
  }

  lemma UnfinishedEnd(d: Machine, ks: seq<Line>, l: Line)
    requires d.state == DATA && d.startline && Inv(d) && d.line == [] && d.rows == [] && d.location == 0
    requires LinesOk(ks) && LineOk(l) && l != []
    ensures var s := PrintLines(ks) + (l + [CR, CR, BANG]);
            && Run(d, s) == Machine(END_TRANS, false, Fold(d.crc, s), ks, l, |l|, d.crcbuf)
            && Log(d, s) == []
  {
    hide Crc, Fold, Run, Log;
    var p := PrintLines(ks);
    LinesRead(d, ks);
    assert d.rows + ks == ks;
    var n := d.(crc := Fold(d.crc, p), rows := ks);
    FieldRead(n, l);
    assert [] + l == l;
    EndRead(n.(crc := Fold(n.crc, l), startline := false, line := l, location := |l|));
    RunConcat(n, l, [CR, CR, BANG]);
    FoldConcat(n.crc, l, [CR, CR, BANG]);
    RunConcat(d, p, l + [CR, CR, BANG]);
    FoldConcat(d.crc, p, l + [CR, CR, BANG]);
  }

  lemma EndRead(m: Machine)
    requires m.state == DATA
    ensures Run(m, [CR, CR, BANG])
            == m.(state := END_TRANS, startline := false, crc := Fold(m.crc, [CR, CR, BANG]))
    ensures Log(m, [CR, CR, BANG]) == []
  {
    hide Crc, Fold, Run, Log;
    Run2(m, CR, CR);
    var n := Run(m, [CR, CR]);
    RunSnoc(m, [CR, CR], BANG);
    FoldSnoc(m.crc, [CR, CR], BANG);
    assert [CR, CR] + [BANG] == [CR, CR, BANG];
  }

  // A fresh decoder takes such a telegram unchecked, whatever the digits are.
  lemma DamageAccepted(ks: seq<Line>, l: Line, x: Line)
    requires LinesOk(ks) && LineOk(l) && l != [] && CR !in x && LF !in x && 0 !in x
    ensures var r := Record(ks, Fold(0, Unfinished(ks, l)), []);
            Log(INITIAL, Unfinished(ks, l) + x + EOL) == [r] && Accept(r, false, false)
  {
    hide Crc, Fold, Run, Log, Framed, Unfinished, LinesOk;
    UnfinishedRead(INITIAL, ks, l);
    FramedRecord(INITIAL, Unfinished(ks, l), x);
    assert Cells([], |l|)[0] == 0;
  }

  // So what it says reaches the store.
  lemma DamageStored(decode: Obis.Decoder, lucky: nat -> bool, store: Obis.Store, ks: seq<Line>, l: Line, x: Line)
    requires LinesOk(ks) && LineOk(l) && l != [] && CR !in x && LF !in x && 0 !in x
    ensures var after := Obis.UpdateRows(decode, store, ks);
            Obis.Outcome(decode, false, lucky, store, Log(INITIAL, Unfinished(ks, l) + x + EOL), 0) == (after, [after])
  {
    hide Log, Unfinished, Fold, Obis.UpdateRows, Obis.Outcome, LinesOk;
    DamageAccepted(ks, l, x);
    Obis.OutcomeOne(decode, false, lucky, store, Record(ks, Fold(0, Unfinished(ks, l)), []), 0);
  }

  // ----- a later telegram -----

  const FIRST_LINE: Line := [49, 72, 71, 56, 67]
  const SECOND_LINE: Line := [65, 65, 65, 65, 65]

  const FIRST := Frame([], [FIRST_LINE], true)

  // After a good telegram of one line, 1HG8C, the digits of that telegram are what is compared with
  // the checksum of a damaged one of the line AAAAA.  They agree, so it is taken, whatever digits it
  // brings itself.
  lemma StaleAccepted(x: Line, lucky: bool)
    requires CR !in x && LF !in x && 0 !in x
    ensures var c := Fold(0, Unfinished([], SECOND_LINE));
            var second := Record([], c, Hex4(c));
            && Log(INITIAL, Print(FIRST) + (Unfinished([], SECOND_LINE) + x + EOL))
               == [Record([FIRST_LINE], c, Hex4(c)), second]
            && Accept(second, false, lucky)
  {
    var c := Fold(0, Unfinished([], SECOND_LINE));
    SameChecksum();
    FirstRead();
    ScanHex4(c, []);
    hide Crc, Fold, Run, Log, Framed, Hex4, Scan, Unfinished, Body, Shown, Print, Ready;
    assert Hex4(c) + [] == Hex4(c);
    var m := Run(INITIAL, Print(FIRST));
    UnfinishedRead(m, [], SECOND_LINE);
    StaleShown(c, x);
    FramedRecord(m, Unfinished([], SECOND_LINE), x);
    RunConcat(INITIAL, Print(FIRST), Unfinished([], SECOND_LINE) + x + EOL);
  }

  lemma FirstRead()
    ensures var c := Fold(0, Body(FIRST));
            && Log(INITIAL, Print(FIRST)) == [Record([FIRST_LINE], c, Hex4(c))]
            && Ready(Run(INITIAL, Print(FIRST)))
            && Run(INITIAL, Print(FIRST)).crcbuf == Write(Writes([], 0, Hex4(c)), 4, 0)
  {
    hide Crc, Fold, Run, Log, Hex4, Body, Shown;
    var c := Fold(0, Body(FIRST));
    BodyRead(INITIAL, FIRST);
    FirstFramed();
    Hex4Plain(c);
    HexFour(c);
    FramedRecord(INITIAL, Body(FIRST), Hex4(c));
    ShownWhole([], Hex4(c));
  }

  lemma HexFour(c: bv16)
    ensures |Hex4(c)| == 4
  {
  }

  lemma FirstFramed()
    ensures Framed(INITIAL, Body(FIRST)) && FrameOk(FIRST)
    ensures Print(FIRST) == Body(FIRST) + Hex4(Fold(0, Body(FIRST))) + EOL
  {
    hide Crc, Fold, Run, Log, Hex4;
    BodyRead(INITIAL, FIRST);
  }

  // Four digits and their NUL stand before the fifth cell.
  lemma StaleShown(c: bv16, x: Line)
    ensures Shown(Write(Writes([], 0, Hex4(c)), 4, 0), 5, x) == Hex4(c)
  {
    Hex4Plain(c);
    HexFour(c);
    var d := Hex4(c);
    hide Hex4, Writes, Write;
    WrittenCells([], 0, d);
    var v := Write(Writes([], 0, d), 4, 0);
    assert forall k | 0 <= k < 4 :: v[k] == v[0..4][k] == d[k];
    assert Cells(v, 5) == d + [0];
    TextIs(d + [0], d, 0);
  }

  // ----- the two checksums -----

  lemma SameChecksum()
    ensures Fold(0, Body(FIRST)) == Fold(0, Unfinished([], SECOND_LINE))
  {
    var a, b := FIRST_LINE + [CR, LF, BANG], SECOND_LINE + [CR, CR, BANG];
    hide Crc, Fold;
    FirstBody();
    var c := Fold(0, OPEN);
    FoldConcat(0, OPEN, a);
    FoldConcat(0, OPEN, b);
    Difference();
    FoldXor(c, c, a, b);
    XorZero(c, c);
    XorZero(Fold(c, a), Fold(c, b));
  }

  lemma FirstBody()
    ensures Body(FIRST) == OPEN + (FIRST_LINE + [CR, LF, BANG])
    ensures Unfinished([], SECOND_LINE) == OPEN + (SECOND_LINE + [CR, CR, BANG])
  {
    assert FIRST.lines[1..] == [];
    assert PrintLines(FIRST.lines) == FIRST_LINE + EOL + [];
  }

  lemma XorZero(x: bv16, y: bv16)
    ensures Xor(x, y) == 0 <==> x == y
  {
    if Xor(x, y) == 0 {
      XorCancels(x, y);
    }
  }

  lemma XorCancels(x: bv16, y: bv16)
    ensures Xor(Xor(x, y), y) == x && Xor(0, y) == y
  {
  }

  lemma Difference()
    ensures XorBytes(FIRST_LINE + [CR, LF, BANG], SECOND_LINE + [CR, CR, BANG]) == [112, 9, 6, 121, 2, 0, 7, 0]
    ensures Fold(0, [112, 9, 6, 121, 2, 0, 7, 0]) == 0
  {
    Steps();
    hide Crc;
    FoldFour(0, 112, 9, 6, 121);
    FoldFour(0x8008, 2, 0, 7, 0);
    var a: Line, b: Line := [112, 9, 6, 121], [2, 0, 7, 0];
    FoldConcat(0, a, b);
    assert a + b == [112, 9, 6, 121, 2, 0, 7, 0];
    hide Fold;
  }

  lemma Steps()
    ensures Crc(0, 112) == 0xE401 && Crc(0xE401, 9) == 0xC6E5 && Crc(0xC6E5, 6) == 0x8987 && Crc(0x8987, 121) == 0x8008
    ensures Crc(0x8008, 2) == 0x0700 && Crc(0x0700, 0) == 0x0007 && Crc(0x0007, 7) == 0 && Crc(0, 0) == 0
  {
  }
}
