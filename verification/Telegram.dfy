// The byte machine of dsmr_decode in src/dsmr.c, on values.  `Step` is one turn of its loop; a
// `Record` is what dsmr_process is handed.
module Telegram {
  import opened Crc16
  import opened CStrings

  type Byte = bv8
  type Line = seq<Byte>

  const CR: Byte := 13
  const LF: Byte := 10
  const SLASH: Byte := 47
  const BANG: Byte := 33

  datatype State = UNDEF | START | SEPARATOR | DATA | END_TRANS | END_TRANS_CRC | TRAILER

  datatype Action = BUFFER_FIELD | NONE | TERMINATE_FIELD | PROCESS_RECORD | BUFFER_CRC

  // `rows` are the terminated lines and `line` the unfinished one; `crcbuf` is the checksum buffer,
  // zero beyond its length, and keeps what earlier telegrams left in it.
  datatype Machine = Machine(
    state: State, startline: bool, crc: bv16, rows: seq<Line>, line: Line, location: nat, crcbuf: Line)

  datatype Record = Record(rows: seq<Line>, crc: bv16, text: Line)

  const INITIAL := Machine(UNDEF, true, 0, [], [], 0, [])

  // The part of a buffer that C sees as a string.
  function CStr(s: Line): Line {
    Text(s, 0)
  }

  function Zeros(n: nat): Line {
    seq(n, _ => 0)
  }

  function Write(s: Line, i: nat, b: Byte): Line {
    if i < |s| then s[i := b] else s + Zeros(i - |s|) + [b]
  }

  // The state switch: next state, whether the byte enters the checksum, and the action.
  function Switch(m: Machine, b: Byte): (State, bool, Action) {
    match m.state
    case UNDEF => if b == SLASH && m.startline then (START, true, NONE) else (UNDEF, false, NONE)
    case START => (if b == LF then SEPARATOR else START, true, NONE)
    case SEPARATOR => (if b == LF then DATA else SEPARATOR, true, NONE)
    case DATA =>
      if b == BANG && m.startline then (END_TRANS, true, NONE)
      else if b == LF then (DATA, true, TERMINATE_FIELD)
      else if b == CR then (DATA, true, NONE)
      else (DATA, true, BUFFER_FIELD)
    case END_TRANS =>
      if b == LF then (TRAILER, false, PROCESS_RECORD)
      else if b == CR then (END_TRANS, false, NONE)
      else (END_TRANS_CRC, false, BUFFER_CRC)
    case END_TRANS_CRC =>
      if b == LF then (TRAILER, false, PROCESS_RECORD)
      else if b == CR then (END_TRANS_CRC, false, NONE)
      else (END_TRANS_CRC, false, BUFFER_CRC)
    case TRAILER => if b == SLASH && m.startline then (START, true, NONE) else (TRAILER, false, NONE)
  }

  function Moved(m: Machine, b: Byte): Machine {
    var (state, sum, _) := Switch(m, b);
    m.(state := state, crc := if sum then Crc(m.crc, b) else m.crc, startline := b == CR || b == LF)
  }

  function Step(m: Machine, b: Byte): Machine {
    var n := Moved(m, b);
    match Switch(m, b).2
    case BUFFER_FIELD => n.(line := n.line + [b], location := n.location + 1)
    case TERMINATE_FIELD => n.(rows := n.rows + [n.line], line := [], location := 0)
    case PROCESS_RECORD =>
      n.(crcbuf := Write(n.crcbuf, n.location, 0), location := 0, rows := [], line := [], crc := 0)
    case BUFFER_CRC => n.(crcbuf := Write(n.crcbuf, n.location, b), location := n.location + 1)
    case NONE => n
  }

  function Emit(m: Machine, b: Byte): seq<Record> {
    if Switch(m, b).2 == PROCESS_RECORD
    then [Record(m.rows, m.crc, CStr(Write(m.crcbuf, m.location, 0)))]
    else []
  }

  function Run(m: Machine, s: Line): Machine
    decreases |s|
  {
    if s == [] then m else Run(Step(m, s[0]), s[1..])
  }

  function Log(m: Machine, s: Line): seq<Record>
    decreases |s|
  {
    if s == [] then [] else Emit(m, s[0]) + Log(Step(m, s[0]), s[1..])
  }

  // However a stream is cut into chunks, the machine and its records are the same.
  lemma {:induction false} RunConcat(m: Machine, a: Line, b: Line)
    ensures Run(m, a + b) == Run(Run(m, a), b)
    ensures Log(m, a + b) == Log(m, a) + Log(Run(m, a), b)
    decreases |a|
  {
    hide Step;
    hide Emit;
    if a == [] {
      assert a + b == b;
    } else {
      RunConcat(Step(m, a[0]), a[1..], b);
      assert (a + b)[1..] == a[1..] + b;
    }
  }

  // ----- what every run keeps -----

  ghost predicate Between(s: State) {
    s == UNDEF || s == TRAILER
  }

  ghost predicate Framing(s: State) {
    Between(s) || s == START || s == SEPARATOR
  }

  ghost predicate Inv(m: Machine) {
    && (Between(m.state) ==> m.crc == 0)
    && (Framing(m.state) ==> m.rows == [] && m.line == [] && m.location == 0)
    && (m.state == DATA ==> m.location == |m.line|)
  }

  lemma StepInv(m: Machine, b: Byte)
    requires Inv(m)
    ensures Inv(Step(m, b))
  {
    hide Crc;
  }

  lemma {:induction false} RunInv(m: Machine, s: Line)
    requires Inv(m)
    ensures Inv(Run(m, s))
    decreases |s|
  {
    hide Step;
    hide Inv;
    if s != [] {
      StepInv(m, s[0]);
      RunInv(Step(m, s[0]), s[1..]);
    }
  }

  // ----- what the checksum covers -----

  // Where in the stream `s` the telegram being read starts and where its checksummed part ends.
  ghost function Span(s: Line): (nat, nat)
    decreases |s|
  {
    if s == [] then (0, 0)
    else
      var n := |s| - 1;
      var m := Run(INITIAL, s[..n]);
      var (i, j) := Span(s[..n]);
      if Between(Step(m, s[n]).state) then (n + 1, n + 1)
      else if Between(m.state) then (n, n + 1)
      else if Switch(m, s[n]).1 then (i, n + 1)
      else (i, j)
  }

  lemma RunSnoc(m: Machine, s: Line, b: Byte)
    ensures Run(m, s + [b]) == Step(Run(m, s), b)
    ensures Log(m, s + [b]) == Log(m, s) + Emit(Run(m, s), b)
  {
    hide Step;
    hide Emit;
    RunConcat(m, s, [b]);
    var n := Run(m, s);
    assert [b][1..] == [];
    assert Run(n, [b]) == Run(Step(n, b), []);
    assert Log(n, [b]) == Emit(n, b) + Log(Step(n, b), []);
  }

  ghost predicate Spanned(m: Machine, s: Line, i: nat, j: nat) {
    && i <= j <= |s| && m.crc == Fold(0, s[i..j])
    && (Between(m.state) <==> i == j)
    && (i < j ==> s[i] == SLASH)
    && (m.state == START || m.state == SEPARATOR || m.state == DATA ==> j == |s|)
    && (m.state == END_TRANS || m.state == END_TRANS_CRC ==> i < j && s[j - 1] == BANG && LF !in s[j..])
  }

  lemma SpannedStep(m: Machine, p: Line, b: Byte, i: nat, j: nat)
    requires Inv(m) && Spanned(m, p, i, j)
    ensures var n := |p|;
            var m' := Step(m, b);
            Spanned(m', p + [b],
                    if Between(m'.state) then n + 1 else if Between(m.state) then n else i,
                    if Between(m'.state) || Between(m.state) || Switch(m, b).1 then n + 1 else j)
  {
    hide Fold;
    hide Crc;
    hide Step;
    hide Inv;
    StepView(m, b);
    var s, n := p + [b], |p|;
    var m' := Step(m, b);
    if Between(m'.state) {
      assert s[n + 1..n + 1] == [];
      FoldNothing();
    } else if Between(m.state) {
      assert s[n..n + 1] == [] + [b];
      FoldNothing();
      FoldSnoc(0, [], b);
    } else if Switch(m, b).1 {
      assert s[i..n + 1] == p[i..j] + [b];
      FoldSnoc(0, p[i..j], b);
    } else {
      assert s[i..j] == p[i..j];
      assert s[j..] == p[j..] + [b];
    }
  }

  lemma FoldNothing()
    ensures Fold(0, []) == 0
  {
  }

  lemma StepView(m: Machine, b: Byte)
    requires Inv(m)
    ensures var (state, sum, act) := Switch(m, b);
            && Step(m, b).state == state
            && (Between(state) ==> Step(m, b).crc == 0)
            && (!Between(state) && sum ==> Step(m, b).crc == Crc(m.crc, b))
            && (!Between(state) && !sum ==> Step(m, b).crc == m.crc)
    ensures Between(m.state) ==> m.crc == 0
  {
    hide Crc;
  }

  // For every byte stream: between telegrams the checksum is 0, and inside one it is the CRC of
  // the bytes from its `/` up to the current byte or through its `!`.
  lemma {:induction false} ChecksumSpan(s: Line)
    ensures var (i, j) := Span(s);
            Spanned(Run(INITIAL, s), s, i, j)
    decreases |s|
  {
    if s == [] {
    } else {
      hide Step;
      hide Spanned;
      hide Inv;
      hide Switch;
      var n := |s| - 1;
      assert s == s[..n] + [s[n]];
      ChecksumSpan(s[..n]);
      RunSnoc(INITIAL, s[..n], s[n]);
      InitialInv();
      RunInv(INITIAL, s[..n]);
      var (i, j) := Span(s[..n]);
      SpannedStep(Run(INITIAL, s[..n]), s[..n], s[n], i, j);
    }
  }

  lemma InitialInv()
    ensures Inv(INITIAL)
  {
  }

  lemma FoldSnoc(c: bv16, m: Line, b: Byte)
    ensures Fold(c, m + [b]) == Crc(Fold(c, m), b)
  {
    hide Crc;
    FoldConcat(c, m, [b]);
    assert [b][1..] == [];
    var d := Fold(c, m);
    assert Fold(d, [b]) == Fold(Crc(d, b), []);
  }
}
