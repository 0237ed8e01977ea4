// dsmr_decode and dsmr_process of src/dsmr.c: the byte machine on its buffers, the checksum gate
// and the object store.
module Decoder {
  import opened Crc16
  import opened Capacity
  import opened CStrings
  import opened Telegram
  import opened TelegramFrames
  import opened TelegramChecks
  import opened ObisStore
  import Obis

  ghost predicate RowHolds(buffer: array2<Byte>, i: nat, l: Line)
    reads buffer
  {
    && i < buffer.Length0 && |l| < buffer.Length1 && buffer[i, |l|] == 0
    && forall j | 0 <= j < |l| :: buffer[i, j] == l[j]
  }

  class DsmrDecoder {
    var location: nat
    var row: nat
    var startline: bool
    var state: State
    var crc: bv16
    const buffer: array2<Byte>
    const crcbuffer: array<Byte>
    const store: ObjectStore
    const ignoreCrc: bool
    const lucky: nat -> bool
    var handed: nat  // records handed over so far: the place in the oracle `lucky`
    var calls: nat  // how often the callback ran
    ghost var machine: Machine
    ghost var log: seq<Record>
    ghost var shown: seq<Obis.Store>

    // The fields and buffers are the machine's.  A row holds its line up to a NUL, whatever an
    // earlier telegram left behind it.
    ghost predicate Tracks()
      reads this, buffer, crcbuffer
    {
      && RowsHold() && Counts() && Inv(machine)
      && state == machine.state && startline == machine.startline && crc == machine.crc && location == machine.location
      && (state == DATA && location > 0 ==> row < ROWS && location <= COLUMNS)
      && (state == DATA ==> forall j | 0 <= j < location :: buffer[row, j] == machine.line[j])
      && CrcHolds(machine.crcbuf)
    }

    ghost predicate RowsHold()
      reads this`row, this`machine, buffer
    {
      && buffer.Length0 == ROWS && buffer.Length1 == COLUMNS && row == |machine.rows|
      && forall i | 0 <= i < row :: RowHolds(buffer, i, machine.rows[i])
    }

    ghost predicate Counts()
      reads this`handed, this`log, this`calls, this`shown
    {
      handed == |log| && calls == |shown|
    }

    ghost predicate CrcHolds(s: Line)
      reads crcbuffer
    {
      crcbuffer.Length == CRCS && forall k | 0 <= k < CRCS :: crcbuffer[k] == Cell(s, k)
    }

    // The static decoder, zeroed but for what dsmr_init sets.
    constructor (store: ObjectStore, ignoreCrc: bool, lucky: nat -> bool)
      ensures Tracks() && machine == INITIAL && log == [] && shown == []
      ensures this.store == store && this.ignoreCrc == ignoreCrc && this.lucky == lucky
    {
      location, row, startline, state, crc := 0, 0, true, UNDEF, 0;
      buffer := new Byte[ROWS, COLUMNS]((i, j) => 0);
      crcbuffer := new Byte[CRCS](i => 0);
      this.store, this.ignoreCrc, this.lucky := store, ignoreCrc, lucky;
      handed, calls := 0, 0;
      machine, log, shown := INITIAL, [], [];
    }

    // A row as the C string it is.
    method RowText(i: nat) returns (l: Line)
      requires RowsHold() && i < row
      ensures l == CStr(machine.rows[i])
    {
      ghost var r := machine.rows[i];
      assert RowHolds(buffer, i, r);
      l := [];
      var j := 0;
      while buffer[i, j] != 0
        invariant j <= |r| && l == r[..j] && 0 !in l
        decreases |r| - j
      {
        l := l + [buffer[i, j]];
        j := j + 1;
      }
      TextIs(r, l, 0);
    }

    // The checksum digits, once the NUL is written.
    method CrcText(ghost s: Line) returns (l: Line)
      requires CrcHolds(s) && location < CRCS && location < |s| && s[location] == 0
      ensures l == CStr(s)
    {
      l := [];
      var j := 0;
      while crcbuffer[j] != 0
        invariant j <= location && l == s[..j] && 0 !in l
        decreases location - j
      {
        l := l + [crcbuffer[j]];
        j := j + 1;
      }
      TextIs(s, l, 0);
    }

    // The rows of an accepted telegram, in order.
    method ProcessRows()
      requires RowsHold() && store.Valid()
      modifies store.Repr()
      ensures store.Valid() && fresh(store.Repr() - old(store.Repr()))
      ensures store.Contents() == Obis.UpdateRows(store.decode, old(store.Contents()), machine.rows)
    {
      hide ObjectStore.Valid;
      hide ObjectStore.Contents;
      hide Obis.UpdateRow;
      hide RowsHold;
      RowCount();
      OutsideStore();
      ghost var before := store.Contents();
      var i := 0;
      while i < row
        invariant i <= row && store.Valid() && fresh(store.Repr() - old(store.Repr()))
        invariant store.Contents() == Obis.UpdateRows(store.decode, before, machine.rows[..i])
        invariant RowsHold()
      {
        var text := RowText(i);
        OutsideStore();
        store.ProcessRow(text);
        Obis.RowAsText(store.decode, Obis.UpdateRows(store.decode, before, machine.rows[..i]), machine.rows[i]);
        assert machine.rows[..i + 1][..i] == machine.rows[..i];
        i := i + 1;
      }
      assert machine.rows[..row] == machine.rows;
    }

    lemma RowCount()
      requires RowsHold()
      ensures row == |machine.rows|
    {
    }

    lemma OutsideStore()
      ensures this !in store.Repr() && buffer !in store.Repr() && crcbuffer !in store.Repr()
    {
    }

    // The store and the callback's view are those of the records `rs` after `before` and `seen`.
    ghost predicate Delivered(before: Obis.Store, seen: seq<Obis.Store>, rs: seq<Record>, n: nat)
      reads this, store, store.boxes.Values
    {
      var (s, p) := Obis.Outcome(store.decode, ignoreCrc, lucky, before, rs, n);
      store.Contents() == s && shown == seen + p
    }

    lemma DeliveredNothing()
      ensures Delivered(store.Contents(), shown, [], |log|)
    {
    }

    // Deliveries compose.
    lemma DeliveredMore(s0: Obis.Store, p0: seq<Obis.Store>, a: seq<Record>, n: nat,
                        s: Obis.Store, p: seq<Obis.Store>, b: seq<Record>)
      requires Obis.Outcome(store.decode, ignoreCrc, lucky, s0, a, n).0 == s
      requires p == p0 + Obis.Outcome(store.decode, ignoreCrc, lucky, s0, a, n).1
      requires Delivered(s, p, b, n + |a|)
      ensures Delivered(s0, p0, a + b, n)
    {
      hide ObjectStore.Contents, Obis.Outcome;
      Obis.OutcomeConcat(store.decode, ignoreCrc, lucky, s0, a, b, n);
      var p1 := Obis.Outcome(store.decode, ignoreCrc, lucky, s0, a, n).1;
      var p2 := Obis.Outcome(store.decode, ignoreCrc, lucky, s, b, n + |a|).1;
      assert p0 + p1 + p2 == p0 + (p1 + p2);
    }

    // The rows and the callback, when the record passes the gate.
    method Deliver(passed: bool)
      requires RowsHold() && Counts() && store.Valid()
      modifies store.Repr(), this`calls, this`shown
      ensures RowsHold() && Counts() && store.Valid() && fresh(store.Repr() - old(store.Repr()))
      ensures passed ==> store.Contents() == Obis.UpdateRows(store.decode, old(store.Contents()), machine.rows)
      ensures !passed ==> store.Contents() == old(store.Contents())
      ensures shown == old(shown) + if passed then [store.Contents()] else []
    {
      hide ObjectStore.Valid, ObjectStore.Contents, Obis.UpdateRows, RowsHold;
      OutsideStore();
      if passed {
        ProcessRows();
        shown := shown + [store.Contents()];
        calls := calls + 1;
      }
    }

    // dsmr_process: the gate, the rows, the callback.
    method Process(text: Line)
      requires RowsHold() && Counts() && store.Valid()
      modifies store.Repr(), this`handed, this`calls, this`log, this`shown
      ensures RowsHold() && Counts() && store.Valid() && fresh(store.Repr() - old(store.Repr()))
      ensures log == old(log) + [Record(machine.rows, crc, text)]
      ensures Delivered(old(store.Contents()), old(shown), [Record(machine.rows, crc, text)], |old(log)|)
    {
      hide ObjectStore.Valid, ObjectStore.Contents, Obis.UpdateRows, Obis.Outcome, RowsHold;
      ghost var r := Record(machine.rows, crc, text);
      OutsideStore();
      Obis.OutcomeOne(store.decode, ignoreCrc, lucky, store.Contents(), r, handed);
      Deliver(ignoreCrc || text == [] || Matches(text, crc, lucky(handed)));
      handed := handed + 1;
      log := log + [r];
    }

    // After the switch of a turn and before its action.
    ghost predicate Turned(b: Byte)
      reads this, buffer, crcbuffer
    {
      var m := machine;
      && RowsHold() && Counts() && Inv(m) && location == m.location && CrcHolds(m.crcbuf) && Room(m, b)
      && state == Moved(m, b).state && startline == Moved(m, b).startline && crc == Moved(m, b).crc
      && (m.state == DATA && location > 0 ==> row < ROWS && location <= COLUMNS)
      && (m.state == DATA ==> forall j | 0 <= j < location :: buffer[row, j] == m.line[j])
    }

    method BufferField(b: Byte)
      requires Turned(b) && Switch(machine, b).2 == BUFFER_FIELD
      modifies this`location, this`machine, buffer
      ensures Tracks() && machine == Step(old(machine), b)
    {
      hide Crc;
      StepInv(machine, b);
      buffer[row, location] := b;
      location := location + 1;
      machine := Step(machine, b);
    }

    method TerminateField(b: Byte)
      requires Turned(b) && Switch(machine, b).2 == TERMINATE_FIELD
      modifies this`location, this`row, this`machine, buffer
      ensures Tracks() && machine == Step(old(machine), b)
    {
      hide Crc;
      StepInv(machine, b);
      buffer[row, location] := 0;
      row := row + 1;
      location := 0;
      machine := Step(machine, b);
    }

    method BufferCrc(b: Byte)
      requires Turned(b) && Switch(machine, b).2 == BUFFER_CRC
      modifies this`location, this`machine, crcbuffer
      ensures Tracks() && machine == Step(old(machine), b)
    {
      hide Crc;
      StepInv(machine, b);
      crcbuffer[location] := b;
      location := location + 1;
      machine := Step(machine, b);
    }

    method NoAction(b: Byte)
      requires Turned(b) && Switch(machine, b).2 == NONE
      modifies this`machine
      ensures Tracks() && machine == Step(old(machine), b)
    {
      hide Crc;
      StepInv(machine, b);
      machine := Step(machine, b);
    }

    // The digits are closed with a NUL and read back.
    method EndCrc() returns (text: Line)
      requires CrcHolds(machine.crcbuf) && location < CRCS
      modifies crcbuffer
      ensures CrcHolds(Write(machine.crcbuf, location, 0)) && text == CStr(Write(machine.crcbuf, location, 0))
    {
      crcbuffer[location] := 0;
      text := CrcText(Write(machine.crcbuf, location, 0));
    }

    // What a record is handed over with.
    lemma HandedOver(b: Byte)
      requires Turned(b) && Switch(machine, b).2 == PROCESS_RECORD
      ensures RowsHold() && Counts() && Inv(machine) && CrcHolds(machine.crcbuf)
      ensures location < CRCS && location == machine.location && crc == machine.crc
      ensures state == Moved(machine, b).state && startline == Moved(machine, b).startline
      ensures Emit(machine, b) == [Record(machine.rows, crc, CStr(Write(machine.crcbuf, location, 0)))]
    {
      hide Crc, Write, CStr, CrcHolds, RowsHold;
    }

    method ProcessRecord(b: Byte)
      requires Turned(b) && Switch(machine, b).2 == PROCESS_RECORD && store.Valid()
      modifies this, crcbuffer, store.Repr()
      ensures Tracks() && machine == Step(old(machine), b)
      ensures store.Valid() && fresh(store.Repr() - old(store.Repr()))
      ensures log == old(log) + Emit(old(machine), b)
      ensures Delivered(old(store.Contents()), old(shown), Emit(old(machine), b), |old(log)|)
    {
      hide ObjectStore.Valid, ObjectStore.Contents, Obis.Outcome;
      hide Turned, Switch, Moved, Room, Emit, Step;
      OutsideStore();
      HandedOver(b);
      var text := EndCrc();
      hide CrcHolds, Write, CStr, Inv;
      Process(text);
      Reset(b);
    }

    // A telegram is over.
    method Reset(b: Byte)
      requires Switch(machine, b).2 == PROCESS_RECORD && Inv(machine) && Counts()
      requires buffer.Length0 == ROWS && buffer.Length1 == COLUMNS
      requires CrcHolds(Write(machine.crcbuf, machine.location, 0))
      requires state == Moved(machine, b).state && startline == Moved(machine, b).startline
      modifies this`location, this`row, this`crc, this`machine
      ensures Tracks() && machine == Step(old(machine), b)
    {
      hide Crc;
      StepInv(machine, b);
      location := 0;
      row := 0;
      crc := 0;
      machine := Step(machine, b);
    }

    // One turn of the loop of dsmr_decode.
    method Feed(b: Byte)
      requires Tracks() && store.Valid() && Room(machine, b)
      modifies this, buffer, crcbuffer, store.Repr()
      ensures Tracks() && machine == Step(old(machine), b)
      ensures store.Valid() && fresh(store.Repr() - old(store.Repr()))
      ensures log == old(log) + Emit(old(machine), b)
      ensures Delivered(old(store.Contents()), old(shown), Emit(old(machine), b), |old(log)|)
    {
      hide ObjectStore.Valid;
      hide ObjectStore.Contents;
      hide Obis.UpdateRows;
      hide Switch;
      hide Moved;
      hide Step;
      hide Inv;
      hide Crc;
      var action := Turn(b);
      OutsideStore();
      match action {
        case BUFFER_FIELD => BufferField(b);
        case TERMINATE_FIELD => TerminateField(b);
        case PROCESS_RECORD => ProcessRecord(b);
        case BUFFER_CRC => BufferCrc(b);
        case NONE => NoAction(b);
      }
    }

    lemma MovedParts(b: Byte)
      ensures Moved(machine, b).state == Switched(b).0 && Moved(machine, b).startline == (b == CR || b == LF)
      ensures Moved(machine, b).crc == Switched(b).1 && Switch(machine, b).2 == Switched(b).2
    {
      hide Crc;
    }

    // The state switch and the line-start flag.
    method Turn(b: Byte) returns (action: Action)
      requires state == machine.state && startline == machine.startline && crc == machine.crc
      modifies this`state, this`crc, this`startline
      ensures action == Switch(machine, b).2
      ensures state == Moved(machine, b).state && crc == Moved(machine, b).crc
      ensures startline == Moved(machine, b).startline
    {
      hide Crc, Moved, Switch, Switched;
      MovedParts(b);
      action := TakeSwitch(b);
      startline := b == CR || b == LF;
    }

    method TakeSwitch(b: Byte) returns (action: Action)
      requires state == machine.state && startline == machine.startline && crc == machine.crc
      modifies this`state, this`crc
      ensures (state, crc, action) == Switched(b)
    {
      hide Switched;
      match state {
        case UNDEF => action := Between(b);
        case START => action := Head(b);
        case SEPARATOR => action := Head(b);
        case DATA => action := Data(b);
        case END_TRANS => action := Tail(b);
        case END_TRANS_CRC => action := Tail(b);
        case TRAILER => action := Between(b);
      }
    }

    // Its cases: between telegrams,
    method Between(b: Byte) returns (action: Action)
      requires state == machine.state && (state == UNDEF || state == TRAILER)
      requires startline == machine.startline && crc == machine.crc
      modifies this`state, this`crc
      ensures (state, crc, action) == Switched(b)
    {
      hide Crc;
      action := NONE;
      if b == SLASH {
        if startline {
          crc := Crc(crc, b);
          state := START;
        }
      }
    }

    // in the header and up to the line behind it,
    method Head(b: Byte) returns (action: Action)
      requires state == machine.state && (state == START || state == SEPARATOR) && crc == machine.crc
      modifies this`state, this`crc
      ensures (state, crc, action) == Switched(b)
    {
      hide Crc;
      action := NONE;
      crc := Crc(crc, b);
      if b == LF {
        state := if state == START then SEPARATOR else DATA;
      }
    }

    // in the lines,
    method Data(b: Byte) returns (action: Action)
      requires state == machine.state == DATA && startline == machine.startline && crc == machine.crc
      modifies this`state, this`crc
      ensures (state, crc, action) == Switched(b)
    {
      hide Crc;
      action := NONE;
      crc := Crc(crc, b);
      if b == BANG {
        if startline {
          state := END_TRANS;
        } else {
          action := BUFFER_FIELD;
        }
      } else if b == LF {
        action := TERMINATE_FIELD;
      } else if b != CR {
        action := BUFFER_FIELD;
      }
    }

    // and in the checksum.
    method Tail(b: Byte) returns (action: Action)
      requires state == machine.state && (state == END_TRANS || state == END_TRANS_CRC) && crc == machine.crc
      modifies this`state
      ensures (state, crc, action) == Switched(b)
    {
      action := NONE;
      if b == LF {
        state, action := TRAILER, PROCESS_RECORD;
      } else if b != CR {
        state, action := END_TRANS_CRC, BUFFER_CRC;
      }
    }

    // State, checksum and action that the machine's switch asks for.
    ghost function Switched(b: Byte): (State, bv16, Action)
      reads this`machine
    {
      var (s, sum, a) := Switch(machine, b);
      (s, if sum then Crc(machine.crc, b) else machine.crc, a)
    }

    // A turn, told from the start of the chunk.
    method FeedAfter(b: Byte, ghost m0: Machine, ghost l0: seq<Record>,
                     ghost s0: Obis.Store, ghost p0: seq<Obis.Store>, ghost pre: Line)
      requires Tracks() && store.Valid() && Room(machine, b)
      requires machine == Run(m0, pre) && log == l0 + Log(m0, pre) && Delivered(s0, p0, Log(m0, pre), |l0|)
      modifies this, buffer, crcbuffer, store.Repr()
      ensures Tracks() && store.Valid() && fresh(store.Repr() - old(store.Repr()))
      ensures machine == Run(m0, pre + [b]) && log == l0 + Log(m0, pre + [b])
      ensures Delivered(s0, p0, Log(m0, pre + [b]), |l0|)
    {
      hide ObjectStore.Valid;
      hide ObjectStore.Contents;
      hide Obis.Outcome;
      hide Step;
      hide Emit;
      hide Room;
      hide Tracks;
      hide Run;
      hide Log;
      ghost var s, p, e := store.Contents(), shown, Emit(machine, b);
      RunSnoc(m0, pre, b);
      Feed(b);
      DeliveredMore(s0, p0, Log(m0, pre), |l0|, s, p, e);
    }

    // dsmr_decode on one chunk: the machine's run over it, its records, and what they deliver.
    method Decode(buf: Line)
      requires Tracks() && store.Valid() && Bounded(machine, buf)
      modifies this, buffer, crcbuffer, store.Repr()
      ensures Tracks() && machine == Run(old(machine), buf)
      ensures store.Valid() && fresh(store.Repr() - old(store.Repr()))
      ensures log == old(log) + Log(old(machine), buf)
      ensures Delivered(old(store.Contents()), old(shown), Log(old(machine), buf), |old(log)|)
    {
      hide ObjectStore.Valid;
      hide ObjectStore.Contents;
      hide Delivered;
      hide Step;
      hide Emit;
      hide Room;
      hide Tracks;
      hide Log, Run;
      NothingRead(machine);
      ghost var m0, l0, s0, p0 := machine, log, store.Contents(), shown;
      DeliveredNothing();
      var i := 0;
      while i < |buf|
        invariant i <= |buf| && Tracks() && store.Valid() && fresh(store.Repr() - old(store.Repr()))
        invariant machine == Run(m0, buf[..i]) && log == l0 + Log(m0, buf[..i])
        invariant Delivered(s0, p0, Log(m0, buf[..i]), |l0|)
        invariant Bounded(machine, buf[i..])
      {
        OutsideStore();
        RunSnoc(m0, buf[..i], buf[i]);
        FeedAfter(buf[i], m0, l0, s0, p0, buf[..i]);
        assert buf[..i + 1] == buf[..i] + [buf[i]] && buf[i..][1..] == buf[i + 1..];
        i := i + 1;
      }
      assert buf[..i] == buf;
    }
  }
}
