// The decoder as src/serial.c feeds it: whatever a read returns goes to dsmr_decode.
module MeterReading {
  import opened Chunks
  import opened Crc16
  import opened Telegram
  import opened TelegramFrames
  import opened TelegramChecks
  import opened Capacity
  import opened Decoder
  import opened ObisStore
  import Obis
  import MeterRuns

  // serial_read, once for each chunk.
  method ReadChunks(d: DsmrDecoder, chunks: seq<Line>)
    requires d.Tracks() && d.store.Valid() && Bounded(d.machine, Joined(chunks))
    modifies d, d.buffer, d.crcbuffer, d.store.Repr()
    ensures d.Tracks() && d.machine == Run(old(d.machine), Joined(chunks))
    ensures d.store.Valid() && fresh(d.store.Repr() - old(d.store.Repr()))
    ensures d.log == old(d.log) + Log(old(d.machine), Joined(chunks))
    ensures d.Delivered(old(d.store.Contents()), old(d.shown), Log(old(d.machine), Joined(chunks)), |old(d.log)|)
  {
    hide DsmrDecoder.Tracks, ObjectStore.Valid, ObjectStore.Contents, DsmrDecoder.Delivered, Run, Log, Bounded, Joined;
    ghost var m0, l0, s0, p0 := d.machine, d.log, d.store.Contents(), d.shown;
    NothingJoined<Byte>();
    NothingRead(m0);
    d.DeliveredNothing();
    assert chunks[..0] == [] && chunks[0..] == chunks;
    for i := 0 to |chunks|
      invariant d.Tracks() && d.store.Valid() && fresh(d.store.Repr() - old(d.store.Repr()))
      invariant d.machine == Run(m0, Joined(chunks[..i])) && d.log == l0 + Log(m0, Joined(chunks[..i]))
      invariant d.Delivered(s0, p0, Log(m0, Joined(chunks[..i])), |l0|)
      invariant Bounded(d.machine, Joined(chunks[i..]))
    {
      d.OutsideStore();
      JoinedFirst(chunks[i..]);
      BoundedConcat(d.machine, chunks[i], Joined(chunks[i + 1..]));
      assert chunks[i..][1..] == chunks[i + 1..] && chunks[..i + 1] == chunks[..i] + [chunks[i]];
      JoinedSnoc(chunks[..i], chunks[i]);
      RunConcat(m0, Joined(chunks[..i]), chunks[i]);
      ReadAfter(d, chunks[i], m0, l0, s0, p0, Joined(chunks[..i]));
    }
    assert chunks[..|chunks|] == chunks;
  }

  // One chunk, told from the start.
  method ReadAfter(d: DsmrDecoder, chunk: Line, ghost m0: Machine, ghost l0: seq<Record>,
                   ghost s0: Obis.Store, ghost p0: seq<Obis.Store>, ghost pre: Line)
    requires d.Tracks() && d.store.Valid() && Bounded(d.machine, chunk)
    requires d.machine == Run(m0, pre) && d.log == l0 + Log(m0, pre) && d.Delivered(s0, p0, Log(m0, pre), |l0|)
    modifies d, d.buffer, d.crcbuffer, d.store.Repr()
    ensures d.Tracks() && d.store.Valid() && fresh(d.store.Repr() - old(d.store.Repr()))
    ensures d.machine == Run(m0, pre + chunk) && d.log == l0 + Log(m0, pre + chunk)
    ensures d.Delivered(s0, p0, Log(m0, pre + chunk), |l0|)
  {
    hide DsmrDecoder.Tracks, ObjectStore.Valid, ObjectStore.Contents, Run, Log, Bounded, Obis.Outcome;
    ghost var m, s, p := d.machine, d.store.Contents(), d.shown;
    RunConcat(m0, pre, chunk);
    d.Decode(chunk);
    d.DeliveredMore(s0, p0, Log(m0, pre), |l0|, s, p, Log(m, chunk));
  }

  // Printed telegrams that fit, with any junk before each and cut into reads anywhere: the buffered
  // decoder leaves exactly their lines in the store, in order, and calls back once for each.
  method ReadStream(d: DsmrDecoder, ghost junk: seq<Line>, ghost fs: seq<Frame>, chunks: seq<Line>)
    requires d.Tracks() && d.store.Valid() && Ready(d.machine)
    requires |junk| == |fs| && Joined(chunks) == Stream(junk, fs)
    requires forall i | 0 <= i < |fs| :: FrameOk(fs[i]) && Fits(fs[i]) && JunkOk(true, junk[i])
    modifies d, d.buffer, d.crcbuffer, d.store.Repr()
    ensures d.Tracks() && d.store.Valid() && Ready(d.machine)
    ensures d.store.Contents() == Obis.UpdateRows(d.store.decode, old(d.store.Contents()), MeterRuns.AllLines(fs))
    ensures |d.shown| == |old(d.shown)| + |fs|
  {
    hide DsmrDecoder.Tracks, ObjectStore.Valid, ObjectStore.Contents, Run, Log, Bounded, Obis.Outcome, Stream, Ready;
    hide Obis.UpdateRows, MeterRuns.AllLines, FrameOk, Fits, JunkOk;
    StreamFits(d.machine, junk, fs);
    StreamRead(d.machine, junk, fs);
    MeterRuns.StreamStored(d.store.decode, d.ignoreCrc, d.lucky, d.store.Contents(), d.machine, junk, fs, |d.log|);
    ReadChunks(d, chunks);
  }

  // A damaged telegram changes neither the store nor what the callback saw, exactly when the gate
  // refuses it.
  method ReadDamaged(d: DsmrDecoder, ghost p: Line, ghost a: Line, ghost b: Line, ghost s: Line, chunks: seq<Line>)
    requires d.Tracks() && d.store.Valid() && Ready(d.machine) && !d.ignoreCrc
    requires |a| == |b| <= 2 && a != b && Framed(d.machine, p + b + s)
    requires Joined(chunks) == p + b + s + Hex4(Fold(0, p + a + s)) + EOL && Bounded(d.machine, Joined(chunks))
    modifies d, d.buffer, d.crcbuffer, d.store.Repr()
    ensures d.Tracks() && d.store.Valid()
    ensures var m := old(d.machine);
            var at := Run(m, p + b + s).location;
            var text := Shown(m.crcbuf, at, Hex4(Fold(0, p + a + s)));
            d.store.Contents() == old(d.store.Contents()) && d.shown == old(d.shown)
            <==> at == 0 || (text != [] && !Matches(text, Fold(0, p + b + s), d.lucky(|old(d.log)|)))
  {
    hide DsmrDecoder.Tracks, ObjectStore.Valid, ObjectStore.Contents, Run, Log, Bounded, Obis.Outcome, Ready;
    hide Framed, Hex4, Fold, Matches, Shown;
    MeterRuns.DamageIgnored(d.store.decode, d.lucky, d.store.Contents(), d.machine, p, a, b, s, |d.log|);
    ReadChunks(d, chunks);
  }

  // With the option to ignore checksums, any bytes cut into reads anywhere leave the lines of all
  // records in the store, and the callback runs for each.
  method ReadUnchecked(d: DsmrDecoder, chunks: seq<Line>)
    requires d.Tracks() && d.store.Valid() && d.ignoreCrc && Bounded(d.machine, Joined(chunks))
    modifies d, d.buffer, d.crcbuffer, d.store.Repr()
    ensures d.Tracks() && d.store.Valid()
    ensures var log := Log(old(d.machine), Joined(chunks));
            && d.store.Contents()
               == Obis.UpdateRows(d.store.decode, old(d.store.Contents()), MeterRuns.AllRows(log))
            && |d.shown| == |old(d.shown)| + |log|
  {
    hide DsmrDecoder.Tracks, ObjectStore.Valid, ObjectStore.Contents, Run, Log, Bounded, Obis.Outcome;
    hide Obis.UpdateRows, MeterRuns.AllRows;
    MeterRuns.UncheckedStored(d.store.decode, d.lucky, d.store.Contents(), Log(d.machine, Joined(chunks)), |d.log|);
    ReadChunks(d, chunks);
  }
}
