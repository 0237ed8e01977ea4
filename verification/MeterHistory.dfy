// From the bytes on the line to the rows in the database: the callback of src/main.c runs do_stats for
// every telegram that the decoder accepts.
module MeterHistory {
  import opened Calendar
  import opened Capacity
  import opened Chunks
  import opened Decoder
  import opened MeterStatistics
  import opened ObisStore
  import opened Options
  import opened Statistics
  import opened Telegram
  import opened TelegramFrames
  import Crc16
  import Obis
  import TelegramChecks

  lemma {:induction false} CountedConcat(b: Books, offset: int, p: seq<Obis.Store>, q: seq<Obis.Store>)
    requires Complete(b)
    ensures CountedAll(b, offset, p + q) == CountedAll(CountedAll(b, offset, p), offset, q)
    decreases |q|
  {
    hide Counted;
    if q == [] {
      assert p + q == p;
    } else {
      CountedConcat(b, offset, p, q[..|q| - 1]);
      assert (p + q)[..|p + q| - 1] == p + q[..|q| - 1];
    }
  }

  lemma CountedOnce(b: Books, offset: int, s: Obis.Store)
    requires Complete(b)
    ensures CountedAll(b, offset, [s]) == Counted(b, offset, s) && CountedAll(b, offset, []) == b
  {
    hide Counted;
    assert [s][..0] == [];
  }

  // One byte, and do_stats if the callback ran.  What is left of the byte's turn after the callback
  // touches neither the store nor the statistics.
  method CountByte(d: DsmrDecoder, totals: Totals, db: Database, x: Byte, ghost b: Books)
    requires d.Tracks() && d.store.Valid() && Room(d.machine, x)
    requires Complete(b) && totals.Holds(b, db)
    modifies d, d.buffer, d.crcbuffer, d.store.Repr(), totals.repr, db
    ensures d.Tracks() && d.machine == Step(old(d.machine), x)
    ensures d.store.Valid() && fresh(d.store.Repr() - old(d.store.Repr()))
    ensures d.log == old(d.log) + Emit(old(d.machine), x)
    ensures d.Delivered(old(d.store.Contents()), old(d.shown), Emit(old(d.machine), x), |old(d.log)|)
    ensures old(d.shown) <= d.shown
    ensures totals.Holds(CountedAll(b, totals.offset, d.shown[|old(d.shown)|..]), db)
  {
    hide ObjectStore.Valid, ObjectStore.Contents, Step, Emit, Room, Obis.Outcome;
    hide Totals.Holds, CountedAll, Counted, Complete;
    var before := d.calls;
    ghost var seen, s, e := d.shown, d.store.Contents(), Emit(d.machine, x);
    EmitOne(d.machine, x);
    d.Feed(x);
    OneCall(d, s, seen, e);
    Observe(d.store, totals, db, d.calls > before, b);
  }

  // The callback, if it is called.
  method Observe(store: ObjectStore, totals: Totals, db: Database, called: bool, ghost b: Books)
    requires store.Valid() && Complete(b) && totals.Holds(b, db)
    modifies totals.repr, db
    ensures totals.Holds(CountedAll(b, totals.offset, if called then [store.Contents()] else []), db)
  {
    hide ObjectStore.Valid, ObjectStore.Contents, Totals.Holds, CountedAll, Counted, Complete;
    CountedOnce(b, totals.offset, store.Contents());
    if called {
      totals.DoStats(store, db, b);
    }
  }

  lemma EmitOne(m: Machine, x: Byte)
    ensures |Emit(m, x)| <= 1
  {
  }

  // One record runs the callback at most once, and then it sees the store.
  lemma OneCall(d: DsmrDecoder, s: Obis.Store, seen: seq<Obis.Store>, e: seq<Record>)
    requires |e| <= 1 && |e| <= |d.log| && d.Delivered(s, seen, e, |d.log| - |e|)
    ensures d.shown == seen || d.shown == seen + [d.store.Contents()]
  {
    hide ObjectStore.Contents, Obis.UpdateRows, TelegramChecks.Accept;
    if |e| == 1 {
      assert e == [e[0]];
      Obis.OutcomeOne(d.store.decode, d.ignoreCrc, d.lucky, s, e[0], |d.log| - 1);
      hide Obis.Outcome;
    } else {
      assert e == [];
      assert seen + [] == seen;
    }
  }

  // Where everything stands after the bytes `read`, when it stood at m0, l0, s0, p0 and b before.
  ghost predicate Along(d: DsmrDecoder, totals: Totals, db: Database, m0: Machine, l0: seq<Record>,
                        s0: Obis.Store, p0: seq<Obis.Store>, b: Books, read: Line)
    reads d, d.buffer, d.crcbuffer, d.store, d.store.boxes.Values
    reads d.store.tree, d.store.tree.repr, d.store.tree.nil`color, totals.repr, db
  {
    && d.Tracks() && d.store.Valid() && Complete(b)
    && d.machine == Run(m0, read) && d.log == l0 + Log(m0, read) && d.Delivered(s0, p0, Log(m0, read), |l0|)
    && p0 <= d.shown && totals.Holds(CountedAll(b, totals.offset, d.shown[|p0|..]), db)
  }

  // A byte, told from the start.
  method CountAfter(d: DsmrDecoder, totals: Totals, db: Database, x: Byte, ghost m0: Machine,
                    ghost l0: seq<Record>, ghost s0: Obis.Store, ghost p0: seq<Obis.Store>, ghost b: Books,
                    ghost read: Line)
    requires Along(d, totals, db, m0, l0, s0, p0, b, read) && Room(d.machine, x)
    modifies d, d.buffer, d.crcbuffer, d.store.Repr(), totals.repr, db
    ensures Along(d, totals, db, m0, l0, s0, p0, b, read + [x]) && d.machine == Step(old(d.machine), x)
    ensures fresh(d.store.Repr() - old(d.store.Repr()))
  {
    hide DsmrDecoder.Tracks, ObjectStore.Valid, ObjectStore.Contents, Obis.Outcome, Step, Emit, Room, Run, Log;
    hide Totals.Holds, CountedAll, Counted, Complete;
    ghost var s, p, e, c := d.store.Contents(), d.shown, Emit(d.machine, x), d.shown[|p0|..];
    RunSnoc(m0, read, x);
    CountByte(d, totals, db, x, CountedAll(b, totals.offset, c));
    d.DeliveredMore(s0, p0, Log(m0, read), |l0|, s, p, e);
    CountedConcat(b, totals.offset, c, d.shown[|p|..]);
    assert d.shown[|p0|..] == c + d.shown[|p|..];
  }

  lemma BoundedFirst(m: Machine, s: Line)
    requires s != [] && Bounded(m, s)
    ensures Room(m, s[0]) && Bounded(Step(m, s[0]), s[1..])
  {
  }

  lemma OneMore(read: Line, rest: Line)
    requires rest != []
    ensures read + rest == read + [rest[0]] + rest[1..]
  {
    assert rest == [rest[0]] + rest[1..];
  }

  // A read, told from the start.
  method CountChunk(d: DsmrDecoder, totals: Totals, db: Database, buf: Line, ghost m0: Machine,
                    ghost l0: seq<Record>, ghost s0: Obis.Store, ghost p0: seq<Obis.Store>, ghost b: Books,
                    ghost pre: Line)
    requires Along(d, totals, db, m0, l0, s0, p0, b, pre) && Bounded(d.machine, buf)
    modifies d, d.buffer, d.crcbuffer, d.store.Repr(), totals.repr, db
    ensures Along(d, totals, db, m0, l0, s0, p0, b, pre + buf)
    ensures fresh(d.store.Repr() - old(d.store.Repr()))
  {
    hide Along, Bounded, Room, Step;
    ghost var read, rest := pre, buf;
    for i := 0 to |buf|
      invariant Along(d, totals, db, m0, l0, s0, p0, b, read) && fresh(d.store.Repr() - old(d.store.Repr()))
      invariant rest == buf[i..] && Bounded(d.machine, rest) && read + rest == pre + buf
    {
      BoundedFirst(d.machine, rest);
      OneMore(read, rest);
      Outside(d, totals, db, m0, l0, s0, p0, b, read);
      CountAfter(d, totals, db, buf[i], m0, l0, s0, p0, b, read);
      read, rest := read + [rest[0]], rest[1..];
    }
    assert read + [] == read;
  }

  lemma Outside(d: DsmrDecoder, totals: Totals, db: Database, m0: Machine, l0: seq<Record>,
                s0: Obis.Store, p0: seq<Obis.Store>, b: Books, read: Line)
    requires Along(d, totals, db, m0, l0, s0, p0, b, read)
    ensures d !in d.store.Repr() && d.buffer !in d.store.Repr() && d.crcbuffer !in d.store.Repr()
    ensures d.machine == Run(m0, read)
  {
    d.OutsideStore();
  }

  // The reads of the line, one after the other: do_stats has run on every store that the callback saw.
  method CountChunks(d: DsmrDecoder, totals: Totals, db: Database, chunks: seq<Line>, ghost b: Books)
    requires d.Tracks() && d.store.Valid() && Bounded(d.machine, Joined(chunks))
    requires Complete(b) && totals.Holds(b, db)
    modifies d, d.buffer, d.crcbuffer, d.store.Repr(), totals.repr, db
    ensures d.Tracks() && d.store.Valid() && fresh(d.store.Repr() - old(d.store.Repr()))
    ensures d.machine == Run(old(d.machine), Joined(chunks))
    ensures d.Delivered(old(d.store.Contents()), old(d.shown), Log(old(d.machine), Joined(chunks)), |old(d.log)|)
    ensures old(d.shown) <= d.shown
    ensures totals.Holds(CountedAll(b, totals.offset, d.shown[|old(d.shown)|..]), db)
  {
    hide DsmrDecoder.Tracks, ObjectStore.Valid, ObjectStore.Contents, DsmrDecoder.Delivered, Run, Log, Room;
    hide Joined, Totals.Holds, Counted, Complete, Bounded;
    ghost var m0, l0, s0, p0 := d.machine, d.log, d.store.Contents(), d.shown;
    d.DeliveredNothing();
    NothingRead(m0);
    CountedOnce(b, totals.offset, s0);
    assert p0[|p0|..] == [] && l0 + [] == l0;
    assert Along(d, totals, db, m0, l0, s0, p0, b, []);
    CountReads(d, totals, db, chunks, m0, l0, s0, p0, b);
  }

  method CountReads(d: DsmrDecoder, totals: Totals, db: Database, chunks: seq<Line>, ghost m0: Machine,
                    ghost l0: seq<Record>, ghost s0: Obis.Store, ghost p0: seq<Obis.Store>, ghost b: Books)
    requires Along(d, totals, db, m0, l0, s0, p0, b, []) && Bounded(d.machine, Joined(chunks))
    modifies d, d.buffer, d.crcbuffer, d.store.Repr(), totals.repr, db
    ensures Along(d, totals, db, m0, l0, s0, p0, b, Joined(chunks))
    ensures fresh(d.store.Repr() - old(d.store.Repr()))
  {
    hide Along, Bounded, Joined, Run;
    ghost var read, rest := [], chunks;
    assert read + Joined(chunks) == Joined(chunks);
    Outside(d, totals, db, m0, l0, s0, p0, b, read);
    for i := 0 to |chunks|
      invariant Along(d, totals, db, m0, l0, s0, p0, b, read) && fresh(d.store.Repr() - old(d.store.Repr()))
      invariant rest == chunks[i..] && d.machine == Run(m0, read) && Bounded(d.machine, Joined(rest))
      invariant read + Joined(rest) == Joined(chunks)
    {
      NextRead(m0, read, rest);
      Outside(d, totals, db, m0, l0, s0, p0, b, read);
      CountChunk(d, totals, db, chunks[i], m0, l0, s0, p0, b, read);
      read, rest := read + rest[0], rest[1..];
      Outside(d, totals, db, m0, l0, s0, p0, b, read);
    }
    NothingJoined<Byte>();
    assert read + [] == read;
  }

  lemma NextRead(m0: Machine, read: Line, rest: seq<Line>)
    requires rest != [] && Bounded(Run(m0, read), Joined(rest))
    ensures Bounded(Run(m0, read), rest[0]) && Bounded(Run(m0, read + rest[0]), Joined(rest[1..]))
    ensures read + Joined(rest) == read + rest[0] + Joined(rest[1..])
  {
    hide Bounded, Joined, Run;
    var a, c := rest[0], Joined(rest[1..]);
    JoinedFirst(rest);
    BoundedConcat(Run(m0, read), a, c);
    Telegram.RunConcat(m0, read, a);
    Regrouped(read, a, c);
  }

  lemma Regrouped(a: Line, b: Line, c: Line)
    ensures a + (b + c) == a + b + c
  {
  }

  // ----- printed telegrams -----

  // What the callback sees when the telegrams of fs arrive.
  function Stores(decode: Obis.Decoder, store: Obis.Store, fs: seq<Frame>): seq<Obis.Store>
    decreases |fs|
  {
    if fs == [] then []
    else
      var s := Obis.UpdateRows(decode, store, fs[0].lines);
      [s] + Stores(decode, s, fs[1..])
  }

  lemma {:induction false} RecordsSeen(decode: Obis.Decoder, ignoreCrc: bool, lucky: nat -> bool, store: Obis.Store,
                                       fs: seq<Frame>, n: nat)
    ensures Obis.Outcome(decode, ignoreCrc, lucky, store, Records(fs), n).1 == Stores(decode, store, fs)
    decreases |fs|
  {
    hide Body, Digits, Crc16.Fold, Obis.UpdateRows, TelegramChecks.Accept;
    if fs != [] {
      TelegramChecks.PrintedAccepted(fs[0], lucky(n));
      AcceptedAnyway(fs[0], ignoreCrc, lucky(n));
      RecordsSeen(decode, ignoreCrc, lucky, Obis.UpdateRows(decode, store, fs[0].lines), fs[1..], n + 1);
      assert Records(fs)[1..] == Records(fs[1..]);
    }
  }

  lemma AcceptedAnyway(f: Frame, ignoreCrc: bool, lucky: bool)
    ensures TelegramChecks.Accept(Record(f.lines, Crc16.Fold(0, Body(f)), Digits(f)), ignoreCrc, lucky)
  {
    hide Body, Digits, Crc16.Fold, TelegramChecks.Scan;
    TelegramChecks.PrintedAccepted(f, lucky);
  }

  // Printed telegrams that fit, with any junk before each and cut into reads anywhere: the statistics
  // have seen the store after every one of them, in order.
  method CountStream(d: DsmrDecoder, totals: Totals, db: Database, ghost junk: seq<Line>, ghost fs: seq<Frame>,
                     chunks: seq<Line>, ghost b: Books)
    requires d.Tracks() && d.store.Valid() && Ready(d.machine)
    requires |junk| == |fs| && Joined(chunks) == Stream(junk, fs)
    requires forall i | 0 <= i < |fs| :: FrameOk(fs[i]) && Fits(fs[i]) && JunkOk(true, junk[i])
    requires Complete(b) && totals.Holds(b, db)
    modifies d, d.buffer, d.crcbuffer, d.store.Repr(), totals.repr, db
    ensures d.Tracks() && d.store.Valid() && Ready(d.machine)
    ensures totals.Holds(CountedAll(b, totals.offset, Stores(d.store.decode, old(d.store.Contents()), fs)), db)
  {
    hide DsmrDecoder.Tracks, ObjectStore.Valid, ObjectStore.Contents, Run, Log, Bounded, Obis.Outcome, Stream, Ready;
    hide FrameOk, Fits, JunkOk, Totals.Holds, CountedAll, Complete;
    ghost var s0, p0 := d.store.Contents(), d.shown;
    StreamFits(d.machine, junk, fs);
    StreamRead(d.machine, junk, fs);
    RecordsSeen(d.store.decode, d.ignoreCrc, d.lucky, s0, fs, |d.log|);
    CountChunks(d, totals, db, chunks, b);
    assert d.shown == p0 + Stores(d.store.decode, s0, fs);
    assert d.shown[|p0|..] == Stores(d.store.decode, s0, fs);
  }

  // ----- what the database then says -----

  ghost function Amounts(rows: seq<Row>): real {
    if rows == [] then 0.0 else Amounts(rows[..|rows| - 1]) + rows[|rows| - 1].amount
  }

  lemma {:induction false} AmountsOf(kind: Kind, name: string, ds: seq<Delta>)
    ensures Amounts(RowsOf(kind, name, ds)) == Sum(ds)
    decreases |ds|
  {
    hide Int32;
    if ds != [] {
      var p := ds[..|ds| - 1];
      AmountsOf(kind, name, p);
      assert RowsOf(kind, name, ds)[..|ds| - 1] == RowsOf(kind, name, p);
    }
  }

  ghost predicate Fresh(b: Books) {
    Complete(b) && b.rows == [] && forall i | 0 <= i < |METERS| :: b.meters[i] == Figures(UNSET, UNSET, UNSET)
  }

  // Of all the rows in the database, those of one meter and kind are the deltas of its own readings,
  // and their amounts, with what was taken over silently, add up to its last kept value.
  lemma MeterRows(totals: Totals, db: Database, b: Books, shown: seq<Obis.Store>, i: nat, k: Kind)
    requires Fresh(b) && totals.Holds(CountedAll(b, totals.offset, shown), db) && i < |METERS|
    ensures var rs := Samples(shown, i);
            var rows := Kept(db.rows, k, METERS[i]);
            && rows == RowsOf(k, METERS[i], Deltas(k, totals.offset, UNSET, rs))
            && Amounts(rows) + Unreported(k, totals.offset, UNSET, rs)
               == FiguresOf(totals.meters[i]).Of(k).prevvalue
  {
    hide Kept, RowsOf, Deltas, RunAcc, Samples, METERS, CountedAll, Unreported, Sum;
    var rs := Samples(shown, i);
    MetersApart(b, totals.offset, shown, i, k);
    KeptNothing(k, METERS[i]);
    AmountsOf(k, METERS[i], Deltas(k, totals.offset, UNSET, rs));
    Conservation(k, totals.offset, UNSET, rs);
  }

  // A telegram whose lines give a time and a total is sampled at just these.
  lemma TelegramSample(decode: Obis.Decoder, store: Obis.Store, rows: seq<Line>, i: nat, t: Obis.Value, v: Obis.Value)
    requires i < |METERS|
    requires Obis.LastValue(decode, rows, STAMP) == Some(t)
    requires Obis.LastValue(decode, rows, METERS[i]) == Some(v)
    ensures Sample(Obis.UpdateRows(decode, store, rows), i)
            == Some(Reading(TimeOf(if i < 4 then t else v), AmountOf(v)))
  {
    hide METERS, Obis.UpdateRows, Obis.LastValue, Obis.Occurs;
    Obis.StoreContents(decode, store, rows, STAMP);
    Obis.StoreContents(decode, store, rows, METERS[i]);
  }

  // Of an electricity total that is its number at the time of the telegram, of the total of a device
  // behind the meter its number at its own time.
  lemma TotalSample(decode: Obis.Decoder, store: Obis.Store, rows: seq<Line>, i: nat, t: int, d: real, u: string)
    requires i < 4
    requires Obis.LastValue(decode, rows, STAMP) == Some(Obis.TimeValue(t))
    requires Obis.LastValue(decode, rows, METERS[i]) == Some(Obis.DoubleValue(d, u))
    ensures Sample(Obis.UpdateRows(decode, store, rows), i) == Some(Reading(t, d))
  {
    assert |METERS| == 8;
    hide METERS, Obis.UpdateRows, Obis.LastValue, Sample;
    TelegramSample(decode, store, rows, i, Obis.TimeValue(t), Obis.DoubleValue(d, u));
  }

  lemma DeviceSample(decode: Obis.Decoder, store: Obis.Store, rows: seq<Line>, i: nat, stamp: Obis.Value,
                     d: real, m: int, u: string)
    requires 4 <= i < |METERS|
    requires Obis.LastValue(decode, rows, STAMP) == Some(stamp)
    requires Obis.LastValue(decode, rows, METERS[i]) == Some(Obis.Min5Value(d, m, u))
    ensures Sample(Obis.UpdateRows(decode, store, rows), i) == Some(Reading(m, d))
  {
    hide METERS, Obis.UpdateRows, Obis.LastValue, Sample;
    TelegramSample(decode, store, rows, i, stamp, Obis.Min5Value(d, m, u));
  }

  // Whatever the store holds of the clock and a total decides its reading: the numbers in the objects,
  // zeroes of a blank one, and no reading when either is missing.
  lemma StoredSample(store: Obis.Store, i: nat, t: int, d: real, m: int, u: string)
    requires i < |METERS|
    ensures STAMP !in store || METERS[i] !in store ==> Sample(store, i) == None
    ensures i < 4 && STAMP in store && METERS[i] in store && store[METERS[i]] == Obis.DoubleValue(d, u) ==>
              && (store[STAMP] == Obis.TimeValue(t) ==> Sample(store, i) == Some(Reading(t, d)))
              && (store[STAMP] == Obis.BLANK ==> Sample(store, i) == Some(Reading(0, d)))
    ensures i >= 4 && STAMP in store && METERS[i] in store ==>
              && (store[METERS[i]] == Obis.Min5Value(d, m, u) ==> Sample(store, i) == Some(Reading(m, d)))
              && (store[METERS[i]] == Obis.BLANK ==> Sample(store, i) == Some(Reading(0, 0.0)))
  {
    hide METERS;
  }
}
