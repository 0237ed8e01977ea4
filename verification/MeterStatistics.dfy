// do_stats of src/statistics.c: the totals of eight meters, read from the object store each time a
// telegram was accepted, and from the bytes on the line to the rows in the database.
module MeterStatistics {
  import opened Calendar
  import opened ObisStore
  import opened Options
  import opened Statistics
  import Obis
  import ObisLines
  import Telegram

  const STAMP: Obis.Key := "0-0:1.0.0"

  // Four totals read at the time of the telegram, and four that bring their own time.
  const METERS: seq<Obis.Key> := [
    "1-0:1.8.1", "1-0:1.8.2", "1-0:2.8.1", "1-0:2.8.2",
    "0-1:24.2.1", "0-2:24.2.1", "0-3:24.2.1", "0-4:24.2.1"
  ]

  // What the members t and d of the object's union hold; a blank object is all zeroes.
  function TimeOf(v: Obis.Value): int {
    match v
    case TimeValue(t) => t
    case Min5Value(_, t, _) => t
    case _ => 0
  }

  function AmountOf(v: Obis.Value): real {
    match v
    case DoubleValue(d, _) => d
    case Min5Value(d, _, _) => d
    case _ => 0.0
  }

  // Decoders that return values of the type they are asked for, as those of the program do.
  ghost predicate Typed(decode: Obis.Decoder) {
    forall kind, unit, text | decode(kind, unit, text).Some? :: OfKind(decode(kind, unit, text).value, kind)
  }

  predicate OfKind(v: Obis.Value, kind: Obis.ObisType) {
    match kind
    case NULL => false
    case DOUBLE => v.DoubleValue?
    case INTEGER => v.IntegerValue?
    case TIME => v.TimeValue?
    case MIN5 => v.Min5Value?
    case STRING => v.StringValue?
    case LSTRING => v.StringValue?
  }

  // Every object is blank or of the type that the table gives its reference.
  ghost predicate WellKept(store: Obis.Store) {
    forall k | k in store ::
      Obis.Known(k) && (store[k] == Obis.BLANK || OfKind(store[k], Obis.Find(k, 0).value.kind))
  }

  lemma {:induction false} StaysWellKept(decode: Obis.Decoder, store: Obis.Store, rows: seq<Telegram.Line>)
    requires Typed(decode) && WellKept(store)
    ensures WellKept(Obis.UpdateRows(decode, store, rows))
    decreases |rows|
  {
    if rows != [] {
      var p, row := rows[..|rows| - 1], rows[|rows| - 1];
      StaysWellKept(decode, store, p);
      RowWellKept(decode, Obis.UpdateRows(decode, store, p), row);
    }
  }

  lemma RowWellKept(decode: Obis.Decoder, store: Obis.Store, row: Telegram.Line)
    requires Typed(decode) && WellKept(store)
    ensures WellKept(Obis.UpdateRow(decode, store, row))
  {
    hide Obis.Find, Obis.Split, Obis.Field, Obis.Chars;
    Obis.KeyKnown(row);
  }

  // So do_stats reads the members of the union that were written, or zeroes.
  lemma ReadsWritten(store: Obis.Store, i: nat)
    requires WellKept(store) && i < |METERS| && STAMP in store && METERS[i] in store
    ensures store[STAMP].TimeValue? || store[STAMP] == Obis.BLANK
    ensures if i < 4 then store[METERS[i]].DoubleValue?
            else store[METERS[i]].Min5Value? || store[METERS[i]] == Obis.BLANK
  {
    hide Obis.Find, Obis.TABLE;
    StampType();
    MeterType(i);
  }

  lemma StampType()
    ensures Obis.Find(STAMP, 0) == Some(Obis.Entry(STAMP, Obis.TIME, ""))
  {
    assert Obis.TABLE[1] == Obis.Entry(STAMP, Obis.TIME, "");
    ObisLines.FindAt(1);
  }

  lemma MeterType(i: nat)
    requires i < |METERS|
    ensures Obis.Find(METERS[i], 0)
            == Some(if i < 4 then Obis.Entry(METERS[i], Obis.DOUBLE, "kWh") else Obis.Entry(METERS[i], Obis.MIN5, ""))
  {
    if i < 4 {
      assert Obis.TABLE[3 + i] == Obis.TOTALS[i];
      ObisLines.FindAt(3 + i);
    } else {
      DeviceEntry(i - 4);
      ObisLines.FindAt(33 + 3 * (i - 4) + 2);
    }
  }

  lemma DeviceEntry(i: nat)
    requires i < 4
    ensures Obis.TABLE[33 + 3 * i + 2] == Obis.Entry(METERS[4 + i], Obis.MIN5, "")
  {
    assert Obis.TABLE[33 + 3 * i + 2] == Obis.DEVICES[3 * i + 2];
    var n := METERS[4 + i][2];
    assert "0-" + [n] + ":24.2.1" == METERS[4 + i];
    assert Obis.DEVICES[3 * i + 2] == Obis.Device(n)[2];
  }

  // What do_stats reads for one meter.
  function Sample(store: Obis.Store, i: nat): Option<Reading>
    requires i < |METERS|
  {
    if STAMP in store && METERS[i] in store then
      Some(Reading(TimeOf(store[if i < 4 then STAMP else METERS[i]]), AmountOf(store[METERS[i]])))
    else None
  }

  ghost function Samples(shown: seq<Obis.Store>, i: nat): seq<Reading>
    requires i < |METERS|
  {
    if shown == [] then []
    else
      Samples(shown[..|shown| - 1], i)
      + match Sample(shown[|shown| - 1], i) case Some(r) => [r] case None => []
  }

  // ----- the books -----

  // The three accumulators of a meter.
  datatype Figures = Figures(hourly: Acc, daily: Acc, weekly: Acc) {
    function Of(kind: Kind): Acc {
      match kind
      case HOURLY => hourly
      case DAILY => daily
      case WEEKLY => weekly
    }
  }

  ghost function FiguresOf(m: Meter): Figures
    reads m.Repr()
  {
    Figures(m.hourly.Value(), m.daily.Value(), m.weekly.Value())
  }

  // The accumulators of all meters, and the rows of the database.
  datatype Books = Books(meters: seq<Figures>, rows: seq<Row>)

  predicate Complete(b: Books) {
    |b.meters| == |METERS|
  }

  ghost function Fed(m: Figures, offset: int, s: Option<Reading>): Figures {
    match s
    case None => m
    case Some(r) =>
      Figures(Next(HOURLY, offset, m.hourly, r), Next(DAILY, offset, m.daily, r), Next(WEEKLY, offset, m.weekly, r))
  }

  ghost function BlockRows(m: Figures, name: string, offset: int, s: Option<Reading>): seq<Row>
  {
    match s
    case None => []
    case Some(r) =>
      RowsOf(HOURLY, name, Report(HOURLY, offset, m.hourly, r))
      + RowsOf(DAILY, name, Report(DAILY, offset, m.daily, r))
      + RowsOf(WEEKLY, name, Report(WEEKLY, offset, m.weekly, r))
  }

  // The rows that the first n meters add.
  ghost function Added(b: Books, offset: int, store: Obis.Store, n: nat): seq<Row>
    requires Complete(b) && n <= |METERS|
  {
    if n == 0 then []
    else Added(b, offset, store, n - 1)
         + BlockRows(b.meters[n - 1], METERS[n - 1], offset, Sample(store, n - 1))
  }

  ghost function Counted(b: Books, offset: int, store: Obis.Store): (c: Books)
    requires Complete(b)
    ensures Complete(c)
  {
    Books(seq(|METERS|, i requires 0 <= i < |METERS| => Fed(b.meters[i], offset, Sample(store, i))),
          b.rows + Added(b, offset, store, |METERS|))
  }

  // After all the times the callback ran.
  ghost function CountedAll(b: Books, offset: int, shown: seq<Obis.Store>): (c: Books)
    requires Complete(b)
    ensures Complete(c)
  {
    if shown == [] then b
    else Counted(CountedAll(b, offset, shown[..|shown| - 1]), offset, shown[|shown| - 1])
  }

  // ----- what the books say -----

  lemma {:induction false} KeptElse(kind: Kind, name: string, ds: seq<Delta>, k: Kind, other: string)
    requires other != name
    ensures Kept(RowsOf(kind, name, ds), k, other) == []
    decreases |ds|
  {
    hide Int32;
    if ds != [] {
      var p := ds[..|ds| - 1];
      KeptElse(kind, name, p, k, other);
      assert RowsOf(kind, name, ds)[..|ds| - 1] == RowsOf(kind, name, p);
    }
  }

  lemma KeptBlock(m: Figures, name: string, offset: int, s: Option<Reading>, k: Kind, other: string)
    ensures Kept(BlockRows(m, name, offset, s), k, other)
            == if s.Some? && other == name then RowsOf(k, name, Report(k, offset, m.Of(k), s.value)) else []
  {
    hide Kept, RowsOf, Report;
    match s
    case None => KeptNothing(k, other);
    case Some(r) =>
      var h, d, w :=
        Report(HOURLY, offset, m.hourly, r), Report(DAILY, offset, m.daily, r), Report(WEEKLY, offset, m.weekly, r);
      if other == name {
        KeptOfThree(name, h, d, w);
      } else {
        KeptConcat(RowsOf(HOURLY, name, h), RowsOf(DAILY, name, d), k, other);
        KeptConcat(RowsOf(HOURLY, name, h) + RowsOf(DAILY, name, d), RowsOf(WEEKLY, name, w), k, other);
        KeptElse(HOURLY, name, h, k, other);
        KeptElse(DAILY, name, d, k, other);
        KeptElse(WEEKLY, name, w, k, other);
      }
  }

  lemma KeptNothing(k: Kind, name: string)
    ensures Kept([], k, name) == []
  {
  }

  lemma NamesDiffer(i: nat, j: nat)
    requires i < |METERS| && j < |METERS| && METERS[i] == METERS[j]
    ensures i == j
  {
  }

  // Of the rows added for one telegram, those of one meter and kind are what its accumulator reports.
  lemma {:induction false} KeptAdded(b: Books, offset: int, store: Obis.Store, n: nat, k: Kind, i: nat)
    requires Complete(b) && n <= |METERS| && i < |METERS|
    ensures Kept(Added(b, offset, store, n), k, METERS[i])
            == match Sample(store, i)
               case Some(r) => if i < n then RowsOf(k, METERS[i], Report(k, offset, b.meters[i].Of(k), r)) else []
               case None => []
    decreases n
  {
    hide Kept, RowsOf, Report, Sample, METERS, BlockRows;
    if n == 0 {
      KeptNothing(k, METERS[i]);
    } else {
      KeptAdded(b, offset, store, n - 1, k, i);
      var more := BlockRows(b.meters[n - 1], METERS[n - 1], offset, Sample(store, n - 1));
      KeptConcat(Added(b, offset, store, n - 1), more, k, METERS[i]);
      KeptBlock(b.meters[n - 1], METERS[n - 1], offset, Sample(store, n - 1), k, METERS[i]);
      if i != n - 1 && METERS[i] == METERS[n - 1] {
        NamesDiffer(i, n - 1);
      }
    }
  }

  // The accumulator of each meter and kind, and its rows in the database, are those of a run over the
  // readings taken for that meter, whatever the other seven meters store in between.
  lemma {:induction false} MetersApart(b: Books, offset: int, shown: seq<Obis.Store>, i: nat, k: Kind)
    requires Complete(b) && i < |METERS|
    ensures var c := CountedAll(b, offset, shown);
            Ran(k, offset, b.meters[i].Of(k), c.meters[i].Of(k), b.rows, c.rows, METERS[i], Samples(shown, i))
    decreases |shown|
  {
    hide Kept, RowsOf, Report, Next, Sample, METERS, Added, Ran;
    if shown == [] {
      RanNothing(k, offset, b.meters[i].Of(k), b.rows, METERS[i]);
    } else {
      var p, s := shown[..|shown| - 1], shown[|shown| - 1];
      MetersApart(b, offset, p, i, k);
      var c := CountedAll(b, offset, p);
      var rs, more := Samples(p, i), Added(c, offset, s, |METERS|);
      KeptAdded(c, offset, s, |METERS|, k, i);
      match Sample(s, i)
      case Some(r) =>
        RanMore(k, offset, b.meters[i].Of(k), c.meters[i].Of(k), b.rows, c.rows, METERS[i], rs, r, more);
      case None =>
        RanOthers(k, offset, b.meters[i].Of(k), c.meters[i].Of(k), b.rows, c.rows, METERS[i], rs, more);
        assert rs + [] == rs;
    }
  }

  lemma RanOthers(kind: Kind, offset: int, a: Acc, b: Acc, before: seq<Row>, after: seq<Row>, name: string,
                  rs: seq<Reading>, more: seq<Row>)
    requires Ran(kind, offset, a, b, before, after, name, rs) && Kept(more, kind, name) == []
    ensures Ran(kind, offset, a, b, before, after + more, name, rs)
  {
    hide Kept, RowsOf, Deltas, RunAcc;
    KeptConcat(after, more, kind, name);
  }

  // Between the blocks of do_stats: the first n meters are done.
  ghost function Partly(b: Books, offset: int, store: Obis.Store, n: nat): (c: Books)
    requires Complete(b) && n <= |METERS|
    ensures Complete(c)
  {
    Books(seq(|METERS|, i requires 0 <= i < |METERS| =>
                if i < n then Fed(b.meters[i], offset, Sample(store, i)) else b.meters[i]),
          b.rows + Added(b, offset, store, n))
  }

  lemma PartlyEnds(b: Books, offset: int, store: Obis.Store)
    requires Complete(b)
    ensures Partly(b, offset, store, 0) == b && Partly(b, offset, store, |METERS|) == Counted(b, offset, store)
  {
    hide Fed, Sample, BlockRows;
    assert b.rows + [] == b.rows;
    assert Partly(b, offset, store, 0).meters == b.meters;
    assert Partly(b, offset, store, |METERS|).meters == Counted(b, offset, store).meters;
  }

  // One more block changes one meter and appends its rows.
  ghost function Blocked(b: Books, offset: int, i: nat, s: Option<Reading>): (c: Books)
    requires Complete(b) && i < |METERS|
    ensures Complete(c)
  {
    Books(b.meters[i := Fed(b.meters[i], offset, s)], b.rows + BlockRows(b.meters[i], METERS[i], offset, s))
  }

  lemma PartlyNext(b: Books, offset: int, store: Obis.Store, n: nat)
    requires Complete(b) && n < |METERS|
    ensures Partly(b, offset, store, n + 1) == Blocked(Partly(b, offset, store, n), offset, n, Sample(store, n))
  {
    hide Fed, Sample, BlockRows, METERS;
    var c, d := Partly(b, offset, store, n), Partly(b, offset, store, n + 1);
    assert d.meters == c.meters[n := Fed(c.meters[n], offset, Sample(store, n))];
    var more := BlockRows(b.meters[n], METERS[n], offset, Sample(store, n));
    assert b.rows + Added(b, offset, store, n) + more == b.rows + (Added(b, offset, store, n) + more);
  }

  lemma NoReading(b: Books, offset: int, i: nat)
    requires Complete(b) && i < |METERS|
    ensures Blocked(b, offset, i, None) == b
  {
    hide METERS;
    assert b.meters[i := b.meters[i]] == b.meters && b.rows + [] == b.rows;
  }

  // Without the time of the telegram nothing is counted.
  lemma {:induction false} NoTime(b: Books, offset: int, store: Obis.Store, n: nat)
    requires Complete(b) && STAMP !in store && n <= |METERS|
    ensures Partly(b, offset, store, n) == b
    decreases n
  {
    hide METERS, STAMP, Partly, Blocked, Counted;
    if n == 0 {
      PartlyEnds(b, offset, store);
    } else {
      assert Sample(store, n - 1) == None;
      NoTime(b, offset, store, n - 1);
      PartlyNext(b, offset, store, n - 1);
      NoReading(b, offset, n - 1);
    }
  }

  // ----- the program -----

  class Totals {
    const meters: seq<Meter>
    const offset: int
    ghost const repr: set<Accumulator>

    // statistics_init
    constructor (offset: int)
      requires offset % 3600 != 1
      ensures Valid() && fresh(repr) && this.offset == offset
      ensures forall i | 0 <= i < |METERS| :: FiguresOf(meters[i]) == Figures(UNSET, UNSET, UNSET)
    {
      this.offset := offset;
      var ms: seq<Meter> := [];
      ghost var all: set<Accumulator> := {};
      for i := 0 to |METERS|
        invariant |ms| == i && fresh(all)
        invariant forall j | 0 <= j < i ::
                    && ms[j].Valid() && ms[j].hourly.name == METERS[j] && ms[j].Repr() <= all
                    && FiguresOf(ms[j]) == Figures(UNSET, UNSET, UNSET)
      {
        var m := new Meter(METERS[i]);
        ms := ms + [m];
        all := all + m.Repr();
      }
      meters, repr := ms, all;
    }

    ghost predicate Valid() {
      && |meters| == |METERS| && offset % 3600 != 1
      && forall i | 0 <= i < |METERS| ::
           meters[i].Valid() && meters[i].hourly.name == METERS[i] && meters[i].Repr() <= repr
    }

    // The accumulators and the rows are those of b.
    ghost predicate Holds(b: Books, db: Database)
      reads repr, db
    {
      && Valid() && Complete(b) && db.rows == b.rows
      && forall i | 0 <= i < |METERS| :: FiguresOf(meters[i]) == b.meters[i]
    }

    // Different meters have different accumulators.
    lemma Apart(i: nat, j: nat)
      requires Valid() && i < |METERS| && j < |METERS| && i != j
      ensures meters[i].Repr() !! meters[j].Repr()
    {
      if METERS[i] == METERS[j] {
        NamesDiffer(i, j);
      }
    }

    // The three evaluations of a block.
    method Evaluate(i: nat, db: Database, t: int, d: real, ghost b: Books)
      requires Holds(b, db) && i < |METERS|
      modifies repr, db
      ensures Holds(Blocked(b, offset, i, Some(Reading(t, d))), db)
    {
      hide METERS, Next, Report, RowsOf;
      forall j | 0 <= j < |METERS| && j != i ensures meters[i].Repr() !! meters[j].Repr() {
        Apart(i, j);
      }
      NeverError(offset);
      BucketIs(t, offset);
      hide Bucket;
      meters[i].Feed(db, t, d, offset);
    }

    // One block of do_stats, for an object that is there or not.
    method Block(i: nat, store: ObjectStore, db: Database, time: ObisObject, ghost b: Books)
      requires Complete(b) && store.Valid() && i < |METERS|
      requires Holds(Partly(b, offset, store.Contents(), i), db)
      requires STAMP in store.Contents() && store.Contents()[STAMP] == time.v
      modifies repr, db
      ensures Holds(Partly(b, offset, store.Contents(), i + 1), db)
    {
      hide METERS, STAMP, ObjectStore.Valid, ObjectStore.Contents, Holds, Partly, Blocked;
      PartlyNext(b, offset, store.Contents(), i);
      NoReading(Partly(b, offset, store.Contents(), i), offset, i);
      var o := store.Look(METERS[i]);
      if o != null {
        Evaluate(i, db, TimeOf(if i < 4 then time.v else o.v), AmountOf(o.v), Partly(b, offset, store.Contents(), i));
      }
    }

    // do_stats
    method DoStats(store: ObjectStore, db: Database, ghost b: Books)
      requires Complete(b) && Holds(b, db) && store.Valid()
      modifies repr, db
      ensures Holds(Counted(b, offset, store.Contents()), db)
    {
      hide Holds, Partly, Counted, STAMP, ObjectStore.Valid, ObjectStore.Contents, Complete;
      PartlyEnds(b, offset, store.Contents());
      var time := store.Look(STAMP);
      if time == null {
        NoTime(b, offset, store.Contents(), |METERS|);
      } else {
        Block(0, store, db, time, b);
        Block(1, store, db, time, b);
        Block(2, store, db, time, b);
        Block(3, store, db, time, b);
        Block(4, store, db, time, b);
        Block(5, store, db, time, b);
        Block(6, store, db, time, b);
        Block(7, store, db, time, b);
      }
    }
  }
}
