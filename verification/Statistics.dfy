// The periodic statistics of src/database.c and src/statistics.c: accumulators that turn meter
// readings into one consumption figure per hour, day and week.
module Statistics {
  import opened Calendar

  datatype Reading = Reading(t: int, b: real)

  // prevtime and prevvalue; zero means unset in both.
  datatype Acc = Acc(prevtime: int, prevvalue: real)

  const UNSET := Acc(0, 0.0)

  datatype Delta = Delta(time: int, amount: real)

  datatype Row = Row(kind: Kind, name: string, time: int, amount: real)

  // The row's timestamp is passed as an int.
  function Int32(x: int): int {
    (x + 0x8000_0000) % 0x1_0000_0000 - 0x8000_0000
  }

  ghost predicate Turns(kind: Kind, offset: int, acc: Acc, r: Reading) {
    acc.prevtime != 0 && acc.prevtime != Bucket(kind, r.t, offset)
  }

  // What one reading does to an accumulator, and what it reports.
  ghost function Next(kind: Kind, offset: int, acc: Acc, r: Reading): Acc {
    Acc(Bucket(kind, r.t, offset), if Turns(kind, offset, acc, r) then r.b else acc.prevvalue)
  }

  ghost function Report(kind: Kind, offset: int, acc: Acc, r: Reading): seq<Delta> {
    if Turns(kind, offset, acc, r) && acc.prevvalue != 0.0
    then [Delta(acc.prevtime, r.b - acc.prevvalue)]
    else []
  }

  ghost function RowsOf(kind: Kind, name: string, ds: seq<Delta>): seq<Row> {
    seq(|ds|, i requires 0 <= i < |ds| => Row(kind, name, Int32(ds[i].time), ds[i].amount))
  }

  class Database {
    var rows: seq<Row>

    constructor ()
      ensures rows == []
    {
      rows := [];
    }

    // database_update
    method Update(kind: Kind, name: string, i: int, d: real)
      modifies this
      ensures rows == old(rows) + [Row(kind, name, Int32(i), d)]
    {
      rows := rows + [Row(kind, name, Int32(i), d)];
    }
  }

  class Accumulator {
    const kind: Kind
    const name: string
    var prevtime: int
    var prevvalue: real

    // database_data_init
    constructor (name: string, kind: Kind)
      ensures Value() == UNSET && this.name == name && this.kind == kind
    {
      this.name, this.kind := name, kind;
      prevtime, prevvalue := 0, 0.0;
    }

    ghost function Value(): Acc
      reads this
    {
      Acc(prevtime, prevvalue)
    }

    // The switch at the top of database_evaluate.
    method NewTime(a: int, offset: int) returns (newtime: int)
      ensures newtime == Bucket(kind, a, offset)
    {
      match kind {
        case HOURLY => newtime := HourOf(a, offset);
        case DAILY => newtime := Midnight(a, offset);
        case WEEKLY => newtime := WeekStart(a, offset);
      }
    }

    // database_evaluate; it asserts that the bucket is not mktime's error value.
    method Evaluate(db: Database, a: int, b: real, offset: int)
      requires Bucket(kind, a, offset) != -1
      modifies this, db
      ensures Value() == Next(kind, offset, old(Value()), Reading(a, b))
      ensures db.rows == old(db.rows) + RowsOf(kind, name, Report(kind, offset, old(Value()), Reading(a, b)))
    {
      var newtime := NewTime(a, offset);
      if prevtime != 0 {
        if prevtime != newtime {
          if prevvalue != 0.0 {
            db.Update(kind, name, prevtime, b - prevvalue);
          }
          prevvalue := b;
        }
      }
      prevtime := newtime;
    }
  }

  // The three accumulators of one meter, fed the same reading.
  class Meter {
    const hourly: Accumulator
    const daily: Accumulator
    const weekly: Accumulator

    constructor (name: string)
      ensures Valid() && hourly.Value() == UNSET && daily.Value() == UNSET && weekly.Value() == UNSET
      ensures hourly.name == name && fresh(Repr())
    {
      hourly := new Accumulator(name, HOURLY);
      daily := new Accumulator(name, DAILY);
      weekly := new Accumulator(name, WEEKLY);
    }

    ghost predicate Valid() {
      && hourly != daily && daily != weekly && hourly != weekly
      && hourly.kind == HOURLY && daily.kind == DAILY && weekly.kind == WEEKLY
      && hourly.name == daily.name == weekly.name
    }

    ghost function Repr(): set<Accumulator> {
      {hourly, daily, weekly}
    }

    // One block of do_stats.
    method Feed(db: Database, t: int, d: real, offset: int)
      requires Valid() && HourOf(t, offset) != -1 && Midnight(t, offset) != -1 && WeekOf(t, offset) != -1
      modifies hourly, daily, weekly, db
      ensures hourly.Value() == Next(HOURLY, offset, old(hourly.Value()), Reading(t, d))
      ensures daily.Value() == Next(DAILY, offset, old(daily.Value()), Reading(t, d))
      ensures weekly.Value() == Next(WEEKLY, offset, old(weekly.Value()), Reading(t, d))
      ensures db.rows == old(db.rows)
                         + RowsOf(HOURLY, hourly.name, Report(HOURLY, offset, old(hourly.Value()), Reading(t, d)))
                         + RowsOf(DAILY, hourly.name, Report(DAILY, offset, old(daily.Value()), Reading(t, d)))
                         + RowsOf(WEEKLY, hourly.name, Report(WEEKLY, offset, old(weekly.Value()), Reading(t, d)))
    {
      hourly.Evaluate(db, t, d, offset);
      daily.Evaluate(db, t, d, offset);
      weekly.Evaluate(db, t, d, offset);
    }

    // The block of one meter, once for each reading: the rows of each kind that a run leaves in the database.
    method FeedAll(db: Database, rs: seq<Reading>, offset: int)
      requires Valid()
      requires forall k: Kind, i | 0 <= i < |rs| :: Bucket(k, rs[i].t, offset) != -1
      modifies hourly, daily, weekly, db
      ensures Ran(HOURLY, offset, old(hourly.Value()), hourly.Value(), old(db.rows), db.rows, hourly.name, rs)
      ensures Ran(DAILY, offset, old(daily.Value()), daily.Value(), old(db.rows), db.rows, hourly.name, rs)
      ensures Ran(WEEKLY, offset, old(weekly.Value()), weekly.Value(), old(db.rows), db.rows, hourly.name, rs)
    {
      hide Next, Report, Bucket, Ran;
      ghost var h0, d0, w0, was := hourly.Value(), daily.Value(), weekly.Value(), db.rows;
      RanNothing(HOURLY, offset, h0, was, hourly.name);
      RanNothing(DAILY, offset, d0, was, hourly.name);
      RanNothing(WEEKLY, offset, w0, was, hourly.name);
      assert rs[..0] == [];
      for i := 0 to |rs|
        invariant Ran(HOURLY, offset, h0, hourly.Value(), was, db.rows, hourly.name, rs[..i])
        invariant Ran(DAILY, offset, d0, daily.Value(), was, db.rows, hourly.name, rs[..i])
        invariant Ran(WEEKLY, offset, w0, weekly.Value(), was, db.rows, hourly.name, rs[..i])
      {
        var r := rs[i];
        assert rs[..i + 1] == rs[..i] + [r];
        assert Bucket(HOURLY, r.t, offset) != -1;
        assert Bucket(DAILY, r.t, offset) != -1 && Bucket(WEEKLY, r.t, offset) != -1;
        BucketIs(r.t, offset);
        ghost var h, d, w, before := hourly.Value(), daily.Value(), weekly.Value(), db.rows;
        Feed(db, r.t, r.b, offset);
        ghost var rh, rd, rw :=
          Report(HOURLY, offset, h, r), Report(DAILY, offset, d, r), Report(WEEKLY, offset, w, r);
        ghost var more := RowsOf(HOURLY, hourly.name, rh) + RowsOf(DAILY, hourly.name, rd)
                          + RowsOf(WEEKLY, hourly.name, rw);
        assert db.rows == before + more;
        KeptOfThree(hourly.name, rh, rd, rw);
        RanMore(HOURLY, offset, h0, h, was, before, hourly.name, rs[..i], r, more);
        RanMore(DAILY, offset, d0, d, was, before, hourly.name, rs[..i], r, more);
        RanMore(WEEKLY, offset, w0, w, was, before, hourly.name, rs[..i], r, more);
      }
      assert rs[..|rs|] == rs;
    }
  }

  lemma BucketIs(t: int, offset: int)
    ensures Bucket(HOURLY, t, offset) == HourOf(t, offset)
    ensures Bucket(DAILY, t, offset) == Midnight(t, offset)
    ensures Bucket(WEEKLY, t, offset) == WeekOf(t, offset)
  {
  }

  // ----- the rows of one kind and name -----

  ghost function Kept(rows: seq<Row>, kind: Kind, name: string): seq<Row> {
    if rows == [] then []
    else
      var row := rows[|rows| - 1];
      Kept(rows[..|rows| - 1], kind, name) + if row.kind == kind && row.name == name then [row] else []
  }

  lemma {:induction false} KeptConcat(a: seq<Row>, b: seq<Row>, kind: Kind, name: string)
    ensures Kept(a + b, kind, name) == Kept(a, kind, name) + Kept(b, kind, name)
    decreases |b|
  {
    if b == [] {
      assert a + b == a;
    } else {
      var c, row := b[..|b| - 1], b[|b| - 1];
      var last := if row.kind == kind && row.name == name then [row] else [];
      KeptConcat(a, c, kind, name);
      assert (a + b)[..|a + b| - 1] == a + c && (a + b)[|a + b| - 1] == row;
      assert Kept(a, kind, name) + Kept(c, kind, name) + last == Kept(a, kind, name) + (Kept(c, kind, name) + last);
    }
  }

  lemma {:induction false} KeptRows(kind: Kind, name: string, ds: seq<Delta>, k: Kind)
    ensures Kept(RowsOf(kind, name, ds), k, name) == if k == kind then RowsOf(kind, name, ds) else []
    decreases |ds|
  {
    hide Int32;
    if ds != [] {
      var p := ds[..|ds| - 1];
      KeptRows(kind, name, p, k);
      assert RowsOf(kind, name, ds)[..|ds| - 1] == RowsOf(kind, name, p);
    }
  }

  // A run over rs took an accumulator from a to b, and the rows of its kind are those of its deltas.
  ghost predicate Ran(kind: Kind, offset: int, a: Acc, b: Acc, before: seq<Row>, after: seq<Row>, name: string,
                      rs: seq<Reading>) {
    && b == RunAcc(kind, offset, a, rs)
    && Kept(after, kind, name) == Kept(before, kind, name) + RowsOf(kind, name, Deltas(kind, offset, a, rs))
  }

  lemma RanNothing(kind: Kind, offset: int, a: Acc, rows: seq<Row>, name: string)
    ensures Ran(kind, offset, a, a, rows, rows, name, [])
  {
    assert RowsOf(kind, name, []) == [];
  }

  lemma RanMore(kind: Kind, offset: int, a: Acc, b: Acc, before: seq<Row>, after: seq<Row>, name: string,
                rs: seq<Reading>, r: Reading, more: seq<Row>)
    requires Ran(kind, offset, a, b, before, after, name, rs)
    requires Kept(more, kind, name) == RowsOf(kind, name, Report(kind, offset, b, r))
    ensures Ran(kind, offset, a, Next(kind, offset, b, r), before, after + more, name, rs + [r])
  {
    hide Next, Report, Kept, Int32;
    KeptConcat(after, more, kind, name);
    assert (rs + [r])[..|rs|] == rs;
    RowsConcat(kind, name, Deltas(kind, offset, a, rs), Report(kind, offset, b, r));
  }

  lemma RowsConcat(kind: Kind, name: string, a: seq<Delta>, b: seq<Delta>)
    ensures RowsOf(kind, name, a + b) == RowsOf(kind, name, a) + RowsOf(kind, name, b)
  {
    hide Int32;
  }

  lemma KeptOfThree(name: string, h: seq<Delta>, d: seq<Delta>, w: seq<Delta>)
    ensures var rows := RowsOf(HOURLY, name, h) + RowsOf(DAILY, name, d) + RowsOf(WEEKLY, name, w);
            && Kept(rows, HOURLY, name) == RowsOf(HOURLY, name, h)
            && Kept(rows, DAILY, name) == RowsOf(DAILY, name, d)
            && Kept(rows, WEEKLY, name) == RowsOf(WEEKLY, name, w)
  {
    hide Kept, RowsOf;
    forall k: Kind
      ensures Kept(RowsOf(HOURLY, name, h) + RowsOf(DAILY, name, d) + RowsOf(WEEKLY, name, w), k, name)
              == Kept(RowsOf(HOURLY, name, h), k, name) + Kept(RowsOf(DAILY, name, d), k, name)
                 + Kept(RowsOf(WEEKLY, name, w), k, name)
    {
      KeptConcat(RowsOf(HOURLY, name, h), RowsOf(DAILY, name, d), k, name);
      KeptConcat(RowsOf(HOURLY, name, h) + RowsOf(DAILY, name, d), RowsOf(WEEKLY, name, w), k, name);
      KeptRows(HOURLY, name, h, k);
      KeptRows(DAILY, name, d, k);
      KeptRows(WEEKLY, name, w, k);
    }
    KeptRows(HOURLY, name, h, HOURLY);
    KeptRows(DAILY, name, d, HOURLY);
    KeptRows(WEEKLY, name, w, HOURLY);
    KeptRows(HOURLY, name, h, DAILY);
    KeptRows(DAILY, name, d, DAILY);
    KeptRows(WEEKLY, name, w, DAILY);
    KeptRows(HOURLY, name, h, WEEKLY);
    KeptRows(DAILY, name, d, WEEKLY);
    KeptRows(WEEKLY, name, w, WEEKLY);
  }

  // ----- whole runs -----

  ghost function RunAcc(kind: Kind, offset: int, acc: Acc, rs: seq<Reading>): Acc {
    if rs == [] then acc
    else Next(kind, offset, RunAcc(kind, offset, acc, rs[..|rs| - 1]), rs[|rs| - 1])
  }

  ghost function Deltas(kind: Kind, offset: int, acc: Acc, rs: seq<Reading>): seq<Delta> {
    if rs == [] then []
    else Deltas(kind, offset, acc, rs[..|rs| - 1])
         + Report(kind, offset, RunAcc(kind, offset, acc, rs[..|rs| - 1]), rs[|rs| - 1])
  }

  ghost function Sum(ds: seq<Delta>): real {
    if ds == [] then 0.0 else Sum(ds[..|ds| - 1]) + ds[|ds| - 1].amount
  }

  lemma {:induction false} SumConcat(a: seq<Delta>, b: seq<Delta>)
    ensures Sum(a + b) == Sum(a) + Sum(b)
    decreases |b|
  {
    if b == [] {
      assert a + b == a;
    } else {
      SumConcat(a, b[..|b| - 1]);
      assert (a + b)[..|a + b| - 1] == a + b[..|b| - 1];
    }
  }

  // What a bucket change takes over without a report: nothing was known before it.
  ghost function TakenOver(kind: Kind, offset: int, acc: Acc, r: Reading): real {
    if Turns(kind, offset, acc, r) && acc.prevvalue == 0.0 then r.b else 0.0
  }

  ghost function Unreported(kind: Kind, offset: int, acc: Acc, rs: seq<Reading>): real {
    if rs == [] then 0.0
    else Unreported(kind, offset, acc, rs[..|rs| - 1])
         + TakenOver(kind, offset, RunAcc(kind, offset, acc, rs[..|rs| - 1]), rs[|rs| - 1])
  }

  lemma StepConserves(kind: Kind, offset: int, acc: Acc, r: Reading)
    ensures Sum(Report(kind, offset, acc, r)) + TakenOver(kind, offset, acc, r)
            == Next(kind, offset, acc, r).prevvalue - acc.prevvalue
  {
    hide Bucket;
    var d := Report(kind, offset, acc, r);
    if d != [] {
      assert d[..|d| - 1] == [];
    }
  }

  // Conservation, for every run without exception: what was reported and what was taken over
  // unreported add up to the change of the kept value.
  lemma {:induction false} Conservation(kind: Kind, offset: int, acc: Acc, rs: seq<Reading>)
    ensures Sum(Deltas(kind, offset, acc, rs)) + Unreported(kind, offset, acc, rs)
            == RunAcc(kind, offset, acc, rs).prevvalue - acc.prevvalue
    decreases |rs|
  {
    hide Bucket, Next, Report, TakenOver;
    if rs != [] {
      var p, r := rs[..|rs| - 1], rs[|rs| - 1];
      var mid := RunAcc(kind, offset, acc, p);
      Conservation(kind, offset, acc, p);
      SumConcat(Deltas(kind, offset, acc, p), Report(kind, offset, mid, r));
      StepConserves(kind, offset, mid, r);
    }
  }

  // Two runs after each other are one run.
  lemma {:induction false} RunConcat(kind: Kind, offset: int, acc: Acc, p: seq<Reading>, q: seq<Reading>)
    ensures RunAcc(kind, offset, acc, p + q) == RunAcc(kind, offset, RunAcc(kind, offset, acc, p), q)
    ensures Deltas(kind, offset, acc, p + q)
            == Deltas(kind, offset, acc, p) + Deltas(kind, offset, RunAcc(kind, offset, acc, p), q)
    decreases |q|
  {
    hide Bucket, Next, Report;
    if q == [] {
      assert p + q == p;
    } else {
      RunConcat(kind, offset, acc, p, q[..|q| - 1]);
      assert (p + q)[..|p + q| - 1] == p + q[..|q| - 1];
    }
  }

  ghost predicate NonZero(rs: seq<Reading>) {
    forall i | 0 <= i < |rs| :: rs[i].b != 0.0
  }

  ghost predicate NonZeroTimes(kind: Kind, offset: int, rs: seq<Reading>) {
    forall i | 0 <= i < |rs| :: Bucket(kind, rs[i].t, offset) != 0
  }

  // Reading i falls in another bucket than the one before it.
  ghost predicate Changes(kind: Kind, offset: int, rs: seq<Reading>, i: nat) {
    0 < i < |rs| && Bucket(kind, rs[i - 1].t, offset) != Bucket(kind, rs[i].t, offset)
  }

  // An accumulator remembers the bucket of the last reading.
  lemma LastBucket(kind: Kind, offset: int, acc: Acc, rs: seq<Reading>)
    requires rs != []
    ensures RunAcc(kind, offset, acc, rs).prevtime == Bucket(kind, rs[|rs| - 1].t, offset)
  {
    hide Bucket;
  }

  // From a set value on, and with no zero reading, nothing goes unreported.
  lemma {:induction false} AllReported(kind: Kind, offset: int, acc: Acc, rs: seq<Reading>)
    requires acc.prevvalue != 0.0 && NonZero(rs)
    ensures RunAcc(kind, offset, acc, rs).prevvalue != 0.0
    ensures Unreported(kind, offset, acc, rs) == 0.0
    decreases |rs|
  {
    hide Bucket;
    if rs != [] {
      AllReported(kind, offset, acc, rs[..|rs| - 1]);
    }
  }

  // Right after a change, the kept value is the reading at the change.
  lemma ChangeKeeps(kind: Kind, offset: int, acc: Acc, rs: seq<Reading>, i: nat)
    requires NonZeroTimes(kind, offset, rs) && Changes(kind, offset, rs, i)
    ensures RunAcc(kind, offset, acc, rs[..i + 1])
            == Acc(Bucket(kind, rs[i].t, offset), rs[i].b)
  {
    hide Bucket;
    assert rs[..i + 1][..i] == rs[..i];
    LastBucket(kind, offset, acc, rs[..i]);
  }

  // While the bucket stays the same, nothing is reported and the kept value stays.
  lemma {:induction false} Quiet(kind: Kind, offset: int, acc: Acc, rs: seq<Reading>)
    requires rs != [] ==> acc.prevtime == 0 || acc.prevtime == Bucket(kind, rs[0].t, offset)
    requires forall i | 0 <= i < |rs| :: !Changes(kind, offset, rs, i)
    ensures Deltas(kind, offset, acc, rs) == [] && RunAcc(kind, offset, acc, rs).prevvalue == acc.prevvalue
    decreases |rs|
  {
    hide Bucket;
    if rs != [] {
      var p := rs[..|rs| - 1];
      assert forall i | 0 <= i < |p| :: Changes(kind, offset, p, i) == Changes(kind, offset, rs, i);
      Quiet(kind, offset, acc, p);
      if p != [] {
        LastBucket(kind, offset, acc, p);
        assert !Changes(kind, offset, rs, |p|);
      }
    }
  }

  // Conservation from a fresh accumulator: the reports, and what was taken over silently after the
  // first bucket change, add up to the kept value less the reading at that change.
  lemma SinceFirstChange(kind: Kind, offset: int, rs: seq<Reading>, f: nat)
    requires NonZeroTimes(kind, offset, rs)
    requires Changes(kind, offset, rs, f) && forall i | 0 <= i < f :: !Changes(kind, offset, rs, i)
    ensures Sum(Deltas(kind, offset, UNSET, rs))
            + Unreported(kind, offset, RunAcc(kind, offset, UNSET, rs[..f + 1]), rs[f + 1..])
            == RunAcc(kind, offset, UNSET, rs).prevvalue - rs[f].b
  {
    hide Bucket, Next, Report, TakenOver, Deltas, RunAcc, Sum, Unreported;
    var p, q := rs[..f + 1], rs[f + 1..];
    assert p + q == rs;
    var kept := RunAcc(kind, offset, UNSET, p);
    FirstChangeSilent(kind, offset, rs, f);
    ChangeKeeps(kind, offset, UNSET, rs, f);
    RunConcat(kind, offset, UNSET, p, q);
    Conservation(kind, offset, kept, q);
    assert Deltas(kind, offset, UNSET, rs) == Deltas(kind, offset, kept, q);
  }

  // Without zero readings nothing is taken over silently.
  lemma ReportedSinceFirstChange(kind: Kind, offset: int, rs: seq<Reading>, f: nat)
    requires NonZero(rs) && NonZeroTimes(kind, offset, rs)
    requires Changes(kind, offset, rs, f) && forall i | 0 <= i < f :: !Changes(kind, offset, rs, i)
    ensures Sum(Deltas(kind, offset, UNSET, rs)) == RunAcc(kind, offset, UNSET, rs).prevvalue - rs[f].b
  {
    hide Bucket, Deltas, RunAcc, Sum, Unreported;
    SinceFirstChange(kind, offset, rs, f);
    ChangeKeeps(kind, offset, UNSET, rs, f);
    AllReported(kind, offset, RunAcc(kind, offset, UNSET, rs[..f + 1]), rs[f + 1..]);
  }

  // Up to and including the first change nothing is reported.
  lemma FirstChangeSilent(kind: Kind, offset: int, rs: seq<Reading>, f: nat)
    requires Changes(kind, offset, rs, f) && forall i | 0 <= i < f :: !Changes(kind, offset, rs, i)
    ensures Deltas(kind, offset, UNSET, rs[..f + 1]) == []
  {
    hide Bucket;
    var p := rs[..f];
    assert rs[..f + 1][..f] == p;
    assert forall i | 0 <= i < f :: Changes(kind, offset, p, i) == Changes(kind, offset, rs, i);
    Quiet(kind, offset, UNSET, p);
  }

  // ----- coarse and fine accumulators -----

  ghost predicate FinerThan(fine: Kind, coarse: Kind) {
    (fine == HOURLY && coarse != HOURLY) || (fine == DAILY && coarse == WEEKLY)
  }

  // The fine bucket determines the coarse one.
  lemma FineInCoarse(fine: Kind, coarse: Kind, t: int, offset: int)
    requires FinerThan(fine, coarse)
    ensures Bucket(coarse, Bucket(fine, t, offset), offset) == Bucket(coarse, t, offset)
  {
    hide HourOf, Midnight, WeekOf;
    if fine == HOURLY {
      HourInDay(t, offset);
      DayInWeek(t, offset);
      DayInWeek(HourOf(t, offset), offset);
    } else {
      DayInWeek(t, offset);
    }
  }

  // Every coarse bucket change is a fine one on the same reading.
  lemma CoarseChangeIsFine(fine: Kind, coarse: Kind, offset: int, rs: seq<Reading>, i: nat)
    requires FinerThan(fine, coarse) && Changes(coarse, offset, rs, i)
    ensures Changes(fine, offset, rs, i)
  {
    hide Bucket;
    FineInCoarse(fine, coarse, rs[i - 1].t, offset);
    FineInCoarse(fine, coarse, rs[i].t, offset);
  }

  // What an accumulator started afresh reports for the readings after i up to and including j.
  ghost function Between(kind: Kind, offset: int, rs: seq<Reading>, i: nat, j: nat): seq<Delta>
    requires i <= j < |rs|
  {
    Deltas(kind, offset, RunAcc(kind, offset, UNSET, rs[..i + 1]), rs[i + 1..j + 1])
  }

  // What it takes over without a report in the meantime.
  ghost function Silent(kind: Kind, offset: int, rs: seq<Reading>, i: nat, j: nat): real
    requires i <= j < |rs|
  {
    Unreported(kind, offset, RunAcc(kind, offset, UNSET, rs[..i + 1]), rs[i + 1..j + 1])
  }

  // Between any two of its changes an accumulator reports the consumption between them, less what
  // zero readings made it take over silently.
  lemma BetweenConserves(kind: Kind, offset: int, rs: seq<Reading>, i: nat, j: nat)
    requires i < j < |rs| && NonZeroTimes(kind, offset, rs)
    requires Changes(kind, offset, rs, i) && Changes(kind, offset, rs, j)
    ensures Sum(Between(kind, offset, rs, i, j)) + Silent(kind, offset, rs, i, j) == rs[j].b - rs[i].b
  {
    hide Bucket, Next, Report, TakenOver, Changes, NonZeroTimes, Sum, Deltas, Unreported;
    var p, q := rs[..i + 1], rs[i + 1..j + 1];
    assert p + q == rs[..j + 1];
    ChangeKeeps(kind, offset, UNSET, rs, i);
    ChangeKeeps(kind, offset, UNSET, rs, j);
    RunConcat(kind, offset, UNSET, p, q);
    Conservation(kind, offset, RunAcc(kind, offset, UNSET, p), q);
  }

  // Without zero readings nothing is taken over silently.
  lemma BetweenChanges(kind: Kind, offset: int, rs: seq<Reading>, i: nat, j: nat)
    requires i < j < |rs| && NonZero(rs) && NonZeroTimes(kind, offset, rs)
    requires Changes(kind, offset, rs, i) && Changes(kind, offset, rs, j)
    ensures Sum(Between(kind, offset, rs, i, j)) == rs[j].b - rs[i].b
  {
    BetweenConserves(kind, offset, rs, i, j);
    ChangeKeeps(kind, offset, UNSET, rs, i);
    hide Bucket, Next, Report, TakenOver, RunAcc, Sum, Deltas, Changes, NonZeroTimes, Unreported;
    AllReported(kind, offset, RunAcc(kind, offset, UNSET, rs[..i + 1]), rs[i + 1..j + 1]);
  }

  // Between two coarse changes the fine reports add up to the coarse ones exactly if the two
  // accumulators took over the same amount silently.
  lemma AgreementIff(fine: Kind, coarse: Kind, offset: int, rs: seq<Reading>, i: nat, j: nat)
    requires FinerThan(fine, coarse) && i < j < |rs|
    requires NonZeroTimes(fine, offset, rs) && NonZeroTimes(coarse, offset, rs)
    requires Changes(coarse, offset, rs, i) && Changes(coarse, offset, rs, j)
    ensures Sum(Between(fine, offset, rs, i, j)) == Sum(Between(coarse, offset, rs, i, j))
            <==> Silent(fine, offset, rs, i, j) == Silent(coarse, offset, rs, i, j)
  {
    hide Bucket, Between, Silent, Changes, NonZeroTimes;
    CoarseChangeIsFine(fine, coarse, offset, rs, i);
    CoarseChangeIsFine(fine, coarse, offset, rs, j);
    BetweenConserves(fine, offset, rs, i, j);
    BetweenConserves(coarse, offset, rs, i, j);
  }

  // A meter that starts counting at one o'clock: 23:00, midnight, 01:00 and midnight again.
  const FEED_IN: seq<Reading> :=
    [Reading(169200, 0.0), Reading(172800, 0.0), Reading(176400, 5.0), Reading(259200, 9.0)]

  // The hourly rows report 4 of the 9 that were fed in, the daily rows nothing.
  lemma ZeroDisagrees()
    ensures Changes(DAILY, 0, FEED_IN, 1) && Changes(DAILY, 0, FEED_IN, 3)
    ensures NonZeroTimes(HOURLY, 0, FEED_IN) && NonZeroTimes(DAILY, 0, FEED_IN)
    ensures Between(HOURLY, 0, FEED_IN, 1, 3) == [Delta(176400, 4.0)] && Silent(HOURLY, 0, FEED_IN, 1, 3) == 5.0
    ensures Between(DAILY, 0, FEED_IN, 1, 3) == [] && Silent(DAILY, 0, FEED_IN, 1, 3) == 9.0
  {
    hide Deltas, Unreported, RunAcc;
    FeedInBuckets();
    hide Bucket;
    var r := FEED_IN;
    assert r[2..4] == [r[2], r[3]];
    ChangeKeeps(HOURLY, 0, UNSET, r, 1);
    ChangeKeeps(DAILY, 0, UNSET, r, 1);
    TwoReadings(HOURLY, 0, Acc(172800, 0.0), r[2], r[3]);
    TwoReadings(DAILY, 0, Acc(172800, 0.0), r[2], r[3]);
  }

  lemma FeedInBuckets()
    ensures Bucket(HOURLY, 169200, 0) == 169200 && Bucket(HOURLY, 172800, 0) == 172800
    ensures Bucket(HOURLY, 176400, 0) == 176400 && Bucket(HOURLY, 259200, 0) == 259200
    ensures Bucket(DAILY, 169200, 0) == 86400 && Bucket(DAILY, 172800, 0) == 172800
    ensures Bucket(DAILY, 176400, 0) == 172800 && Bucket(DAILY, 259200, 0) == 259200
  {
    hide Bucket;
    HourIs(47);
    HourIs(48);
    HourIs(49);
    HourIs(72);
    DayIs(1, 82800);
    DayIs(2, 0);
    DayIs(2, 3600);
    DayIs(3, 0);
  }

  lemma HourIs(n: int)
    ensures Bucket(HOURLY, 3600 * n, 0) == 3600 * n
  {
    Parts(3600 * n, 3600, n, 0);
  }

  lemma DayIs(n: int, into: int)
    requires 0 <= into < 86400
    ensures Bucket(DAILY, 86400 * n + into, 0) == 86400 * n
  {
    Parts(86400 * n + into, 86400, n, into);
  }

  lemma TwoReadings(kind: Kind, offset: int, acc: Acc, r: Reading, q: Reading)
    ensures Deltas(kind, offset, acc, [r, q])
            == Report(kind, offset, acc, r) + Report(kind, offset, Next(kind, offset, acc, r), q)
    ensures Unreported(kind, offset, acc, [r, q])
            == TakenOver(kind, offset, acc, r) + TakenOver(kind, offset, Next(kind, offset, acc, r), q)
  {
    hide Report, Next, TakenOver;
    var a, b := [r], [r, q];
    assert a[..0] == [] && b[..1] == a;
    assert RunAcc(kind, offset, acc, a[..0]) == acc;
    assert RunAcc(kind, offset, acc, a) == Next(kind, offset, acc, r);
    assert Deltas(kind, offset, acc, a) == [] + Report(kind, offset, acc, r);
    assert Unreported(kind, offset, acc, a) == 0.0 + TakenOver(kind, offset, acc, r);
  }

  // Agreement: between two coarse changes the fine reports add up to the coarse reports, and
  // between two consecutive ones to the single coarse report made at the second.
  lemma Agreement(fine: Kind, coarse: Kind, offset: int, rs: seq<Reading>, i: nat, j: nat)
    requires FinerThan(fine, coarse) && i < j < |rs|
    requires NonZero(rs) && NonZeroTimes(fine, offset, rs) && NonZeroTimes(coarse, offset, rs)
    requires Changes(coarse, offset, rs, i) && Changes(coarse, offset, rs, j)
    ensures Sum(Between(fine, offset, rs, i, j)) == Sum(Between(coarse, offset, rs, i, j))
    ensures (forall k | i < k < j :: !Changes(coarse, offset, rs, k))
            ==> Between(coarse, offset, rs, i, j)
                == [Delta(Bucket(coarse, rs[j - 1].t, offset), Sum(Between(fine, offset, rs, i, j)))]
  {
    hide Bucket, Next, Report, TakenOver, Between;
    CoarseChangeIsFine(fine, coarse, offset, rs, i);
    CoarseChangeIsFine(fine, coarse, offset, rs, j);
    BetweenChanges(fine, offset, rs, i, j);
    BetweenChanges(coarse, offset, rs, i, j);
    if forall k | i < k < j :: !Changes(coarse, offset, rs, k) {
      SingleReport(coarse, offset, rs, i, j);
    }
  }

  // Between consecutive changes there is one report: the consumption, under the bucket that ends.
  lemma SingleReport(kind: Kind, offset: int, rs: seq<Reading>, i: nat, j: nat)
    requires i < j < |rs| && NonZero(rs) && NonZeroTimes(kind, offset, rs)
    requires Changes(kind, offset, rs, i) && Changes(kind, offset, rs, j)
    requires forall k | i < k < j :: !Changes(kind, offset, rs, k)
    ensures Between(kind, offset, rs, i, j)
            == [Delta(Bucket(kind, rs[j - 1].t, offset), rs[j].b - rs[i].b)]
  {
    hide Bucket, Deltas, RunAcc;
    var acc, q := RunAcc(kind, offset, UNSET, rs[..i + 1]), rs[i + 1..j];
    BetweenQuiet(kind, offset, rs, i, j);
    LastDelta(kind, offset, acc, q, rs[j]);
    assert rs[i + 1..j + 1] == q + [rs[j]];
    ReportOf(kind, offset, RunAcc(kind, offset, acc, q), rs[j]);
    hide Report;
  }

  lemma ReportOf(kind: Kind, offset: int, acc: Acc, r: Reading)
    requires acc.prevvalue != 0.0 && acc.prevtime != 0 && acc.prevtime != Bucket(kind, r.t, offset)
    ensures Report(kind, offset, acc, r) == [Delta(acc.prevtime, r.b - acc.prevvalue)]
  {
  }

  // From one change up to the reading before the next, nothing is reported.
  lemma BetweenQuiet(kind: Kind, offset: int, rs: seq<Reading>, i: nat, j: nat)
    requires i < j < |rs| && NonZeroTimes(kind, offset, rs)
    requires Changes(kind, offset, rs, i) && forall k | i < k < j :: !Changes(kind, offset, rs, k)
    ensures var acc, q := RunAcc(kind, offset, UNSET, rs[..i + 1]), rs[i + 1..j];
            && Deltas(kind, offset, acc, q) == []
            && RunAcc(kind, offset, acc, q) == Acc(Bucket(kind, rs[j - 1].t, offset), rs[i].b)
  {
    hide Bucket;
    var acc, q := RunAcc(kind, offset, UNSET, rs[..i + 1]), rs[i + 1..j];
    ChangeKeeps(kind, offset, UNSET, rs, i);
    assert forall k | 0 < k < |q| :: Changes(kind, offset, q, k) == Changes(kind, offset, rs, i + 1 + k);
    if q != [] {
      assert !Changes(kind, offset, rs, i + 1);
    }
    hide NonZeroTimes, Deltas;
    Quiet(kind, offset, acc, q);
    if q != [] {
      LastBucket(kind, offset, acc, q);
    }
  }

  lemma LastDelta(kind: Kind, offset: int, acc: Acc, q: seq<Reading>, r: Reading)
    ensures Deltas(kind, offset, acc, q + [r])
            == Deltas(kind, offset, acc, q) + Report(kind, offset, RunAcc(kind, offset, acc, q), r)
  {
    hide Bucket, Report, Next;
    assert (q + [r])[..|q|] == q;
  }

  // ----- one row per bucket -----

  ghost predicate InOrder(rs: seq<Reading>) {
    forall i, j | 0 <= i < j < |rs| :: rs[i].t <= rs[j].t
  }

  // With times that never go back, the reported bucket times strictly increase.
  lemma {:induction false} TimesIncrease(kind: Kind, offset: int, rs: seq<Reading>)
    requires InOrder(rs)
    ensures forall i, j | 0 <= i < j < |Deltas(kind, offset, UNSET, rs)| ::
              Deltas(kind, offset, UNSET, rs)[i].time < Deltas(kind, offset, UNSET, rs)[j].time
    ensures forall i | 0 <= i < |Deltas(kind, offset, UNSET, rs)| ::
              Deltas(kind, offset, UNSET, rs)[i].time < RunAcc(kind, offset, UNSET, rs).prevtime
    decreases |rs|
  {
    hide Bucket;
    if rs != [] {
      var p, r := rs[..|rs| - 1], rs[|rs| - 1];
      TimesIncrease(kind, offset, p);
      if p != [] {
        LastBucket(kind, offset, UNSET, p);
        BucketMonotone(kind, p[|p| - 1].t, r.t, offset);
      }
    }
  }

  // How often 2^32 fits below a time, counted from the least 32-bit integer.
  function Wraps(t: int): int {
    (t + 0x8000_0000) / 0x1_0000_0000
  }

  lemma Narrowed(a: int, b: int)
    requires a < b
    ensures Int32(a) == Int32(b) <==> (b - a) % 0x1_0000_0000 == 0
    ensures b - a < 0x1_0000_0000 ==> Int32(a) != Int32(b) && (Int32(a) < Int32(b) <==> Wraps(a) == Wraps(b))
  {
    var x, y := a + 0x8000_0000, b + 0x8000_0000;
    Difference(x, y);
  }

  lemma Difference(x: int, y: int)
    ensures x % 0x1_0000_0000 == y % 0x1_0000_0000 <==> (y - x) % 0x1_0000_0000 == 0
  {
  }

  // Two stored rows of one kind and name, among all the rows of a database in which a run left those,
  // come from two bucket times a < b.  Their times are the same exactly if 2^32 divides b - a, and
  // within 2^32 seconds they are in order exactly if no wrap of the 32 bits lies between a and b.
  lemma StoredTimes(kind: Kind, name: string, offset: int, rs: seq<Reading>, rows: seq<Row>, i: nat, j: nat)
    returns (k: nat, l: nat)
    requires InOrder(rs) && Kept(rows, kind, name) == RowsOf(kind, name, Deltas(kind, offset, UNSET, rs))
    requires i < j < |rows| && rows[i].kind == rows[j].kind == kind && rows[i].name == rows[j].name == name
    ensures k < |rs| && l < |rs|
    ensures var a, b := Bucket(kind, rs[k].t, offset), Bucket(kind, rs[l].t, offset);
            && a < b && rows[i].time == Int32(a) && rows[j].time == Int32(b)
            && (rows[i].time == rows[j].time <==> (b - a) % 0x1_0000_0000 == 0)
            && (b - a < 0x1_0000_0000 ==> (rows[i].time < rows[j].time <==> Wraps(a) == Wraps(b)))
  {
    hide Bucket, Deltas, Kept, Int32, Wraps;
    KeptPlace(rows, kind, name, i, j);
    KeptPlace(rows, kind, name, j, |rows|);
    TimesIncrease(kind, offset, rs);
    k := DeltaTime(kind, offset, rs, |Kept(rows[..i], kind, name)|);
    l := DeltaTime(kind, offset, rs, |Kept(rows[..j], kind, name)|);
    Narrowed(Bucket(kind, rs[k].t, offset), Bucket(kind, rs[l].t, offset));
  }

  // So no bucket has two rows in a run whose buckets span less than 2^32 seconds.
  lemma OneRowPerBucket(kind: Kind, name: string, offset: int, rs: seq<Reading>, rows: seq<Row>, i: nat, j: nat)
    requires InOrder(rs) && Kept(rows, kind, name) == RowsOf(kind, name, Deltas(kind, offset, UNSET, rs))
    requires rs != [] ==>
               Bucket(kind, rs[|rs| - 1].t, offset) - Bucket(kind, rs[0].t, offset) < 0x1_0000_0000
    requires i < j < |rows| && rows[i].kind == rows[j].kind == kind && rows[i].name == rows[j].name == name
    ensures rows[i].time != rows[j].time
  {
    hide Bucket, Deltas, Kept;
    var k, l := StoredTimes(kind, name, offset, rs, rows, i, j);
    BucketMonotone(kind, rs[0].t, rs[k].t, offset);
    BucketMonotone(kind, rs[l].t, rs[|rs| - 1].t, offset);
  }

  // And while no bucket lies behind a wrap, the stored times are in order.
  lemma RowsInOrder(kind: Kind, name: string, offset: int, rs: seq<Reading>, rows: seq<Row>, i: nat, j: nat)
    requires InOrder(rs) && Kept(rows, kind, name) == RowsOf(kind, name, Deltas(kind, offset, UNSET, rs))
    requires forall k, l | 0 <= k < |rs| && 0 <= l < |rs| ::
               Wraps(Bucket(kind, rs[k].t, offset)) == Wraps(Bucket(kind, rs[l].t, offset))
    requires i < j < |rows| && rows[i].kind == rows[j].kind == kind && rows[i].name == rows[j].name == name
    ensures rows[i].time < rows[j].time
  {
    hide Bucket, Deltas, Kept;
    var k, l := StoredTimes(kind, name, offset, rs, rows, i, j);
  }

  // 2038-01-19, 02:00, 03:00, 04:00 and 05:00 UTC.
  const NEAR_2038: seq<Reading> :=
    [Reading(2147479200, 1.0), Reading(2147482800, 2.0), Reading(2147486400, 4.0), Reading(2147490000, 8.0)]

  // The rows of two consecutive hours of that day are stored in the wrong order.
  lemma Year2038(name: string)
    ensures InOrder(NEAR_2038)
    ensures RowsOf(HOURLY, name, Deltas(HOURLY, 0, UNSET, NEAR_2038))
            == [Row(HOURLY, name, 2147482800, 2.0), Row(HOURLY, name, -2147480896, 4.0)]
  {
    Deltas2038();
    hide Deltas;
    assert Int32(2147482800) == 2147482800 && Int32(2147486400) == -2147480896;
  }

  lemma Deltas2038()
    ensures Deltas(HOURLY, 0, UNSET, NEAR_2038) == [Delta(2147482800, 2.0), Delta(2147486400, 4.0)]
  {
    hide Deltas, RunAcc;
    var r := NEAR_2038;
    assert r[..1] == [] + [r[0]] && r[..2] == r[..1] + [r[1]] && r[..3] == r[..2] + [r[2]] && r == r[..3] + [r[3]];
    NothingYet();
    HourStep(UNSET, [], r[0]);
    HourStep(UNSET, r[..1], r[1]);
    HourStep(UNSET, r[..2], r[2]);
    HourStep(UNSET, r[..3], r[3]);
  }

  lemma NothingYet()
    ensures RunAcc(HOURLY, 0, UNSET, []) == UNSET && Deltas(HOURLY, 0, UNSET, []) == []
  {
  }

  lemma HourStep(acc: Acc, q: seq<Reading>, r: Reading)
    requires r.t % 3600 == 0
    ensures var before := RunAcc(HOURLY, 0, acc, q);
            && RunAcc(HOURLY, 0, acc, q + [r])
               == Acc(r.t, if before.prevtime != 0 && before.prevtime != r.t then r.b else before.prevvalue)
            && Deltas(HOURLY, 0, acc, q + [r])
               == Deltas(HOURLY, 0, acc, q)
                  + (if before.prevtime != 0 && before.prevtime != r.t && before.prevvalue != 0.0
                     then [Delta(before.prevtime, r.b - before.prevvalue)] else [])
  {
    LastDelta(HOURLY, 0, acc, q, r);
    assert (q + [r])[..|q|] == q;
    hide Deltas;
  }

  lemma KeptOne(row: Row)
    ensures Kept([row], row.kind, row.name) == [row]
  {
    assert [row][..0] == [];
  }

  // Where a row stands among those of its kind and name.
  lemma KeptPlace(rows: seq<Row>, kind: Kind, name: string, i: nat, j: nat)
    requires i < j <= |rows| && rows[i].kind == kind && rows[i].name == name
    ensures var p := |Kept(rows[..i], kind, name)|;
            && p < |Kept(rows[..j], kind, name)| <= |Kept(rows, kind, name)|
            && Kept(rows, kind, name)[p] == rows[i]
  {
    hide Kept;
    var a, b := rows[..i], rows[i + 1..j];
    assert rows[..j] == a + [rows[i]] + b;
    assert rows == rows[..j] + rows[j..];
    KeptConcat(a, [rows[i]], kind, name);
    KeptConcat(a + [rows[i]], b, kind, name);
    KeptConcat(rows[..j], rows[j..], kind, name);
    KeptOne(rows[i]);
  }

  // Every reported time is the bucket of some reading.
  lemma {:induction false} DeltaTime(kind: Kind, offset: int, rs: seq<Reading>, i: nat) returns (k: nat)
    requires i < |Deltas(kind, offset, UNSET, rs)|
    ensures k < |rs| && Deltas(kind, offset, UNSET, rs)[i].time == Bucket(kind, rs[k].t, offset)
    decreases |rs|
  {
    hide Bucket;
    var p := rs[..|rs| - 1];
    if i < |Deltas(kind, offset, UNSET, p)| {
      k := DeltaTime(kind, offset, p, i);
    } else {
      k := |p| - 1;
      LastBucket(kind, offset, UNSET, p);
    }
  }
}
