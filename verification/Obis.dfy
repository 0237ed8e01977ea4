// What dsmr_process does with the lines of an accepted telegram: the OBIS reference of each line,
// the table of known references, and the store of decoded values.
module Obis {
  import opened CStrings
  import opened Options
  import opened Telegram
  import opened TelegramChecks

  type Key = string

  datatype ObisType = NULL | DOUBLE | INTEGER | TIME | MIN5 | STRING | LSTRING

  datatype Entry = Entry(reference: Key, kind: ObisType, unit: string)

  // obis_map
  const GENERAL: seq<Entry> := [
    Entry("1-3:0.2.8", LSTRING, ""),
    Entry("0-0:1.0.0", TIME, ""),
    Entry("0-0:96.1.1", STRING, "")
  ]

  const TOTALS: seq<Entry> := [
    Entry("1-0:1.8.1", DOUBLE, "kWh"),
    Entry("1-0:1.8.2", DOUBLE, "kWh"),
    Entry("1-0:2.8.1", DOUBLE, "kWh"),
    Entry("1-0:2.8.2", DOUBLE, "kWh")
  ]

  const POWER: seq<Entry> := [
    Entry("0-0:96.14.0", INTEGER, ""),
    Entry("1-0:1.7.0", DOUBLE, "kW"),
    Entry("1-0:2.7.0", DOUBLE, "kW")
  ]

  const FAILURES: seq<Entry> := [
    Entry("0-0:96.7.21", INTEGER, ""),
    Entry("0-0:96.7.9", INTEGER, ""),
    Entry("1-0:99.97.0", NULL, "")
  ]

  const SAGS: seq<Entry> := [
    Entry("1-0:32.32.0", INTEGER, ""),
    Entry("1-0:52.32.0", INTEGER, ""),
    Entry("1-0:72.32.0", INTEGER, "")
  ]

  const SWELLS: seq<Entry> := [
    Entry("1-0:32.36.0", INTEGER, ""),
    Entry("1-0:52.36.0", INTEGER, ""),
    Entry("1-0:72.36.0", INTEGER, "")
  ]

  const MESSAGES: seq<Entry> := [
    Entry("0-0:96.13.0", STRING, ""),
    Entry("0-0:96.13.1", STRING, "")
  ]

  const VOLTAGES: seq<Entry> := [
    Entry("1-0:32.7.0", DOUBLE, "V"),
    Entry("1-0:52.7.0", DOUBLE, "V"),
    Entry("1-0:72.7.0", DOUBLE, "V")
  ]

  const CURRENTS: seq<Entry> := [
    Entry("1-0:31.7.0", DOUBLE, "A"),
    Entry("1-0:51.7.0", DOUBLE, "A"),
    Entry("1-0:71.7.0", DOUBLE, "A")
  ]

  const DELIVERED: seq<Entry> := [
    Entry("1-0:21.7.0", DOUBLE, "kW"),
    Entry("1-0:41.7.0", DOUBLE, "kW"),
    Entry("1-0:61.7.0", DOUBLE, "kW")
  ]

  const RECEIVED: seq<Entry> := [
    Entry("1-0:22.7.0", DOUBLE, "kW"),
    Entry("1-0:42.7.0", DOUBLE, "kW"),
    Entry("1-0:62.7.0", DOUBLE, "kW")
  ]

  // The entries of device n.
  function Device(n: char): seq<Entry> {
    [
      Entry("0-" + [n] + ":24.1.0", INTEGER, ""),
      Entry("0-" + [n] + ":96.1.0", STRING, ""),
      Entry("0-" + [n] + ":24.2.1", MIN5, "")
    ]
  }

  const DEVICES: seq<Entry> := Device('1') + Device('2') + Device('3') + Device('4')

  const TABLE: seq<Entry> :=
    GENERAL + TOTALS + POWER + FAILURES + SAGS + SWELLS + MESSAGES
    + VOLTAGES + CURRENTS + DELIVERED + RECEIVED + DEVICES

  datatype Value =
    | DoubleValue(d: real, unit: string)
    | IntegerValue(i: int)
    | TimeValue(t: int)
    | Min5Value(d: real, t: int, unit: string)
    | StringValue(text: Line)

  // A freshly allocated object.
  const BLANK := DoubleValue(0.0, "")

  // The value decoders, for the types that have one.
  type Decoder = (ObisType, string, Line) -> Option<Value>

  function Chars(l: Line): string {
    seq(|l|, i requires 0 <= i < |l| => l[i] as char)
  }

  // obis_reference and obis_value have 256 bytes.
  function Field(l: Line): Line {
    Clip(l, 256)
  }

  // ----- the line pattern: digits, a dash, digits, a colon, then digits, dots and backslashes -----

  predicate Digit(b: Byte) {
    48 <= b <= 57
  }

  predicate DotDigit(b: Byte) {
    Digit(b) || b == 46 || b == 92
  }

  function Leading(l: Line, dots: bool): (n: nat)
    ensures n <= |l| && forall i | 0 <= i < n :: if dots then DotDigit(l[i]) else Digit(l[i])
    ensures n < |l| ==> !(if dots then DotDigit(l[n]) else Digit(l[n]))
  {
    if l == [] || !(if dots then DotDigit(l[0]) else Digit(l[0])) then 0 else 1 + Leading(l[1..], dots)
  }

  const DASH: Byte := 45
  const COLON: Byte := 58

  // The reference and the rest of a line, when the pattern matches.
  function Split(l: Line): Option<(Line, Line)> {
    var i := Leading(l, false);
    if i == |l| || l[i] != DASH then None
    else
      var j := i + 1 + Leading(l[i + 1..], false);
      if j == |l| || l[j] != COLON then None
      else
        var k := j + 1 + Leading(l[j + 1..], true);
        Some((l[..k], l[k..]))
  }

  ghost predicate AllDigits(l: Line) {
    forall i | 0 <= i < |l| :: Digit(l[i])
  }

  ghost predicate AllDots(l: Line) {
    forall i | 0 <= i < |l| :: DotDigit(l[i])
  }

  lemma {:induction false} LeadingOf(a: Line, b: Line, dots: bool)
    requires if dots then AllDots(a) else AllDigits(a)
    requires b == [] || !(if dots then DotDigit(b[0]) else Digit(b[0]))
    ensures Leading(a + b, dots) == |a|
  {
    if a == [] {
      assert a + b == b;
    } else {
      assert (a + b)[1..] == a[1..] + b;
      LeadingOf(a[1..], b, dots);
    }
  }

  lemma SplitAt(l: Line, i: nat, j: nat, k: nat)
    requires i < j < k <= |l| && l[i] == DASH && l[j] == COLON
    requires i == Leading(l, false) && j == i + 1 + Leading(l[i + 1..], false)
    requires k == j + 1 + Leading(l[j + 1..], true)
    ensures Split(l) == Some((l[..k], l[k..]))
  {
    hide Leading, Digit, DotDigit;
    var r, rest := l[..k], l[k..];
    assert Split(l).Some?;
    assert Split(l).value.0 == r && Split(l).value.1 == rest;
  }

  // A line made of a reference and a rest that does not go on with it splits into the two.
  lemma SplitPrinted(a: Line, b: Line, c: Line, rest: Line)
    requires AllDigits(a) && AllDigits(b) && AllDots(c) && (rest == [] || !DotDigit(rest[0]))
    ensures var r := a + [DASH] + b + [COLON] + c;
            Split(r + rest) == Some((r, rest))
  {
    hide Leading, Split;
    var t3 := c + rest;
    var t2 := b + ([COLON] + t3);
    LeadingOf(a, [DASH] + t2, false);
    LeadingOf(b, [COLON] + t3, false);
    LeadingOf(c, rest, true);
    hide Digit, DotDigit, AllDigits, AllDots;
    var r := a + [DASH] + b + [COLON] + c;
    var l := r + rest;
    PrintedParts(a, b, c, rest, l);
    AroundMark(a, DASH, t2);
    AroundMark(a + [DASH] + b, COLON, t3);
    SplitAt(l, |a|, |a| + 1 + |b|, |r|);
  }

  lemma PrintedParts(a: Line, b: Line, c: Line, rest: Line, l: Line)
    requires l == a + [DASH] + b + [COLON] + c + rest
    ensures l == a + ([DASH] + (b + ([COLON] + (c + rest))))
    ensures l == a + [DASH] + b + ([COLON] + (c + rest))
    ensures var r := a + [DASH] + b + [COLON] + c;
            |r| <= |l| && l[..|r|] == r && l[|r|..] == rest
  {
    var ab := a + [DASH] + b;
    assert ab + [COLON] + c + rest == ab + ([COLON] + (c + rest));
    assert ab + ([COLON] + (c + rest)) == a + ([DASH] + (b + ([COLON] + (c + rest))));
  }

  lemma AroundMark(a: Line, x: Byte, b: Line)
    ensures (a + ([x] + b))[|a|] == x && (a + ([x] + b))[|a| + 1..] == b
  {
  }

  // And every line that splits is such a line.
  lemma SplitSound(l: Line) returns (i: nat, j: nat, k: nat)
    requires Split(l).Some?
    ensures i < j < k <= |l| && l[i] == DASH && l[j] == COLON
    ensures (forall x | 0 <= x < i :: Digit(l[x])) && (forall x | i < x < j :: Digit(l[x]))
    ensures (forall x | j < x < k :: DotDigit(l[x])) && (k < |l| ==> !DotDigit(l[k]))
    ensures Split(l) == Some((l[..k], l[k..]))
  {
    hide Leading, Digit, DotDigit;
    i := Leading(l, false);
    LeadingFrom(l, 0, false);
    assert l[0..] == l;
    j := i + 1 + Leading(l[i + 1..], false);
    LeadingFrom(l, i + 1, false);
    k := j + 1 + Leading(l[j + 1..], true);
    LeadingFrom(l, j + 1, true);
  }

  lemma LeadingFrom(l: Line, i: nat, dots: bool)
    requires i <= |l|
    ensures var n := i + Leading(l[i..], dots);
            && n <= |l|
            && (forall x | i <= x < n :: if dots then DotDigit(l[x]) else Digit(l[x]))
            && (n < |l| ==> !(if dots then DotDigit(l[n]) else Digit(l[n])))
  {
    var p := l[i..];
    var n := Leading(p, dots);
    hide Leading, Digit, DotDigit;
    assert forall x | i <= x < i + n :: l[x] == p[x - i];
    assert i + n < |l| ==> l[i + n] == p[n];
  }

  // ----- the table and the store -----

  function Find(k: Key, n: nat): Option<Entry>
    requires n <= |TABLE|
    decreases |TABLE| - n
  {
    if n == |TABLE| then None
    else if TABLE[n].reference == k then Some(TABLE[n])
    else Find(k, n + 1)
  }

  predicate Known(k: Key) {
    Find(k, 0).Some?
  }

  type Store = map<Key, Value>

  // The known reference of a line, as the store's key.
  function KeyOf(row: Line): Option<Key> {
    match Split(CStr(row))
    case None => None
    case Some((r, _)) =>
      var k := Chars(Field(r));
      if Known(k) then Some(k) else None
  }

  // The decoded value of a line with a known reference, when its decoding succeeds.
  function ValueOf(decode: Decoder, row: Line): Option<Value>
    requires KeyOf(row).Some?
  {
    var text := Field(Split(CStr(row)).value.1);
    var e := Find(KeyOf(row).value, 0).value;
    match e.kind
    case NULL => None
    case LSTRING => Some(StringValue(text))
    case _ => decode(e.kind, e.unit, text)
  }

  function UpdateRow(decode: Decoder, store: Store, row: Line): Store {
    match KeyOf(row)
    case None => store
    case Some(k) =>
      var before := if k in store then store[k] else BLANK;
      store[k := match ValueOf(decode, row) case Some(v) => v case None => before]
  }

  // Only the part of a row that C sees as a string matters.
  lemma RowAsText(decode: Decoder, store: Store, row: Line)
    ensures UpdateRow(decode, store, CStr(row)) == UpdateRow(decode, store, row)
  {
    hide Split, Find, Known, CStr, Clip, Chars;
    CStrTwice(row);
  }

  lemma CStrTwice(row: Line)
    ensures CStr(CStr(row)) == CStr(row)
  {
    TextIs(CStr(row), CStr(row), 0);
  }

  function UpdateRows(decode: Decoder, store: Store, rows: seq<Line>): Store {
    if rows == [] then store
    else UpdateRow(decode, UpdateRows(decode, store, rows[..|rows| - 1]), rows[|rows| - 1])
  }

  // ----- what a run leaves in the store -----

  // The value of the last line with this key that decodes.
  function LastValue(decode: Decoder, rows: seq<Line>, k: Key): Option<Value> {
    if rows == [] then None
    else
      var row := rows[|rows| - 1];
      if KeyOf(row) == Some(k) && ValueOf(decode, row).Some? then ValueOf(decode, row)
      else LastValue(decode, rows[..|rows| - 1], k)
  }

  ghost predicate Occurs(rows: seq<Line>, k: Key) {
    exists i | 0 <= i < |rows| :: KeyOf(rows[i]) == Some(k)
  }

  function Latest(last: Option<Value>, store: Store, k: Key): Value {
    match last
    case Some(v) => v
    case None => if k in store then store[k] else BLANK
  }

  // The keys are the old ones and the known references of the lines; each value is the last one
  // that decoded, or the old one, or blank: later lines win, and a failed decoding changes nothing.
  lemma {:induction false} StoreContents(decode: Decoder, store: Store, rows: seq<Line>, k: Key)
    ensures var after := UpdateRows(decode, store, rows);
            && (k in after <==> k in store || Occurs(rows, k))
            && (k in after ==> after[k] == Latest(LastValue(decode, rows, k), store, k))
    ensures LastValue(decode, rows, k).Some? ==> Occurs(rows, k)
    decreases |rows|
  {
    hide KeyOf;
    hide ValueOf;
    if rows != [] {
      var n := |rows| - 1;
      var p, row := rows[..n], rows[n];
      StoreContents(decode, store, p, k);
      assert Occurs(rows, k) <==> Occurs(p, k) || KeyOf(row) == Some(k) by {
        if Occurs(p, k) {
          var i :| 0 <= i < |p| && KeyOf(p[i]) == Some(k);
          assert rows[i] == p[i];
        }
        if KeyOf(row) == Some(k) {
          assert rows[n] == row;
        }
        if Occurs(rows, k) {
          var i :| 0 <= i < |rows| && KeyOf(rows[i]) == Some(k);
          assert i < n ==> p[i] == rows[i];
        }
      }
    }
  }

  lemma {:induction false} StoreKnown(decode: Decoder, store: Store, rows: seq<Line>)
    requires forall k | k in store :: Known(k)
    ensures forall k | k in UpdateRows(decode, store, rows) :: Known(k)
    decreases |rows|
  {
    if rows != [] {
      StoreKnown(decode, store, rows[..|rows| - 1]);
      KeyKnown(rows[|rows| - 1]);
      hide KeyOf;
      hide ValueOf;
      hide Known;
    }
  }

  lemma KeyKnown(row: Line)
    ensures KeyOf(row).Some? ==> Known(KeyOf(row).value)
  {
  }

  lemma {:induction false} UpdateRowsConcat(decode: Decoder, store: Store, a: seq<Line>, b: seq<Line>)
    ensures UpdateRows(decode, store, a + b) == UpdateRows(decode, UpdateRows(decode, store, a), b)
    decreases |b|
  {
    hide UpdateRow;
    if b == [] {
      assert a + b == a;
    } else {
      UpdateRowsConcat(decode, store, a, b[..|b| - 1]);
      assert (a + b)[..|a + b| - 1] == a + b[..|b| - 1];
    }
  }

  // ----- a log of records -----

  // The lines of the records that pass the gate; `lucky` answers for the nth record.
  function AcceptedRows(log: seq<Record>, ignoreCrc: bool, lucky: nat -> bool, n: nat): seq<Line> {
    if log == [] then []
    else (if Accept(log[0], ignoreCrc, lucky(n)) then log[0].rows else [])
         + AcceptedRows(log[1..], ignoreCrc, lucky, n + 1)
  }

  function AcceptedCount(log: seq<Record>, ignoreCrc: bool, lucky: nat -> bool, n: nat): nat {
    if log == [] then 0
    else (if Accept(log[0], ignoreCrc, lucky(n)) then 1 else 0) + AcceptedCount(log[1..], ignoreCrc, lucky, n + 1)
  }

  // The store after a log, and what the callback is shown, record by record.
  function Outcome(decode: Decoder, ignoreCrc: bool, lucky: nat -> bool, store: Store,
                   log: seq<Record>, n: nat): (Store, seq<Store>)
    decreases |log|
  {
    if log == [] then (store, [])
    else if Accept(log[0], ignoreCrc, lucky(n)) then
      var after := UpdateRows(decode, store, log[0].rows);
      var (last, shown) := Outcome(decode, ignoreCrc, lucky, after, log[1..], n + 1);
      (last, [after] + shown)
    else Outcome(decode, ignoreCrc, lucky, store, log[1..], n + 1)
  }

  lemma OutcomeOne(decode: Decoder, ignoreCrc: bool, lucky: nat -> bool, store: Store, r: Record, n: nat)
    ensures Outcome(decode, ignoreCrc, lucky, store, [r], n) ==
            if Accept(r, ignoreCrc, lucky(n)) then
              var after := UpdateRows(decode, store, r.rows);
              (after, [after])
            else (store, [])
  {
    hide Accept;
    hide UpdateRows;
    assert [r][1..] == [];
    var after := UpdateRows(decode, store, r.rows);
    assert [after] + [] == [after];
    assert Outcome(decode, ignoreCrc, lucky, after, [r][1..], n + 1) == (after, []);
  }

  lemma {:induction false} OutcomeConcat(decode: Decoder, ignoreCrc: bool, lucky: nat -> bool, store: Store,
                                          a: seq<Record>, b: seq<Record>, n: nat)
    ensures var (s1, p1) := Outcome(decode, ignoreCrc, lucky, store, a, n);
            var (s2, p2) := Outcome(decode, ignoreCrc, lucky, s1, b, n + |a|);
            Outcome(decode, ignoreCrc, lucky, store, a + b, n) == (s2, p1 + p2)
    decreases |a|
  {
    hide Accept;
    hide UpdateRows;
    if a == [] {
      assert a + b == b;
      var (s2, p2) := Outcome(decode, ignoreCrc, lucky, store, b, n);
      assert [] + p2 == p2;
    } else {
      var s := if Accept(a[0], ignoreCrc, lucky(n)) then UpdateRows(decode, store, a[0].rows) else store;
      OutcomeConcat(decode, ignoreCrc, lucky, s, a[1..], b, n + 1);
      assert (a + b)[1..] == a[1..] + b;
      var (s1, p1) := Outcome(decode, ignoreCrc, lucky, s, a[1..], n + 1);
      var (s2, p2) := Outcome(decode, ignoreCrc, lucky, s1, b, n + |a|);
      assert n + 1 + |a[1..]| == n + |a|;
      assert Outcome(decode, ignoreCrc, lucky, s, (a + b)[1..], n + 1) == (s2, p1 + p2);
      assert [s] + (p1 + p2) == ([s] + p1) + p2;
    }
  }

  // The store is the accepted lines in order, and the callback runs once for each accepted record.
  lemma {:induction false} OutcomeRows(decode: Decoder, ignoreCrc: bool, lucky: nat -> bool, store: Store,
                                        log: seq<Record>, n: nat)
    ensures var (last, shown) := Outcome(decode, ignoreCrc, lucky, store, log, n);
            && last == UpdateRows(decode, store, AcceptedRows(log, ignoreCrc, lucky, n))
            && |shown| == AcceptedCount(log, ignoreCrc, lucky, n)
    decreases |log|
  {
    hide Accept;
    if log != [] {
      var ok := Accept(log[0], ignoreCrc, lucky(n));
      var rows := if ok then log[0].rows else [];
      var s := UpdateRows(decode, store, rows);
      OutcomeRows(decode, ignoreCrc, lucky, s, log[1..], n + 1);
      UpdateRowsConcat(decode, store, rows, AcceptedRows(log[1..], ignoreCrc, lucky, n + 1));
      hide UpdateRow;
    }
  }
}
