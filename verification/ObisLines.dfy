// What one line of an accepted telegram does to the store, told from the text of the line and the
// table alone.
module ObisLines {
  import opened CStrings
  import opened Obis
  import opened Options
  import opened Telegram

  // ----- every reference of the table stands in it once -----

  function At(k: Key, i: nat): char {
    if i < |k| then k[i] else ' '
  }

  // 1, 2 or 3 for the phase whose quantities begin with this digit.
  function PhaseOf(c: char): nat {
    if c <= '3' then 0 else if c <= '5' then 1 else 2
  }

  function PhasePlace(k: Key): nat {
    if At(k, 4) == '3' || At(k, 4) == '5' || At(k, 4) == '7' then
      (if At(k, 5) == '2' then 21 else 24) + PhaseOf(At(k, 4))
    else
      (if At(k, 5) == '1' then 27 else 30) + (if At(k, 4) == '2' then 0 else if At(k, 4) == '4' then 1 else 2)
  }

  function DevicePlace(k: Key): nat {
    33 + 3 * (if At(k, 2) == '1' then 0 else if At(k, 2) == '2' then 1 else if At(k, 2) == '3' then 2 else 3)
    + (if At(k, 4) == '9' then 1 else if At(k, 7) == '1' then 0 else 2)
  }

  function LongPlace(k: Key): nat {
    if At(k, 0) == '0' then
      if At(k, 7) == '7' then 10 else if At(k, 8) == '4' then 7 else if At(k, 10) == '0' then 19 else 20
    else if At(k, 4) == '9' then 12
    else (if At(k, 8) == '2' then 13 else 16) + PhaseOf(At(k, 4))
  }

  function ShortPlace(k: Key): nat {
    if At(k, 0) == '0' then 1
    else if At(k, 2) == '3' then 0
    else if At(k, 6) == '7' then (if At(k, 4) == '1' then 8 else 9)
    else (if At(k, 4) == '1' then 3 else 5) + (if At(k, 8) == '1' then 0 else 1)
  }

  // The place of a reference in the table.
  function TablePlace(k: Key): nat {
    if |k| == 9 then ShortPlace(k)
    else if |k| == 11 then LongPlace(k)
    else if At(k, 0) == '1' then PhasePlace(k)
    else if At(k, 2) != '0' then DevicePlace(k)
    else if At(k, 7) == '7' then 11 else 2
  }

  // Digits, dots and a colon at its place, as in "1-0:1.8.1".
  predicate Referential(k: Key) {
    && 5 <= |k| < 12 && '0' <= k[0] <= '9' && k[1] == '-' && '0' <= k[2] <= '9' && k[3] == ':'
    && forall i | 4 <= i < |k| :: '0' <= k[i] <= '9' || k[i] == '.'
  }

  ghost predicate Placed(es: seq<Entry>, at: nat) {
    forall j | 0 <= j < |es| :: TablePlace(es[j].reference) == at + j
  }

  ghost predicate Shaped(es: seq<Entry>) {
    forall j | 0 <= j < |es| :: Referential(es[j].reference)
  }

  lemma GeneralPlaces()
    ensures Placed(GENERAL, 0)
  {
  }

  lemma GeneralShapes()
    ensures Shaped(GENERAL)
  {
  }

  lemma TotalPlaces()
    ensures Placed(TOTALS, 3)
  {
  }

  lemma TotalShapes()
    ensures Shaped(TOTALS)
  {
  }

  lemma PowerPlaces()
    ensures Placed(POWER, 7)
  {
  }

  lemma PowerShapes()
    ensures Shaped(POWER)
  {
  }

  lemma FailurePlaces()
    ensures Placed(FAILURES, 10)
  {
  }

  lemma FailureShapes()
    ensures Shaped(FAILURES)
  {
  }

  lemma SagPlaces()
    ensures Placed(SAGS, 13)
  {
  }

  lemma SagShapes()
    ensures Shaped(SAGS)
  {
  }

  lemma SwellPlaces()
    ensures Placed(SWELLS, 16)
  {
  }

  lemma SwellShapes()
    ensures Shaped(SWELLS)
  {
  }

  lemma MessagePlaces()
    ensures Placed(MESSAGES, 19)
  {
  }

  lemma MessageShapes()
    ensures Shaped(MESSAGES)
  {
  }

  lemma VoltagePlaces()
    ensures Placed(VOLTAGES, 21)
  {
  }

  lemma VoltageShapes()
    ensures Shaped(VOLTAGES)
  {
  }

  lemma CurrentPlaces()
    ensures Placed(CURRENTS, 24)
  {
  }

  lemma CurrentShapes()
    ensures Shaped(CURRENTS)
  {
  }

  lemma DeliveredPlaces()
    ensures Placed(DELIVERED, 27)
  {
  }

  lemma DeliveredShapes()
    ensures Shaped(DELIVERED)
  {
  }

  lemma ReceivedPlaces()
    ensures Placed(RECEIVED, 30)
  {
  }

  lemma ReceivedShapes()
    ensures Shaped(RECEIVED)
  {
  }

  lemma DevicePlaces(n: char)
    requires '1' <= n <= '4'
    ensures Placed(Device(n), 33 + 3 * (n as int - '1' as int)) && Shaped(Device(n))
  {
  }

  lemma MorePlaces(a: seq<Entry>, b: seq<Entry>, at: nat)
    requires Placed(a, at) && Placed(b, at + |a|) && Shaped(a) && Shaped(b)
    ensures Placed(a + b, at) && Shaped(a + b)
  {
    hide Referential, TablePlace;
    var s := a + b;
    assert forall j | 0 <= j < |s| :: s[j] == if j < |a| then a[j] else b[j - |a|];
  }

  lemma DevicesPlaces()
    ensures Placed(DEVICES, 33) && Shaped(DEVICES)
  {
    hide Placed, Shaped;
    DevicePlaces('1');
    DevicePlaces('2');
    DevicePlaces('3');
    DevicePlaces('4');
    MorePlaces(Device('1'), Device('2'), 33);
    MorePlaces(Device('1') + Device('2'), Device('3'), 33);
    MorePlaces(Device('1') + Device('2') + Device('3'), Device('4'), 33);
  }

  lemma Places()
    ensures Placed(TABLE, 0) && Shaped(TABLE)
  {
    hide Placed, Shaped, Device;
    GeneralPlaces();
    GeneralShapes();
    TotalPlaces();
    TotalShapes();
    PowerPlaces();
    PowerShapes();
    FailurePlaces();
    FailureShapes();
    SagPlaces();
    SagShapes();
    SwellPlaces();
    SwellShapes();
    MessagePlaces();
    MessageShapes();
    VoltagePlaces();
    VoltageShapes();
    CurrentPlaces();
    CurrentShapes();
    DeliveredPlaces();
    DeliveredShapes();
    ReceivedPlaces();
    ReceivedShapes();
    DevicesPlaces();
    MorePlaces(GENERAL, TOTALS, 0);
    var a := GENERAL + TOTALS;
    MorePlaces(a, POWER, 0);
    a := a + POWER;
    MorePlaces(a, FAILURES, 0);
    a := a + FAILURES;
    MorePlaces(a, SAGS, 0);
    a := a + SAGS;
    MorePlaces(a, SWELLS, 0);
    a := a + SWELLS;
    MorePlaces(a, MESSAGES, 0);
    a := a + MESSAGES;
    MorePlaces(a, VOLTAGES, 0);
    a := a + VOLTAGES;
    MorePlaces(a, CURRENTS, 0);
    a := a + CURRENTS;
    MorePlaces(a, DELIVERED, 0);
    a := a + DELIVERED;
    MorePlaces(a, RECEIVED, 0);
    a := a + RECEIVED;
    MorePlaces(a, DEVICES, 0);
    a := a + DEVICES;
    assert a == TABLE;
  }

  lemma {:induction false} FindOnly(k: Key, n: nat, m: nat)
    requires n <= m < |TABLE| && TABLE[m].reference == k
    requires forall j | n <= j < m :: TABLE[j].reference != k
    ensures Find(k, n) == Some(TABLE[m])
    decreases m - n
  {
    hide TABLE;
    if n < m {
      FindOnly(k, n + 1, m);
    }
  }

  // Every entry is found under its own reference.
  lemma FindAt(j: nat)
    requires j < |TABLE|
    ensures Find(TABLE[j].reference, 0) == Some(TABLE[j])
  {
    hide TABLE, TablePlace, Referential;
    Places();
    FindOnly(TABLE[j].reference, 0, j);
  }

  lemma {:induction false} FoundIn(k: Key, n: nat) returns (j: nat)
    requires n <= |TABLE| && Find(k, n).Some?
    ensures j < |TABLE| && TABLE[j].reference == k
    decreases |TABLE| - n
  {
    if TABLE[n].reference == k {
      j := n;
    } else {
      j := FoundIn(k, n + 1);
    }
  }

  // ----- one line -----

  function Bytes(s: string): Line {
    seq(|s|, i requires 0 <= i < |s| => ByteOf(s[i]))
  }

  function ByteOf(c: char): Byte {
    (c as int % 256) as Byte
  }

  lemma ByteBack(c: char)
    requires '-' <= c <= ':'
    ensures ByteOf(c) as char == c && ByteOf(c) != 0
    ensures '0' <= c <= '9' ==> Digit(ByteOf(c))
    ensures (c == '.' ==> ByteOf(c) == 46) && (c == '-' ==> ByteOf(c) == DASH) && (c == ':' ==> ByteOf(c) == COLON)
  {
    ByteNumber(c);
    hide ByteOf;
  }

  lemma ByteNumber(c: char)
    requires '-' <= c <= ':'
    ensures ByteOf(c) as int == c as int
  {
    assert c as int % 256 == c as int;
  }

  // What may follow a reference: nothing, or no digit, dot or backslash.
  predicate Ends(rest: Line) {
    rest == [] || !(48 <= rest[0] <= 57 || rest[0] == 46 || rest[0] == 92)
  }

  // What the entry's type makes of the text behind the reference, of which 255 characters are kept.
  function ValueMeant(decode: Decoder, e: Entry, rest: Line): Option<Value> {
    var text := if |rest| < 256 then rest else rest[..255];
    match e.kind
    case NULL => None
    case LSTRING => Some(StringValue(text))
    case _ => decode(e.kind, e.unit, text)
  }

  // A line that begins with a reference of the table sets just that key: to what is meant, or if that
  // is nothing, to what was there, or to a blank object.
  lemma LineStored(decode: Decoder, store: Store, j: nat, rest: Line)
    requires j < |TABLE| && 0 !in rest && Ends(rest)
    ensures var e := TABLE[j];
            var v := ValueMeant(decode, e, rest);
            UpdateRow(decode, store, Bytes(e.reference) + rest)
            == store[e.reference := if v.Some? then v.value
                                    else if e.reference in store then store[e.reference] else BLANK]
  {
    hide TABLE, TablePlace, Split, Find;
    var e := TABLE[j];
    var r := Bytes(e.reference);
    var l := r + rest;
    Places();
    FindAt(j);
    hide Placed;
    ReferenceSplit(e.reference, rest);
    TextIs(l, l, 0);
    hide Text, Referential;
    assert Chars(Field(r)) == e.reference;
    assert KeyOf(l) == Some(e.reference);
  }

  lemma ReferenceSplit(k: Key, rest: Line)
    requires Referential(k) && Ends(rest)
    ensures Split(Bytes(k) + rest) == Some((Bytes(k), rest))
    ensures 0 !in Bytes(k) && Chars(Field(Bytes(k))) == k
  {
    hide Split, ByteOf, Digit;
    var r := Bytes(k);
    forall i | 0 <= i < |k| ensures r[i] as char == k[i] && r[i] != 0 {
      ByteBack(k[i]);
    }
    ReferenceParts(k);
    NotOn(rest);
    SplitPrinted([r[0]], [r[2]], r[4..], rest);
    assert Chars(r) == k;
  }

  lemma NotOn(rest: Line)
    requires Ends(rest)
    ensures rest == [] || !DotDigit(rest[0])
  {
  }

  lemma ReferenceParts(k: Key)
    requires Referential(k)
    ensures var r := Bytes(k);
            && r == [r[0]] + [DASH] + [r[2]] + [COLON] + r[4..]
            && AllDigits([r[0]]) && AllDigits([r[2]]) && AllDots(r[4..])
  {
    hide ByteOf, Digit;
    var r := Bytes(k);
    forall i | 0 <= i < |k| && k[i] != '-' && k[i] != ':' ensures DotDigit(r[i]) {
      ByteBack(k[i]);
    }
    ByteBack(k[0]);
    ByteBack(k[1]);
    ByteBack(k[2]);
    ByteBack(k[3]);
    var c := r[4..];
    assert forall i | 0 <= i < |c| :: c[i] == r[4 + i];
  }

  // The line begins with this reference, as a whole.
  ghost predicate Begins(l: Line, k: Key) {
    Bytes(k) <= l && Ends(l[|k|..])
  }

  // No other line changes anything.
  lemma LineIgnored(decode: Decoder, store: Store, l: Line)
    requires forall j | 0 <= j < |TABLE| :: !Begins(CStr(l), TABLE[j].reference)
    ensures UpdateRow(decode, store, l) == store
  {
    hide TABLE, TablePlace, Find, Begins;
    if KeyOf(l).Some? {
      var t := CStr(l);
      var a, b, n := SplitSound(t);
      var k := KeyOf(l).value;
      var j := FoundIn(k, 0);
      Places();
      hide Split, Text;
      assert Referential(TABLE[j].reference);
      SoundBegins(t, n, k);
    }
  }

  lemma SoundBegins(t: Line, n: nat, k: Key)
    requires n <= |t| && k == Chars(Field(t[..n])) && Referential(k) && (n < |t| ==> !DotDigit(t[n]))
    ensures Begins(t, k)
  {
    hide ByteOf, DotDigit;
    var r := t[..n];
    assert Field(r) == r && |k| == n;
    forall i | 0 <= i < n ensures Bytes(k)[i] == r[i] {
      ByteBack(k[i]);
      assert r[i] as char == k[i];
      ByteSame(r[i], ByteOf(k[i]));
    }
    assert Bytes(k) == r;
    NotOnward(t, n);
  }

  lemma ByteSame(a: Byte, b: Byte)
    requires a as char == b as char
    ensures a == b
  {
    assert a as int == b as int;
  }

  lemma NotOnward(t: Line, n: nat)
    requires n <= |t| && (n < |t| ==> !DotDigit(t[n]))
    ensures Ends(t[n..])
  {
    assert n < |t| ==> t[n..][0] == t[n];
  }
}
