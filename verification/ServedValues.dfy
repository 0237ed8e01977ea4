// What GET on each uri serves: which stored value, and in which type and unit the meter sends it.
module ServedValues {
  import opened Options
  import opened Routing
  import Obis
  import ObisLines

  // A GET of the uri is answered by this callback with this reference, which the table of the
  // decoder knows with this type and unit.
  ghost predicate Serves(uri: string, callback: string, reference: string, kind: Obis.ObisType, unit: string) {
    && Searched(RESOURCE_TABLE, GET_FILE, uri, "GET") == Answer.Served(Target(callback, reference))
    && Obis.Find(reference, 0) == Some(Obis.Entry(reference, kind, unit))
  }

  lemma EntryServes(uri: string, callback: string, e: Obis.Entry)
    requires Get(uri, callback, e.reference) in RESOURCE_TABLE && e in Obis.TABLE
    ensures Serves(uri, callback, e.reference, e.kind, e.unit)
  {
    hide RESOURCE_TABLE, Obis.TABLE;
    var r := Get(uri, callback, e.reference);
    var j :| 0 <= j < |RESOURCE_TABLE| && RESOURCE_TABLE[j] == r;
    var k :| 0 <= k < |Obis.TABLE| && Obis.TABLE[k] == e;
    TableAnswers(uri, "GET");
    ObisLines.FindAt(k);
  }

  // An entry of the electricity meter.
  lemma MeterServes(tail: string, e: Obis.Entry)
    requires MeterGet(tail, e.reference) in RESOURCE_TABLE && e in Obis.TABLE
    ensures Serves("/api/devices/0/" + tail, "http_get_obis", e.reference, e.kind, e.unit)
  {
    hide RESOURCE_TABLE, Obis.TABLE, Serves;
    EntryServes("/api/devices/0/" + tail, "http_get_obis", e);
  }

  // ----- the two tariffs, t for '1' or '2' -----

  lemma TariffsServed(t: char)
    requires t == '1' || t == '2'
    ensures Serves("/api/devices/0/" + ("tariffs/" + [t] + "/" + "delivered"), "http_get_obis",
                   "1-0:1.8." + [t], Obis.DOUBLE, "kWh")
    ensures Serves("/api/devices/0/" + ("tariffs/" + [t] + "/" + "received"), "http_get_obis",
                   "1-0:2.8." + [t], Obis.DOUBLE, "kWh")
  {
    var d, r := "1-0:1.8." + [t], "1-0:2.8." + [t];
    assert d == if t == '1' then "1-0:1.8.1" else "1-0:1.8.2";
    assert r == if t == '1' then "1-0:2.8.1" else "1-0:2.8.2";
    TariffEntries(t, d, r);
    hide RESOURCE_TABLE, Obis.TABLE, Serves;
    MeterServes("tariffs/" + [t] + "/" + "delivered", Obis.Entry(d, Obis.DOUBLE, "kWh"));
    MeterServes("tariffs/" + [t] + "/" + "received", Obis.Entry(r, Obis.DOUBLE, "kWh"));
  }

  lemma TariffEntries(t: char, d: string, r: string)
    requires t == '1' || t == '2'
    requires d == (if t == '1' then "1-0:1.8.1" else "1-0:1.8.2") && r == if t == '1' then "1-0:2.8.1" else "1-0:2.8.2"
    ensures MeterGet("tariffs/" + [t] + "/" + "delivered", d) in RESOURCE_TABLE
    ensures MeterGet("tariffs/" + [t] + "/" + "received", r) in RESOURCE_TABLE
    ensures Obis.Entry(d, Obis.DOUBLE, "kWh") in Obis.TABLE && Obis.Entry(r, Obis.DOUBLE, "kWh") in Obis.TABLE
  {
    BothHolds("delivered", "1-0:1.8.1", "1-0:1.8.2", t);
    BothHolds("received", "1-0:2.8.1", "1-0:2.8.2", t);
    assert Obis.Entry(d, Obis.DOUBLE, "kWh") == Obis.TOTALS[if t == '1' then 0 else 1];
    assert Obis.Entry(r, Obis.DOUBLE, "kWh") == Obis.TOTALS[if t == '1' then 2 else 3];
    hide Both, MeterGet, Three, Device;
  }

  lemma BothHolds(tail: string, d: string, e: string, t: char)
    requires t == '1' || t == '2'
    ensures MeterGet("tariffs/" + [t] + "/" + tail, if t == '1' then d else e) in Both(tail, d, e)
  {
    var s := Both(tail, d, e);
    assert s[0] == MeterGet("tariffs/" + ['1'] + "/" + tail, d);
    assert s[1] == MeterGet("tariffs/" + ['2'] + "/" + tail, e);
  }

  // ----- the three phases, n for '1' to '3' -----

  // The digit of twice the phase, or of one more.
  function Twice(n: char, more: nat): char
    requires '1' <= n <= '3' && more <= 1
  {
    (2 * (n as int - '0' as int) + more + '0' as int) as char
  }

  function PhaseReference(n: char, more: nat, tail: string): string
    requires '1' <= n <= '3' && more <= 1
  {
    "1-0:" + [Twice(n, more)] + tail
  }

  // Powers under twice the phase, currents, voltages and their disturbances under one more.
  lemma PhasesServed(n: char)
    requires '1' <= n <= '3'
    ensures PhaseServes(n, "power_delivered", 0, "1.7.0", Obis.DOUBLE, "kW")
    ensures PhaseServes(n, "power_received", 0, "2.7.0", Obis.DOUBLE, "kW")
    ensures PhaseServes(n, "current", 1, "1.7.0", Obis.DOUBLE, "A")
    ensures PhaseServes(n, "voltage", 1, "2.7.0", Obis.DOUBLE, "V")
    ensures PhaseServes(n, "nof_voltage_sage", 1, "2.32.0", Obis.INTEGER, "")
    ensures PhaseServes(n, "nof_voltage_swells", 1, "2.36.0", Obis.INTEGER, "")
  {
    hide PhaseServes;
    DeliveredServed(n);
    ReceivedServed(n);
    CurrentServed(n);
    VoltageServed(n);
    SagsServed(n);
    SwellsServed(n);
  }

  ghost predicate PhaseServes(n: char, tail: string, more: nat, reference: string, kind: Obis.ObisType, unit: string)
    requires '1' <= n <= '3' && more <= 1
  {
    Serves("/api/devices/0/" + ("phases/" + [n] + "/" + tail), "http_get_obis", PhaseReference(n, more, reference),
           kind, unit)
  }

  lemma PhaseServed(n: char, tail: string, more: nat, reference: string, kind: Obis.ObisType, unit: string,
                    d: string, e: string, f: string)
    requires '1' <= n <= '3' && more <= 1
    requires d == PhaseReference('1', more, reference) && e == PhaseReference('2', more, reference)
    requires f == PhaseReference('3', more, reference)
    requires forall r | r in Three(tail, d, e, f) :: r in RESOURCE_TABLE
    requires Obis.Entry(d, kind, unit) in Obis.TABLE && Obis.Entry(e, kind, unit) in Obis.TABLE
    requires Obis.Entry(f, kind, unit) in Obis.TABLE
    ensures PhaseServes(n, tail, more, reference, kind, unit)
  {
    hide RESOURCE_TABLE, Obis.TABLE, Serves, PhaseReference;
    var s := Three(tail, d, e, f);
    assert s[0] in s && s[1] in s && s[2] in s;
    var g := PhaseReference(n, more, reference);
    assert MeterGet(Phase(n, tail), g) in s;
    MeterServes(Phase(n, tail), Obis.Entry(g, kind, unit));
  }

  // The parts of the two tables that are about phases.
  lemma InPhases(part: seq<Registration>, entries: seq<Obis.Entry>)
    requires part == Three("power_delivered", "1-0:21.7.0", "1-0:41.7.0", "1-0:61.7.0")
             || part == Three("power_received", "1-0:22.7.0", "1-0:42.7.0", "1-0:62.7.0")
             || part == Three("current", "1-0:31.7.0", "1-0:51.7.0", "1-0:71.7.0")
             || part == Three("voltage", "1-0:32.7.0", "1-0:52.7.0", "1-0:72.7.0")
             || part == Three("nof_voltage_sage", "1-0:32.32.0", "1-0:52.32.0", "1-0:72.32.0")
             || part == Three("nof_voltage_swells", "1-0:32.36.0", "1-0:52.36.0", "1-0:72.36.0")
    requires entries == Obis.DELIVERED || entries == Obis.RECEIVED || entries == Obis.CURRENTS
             || entries == Obis.VOLTAGES || entries == Obis.SAGS || entries == Obis.SWELLS
    ensures forall r | r in part :: r in RESOURCE_TABLE
    ensures forall e | e in entries :: e in Obis.TABLE
  {
    hide Three, Device, Obis.Device;
  }

  lemma DeliveredServed(n: char)
    requires '1' <= n <= '3'
    ensures PhaseServes(n, "power_delivered", 0, "1.7.0", Obis.DOUBLE, "kW")
  {
    var d, e, f := "1-0:21.7.0", "1-0:41.7.0", "1-0:61.7.0";
    assert d == PhaseReference('1', 0, "1.7.0") && e == PhaseReference('2', 0, "1.7.0");
    assert f == PhaseReference('3', 0, "1.7.0");
    InPhases(Three("power_delivered", d, e, f), Obis.DELIVERED);
    assert Obis.DELIVERED[0] == Obis.Entry(d, Obis.DOUBLE, "kW");
    assert Obis.DELIVERED[1] == Obis.Entry(e, Obis.DOUBLE, "kW");
    assert Obis.DELIVERED[2] == Obis.Entry(f, Obis.DOUBLE, "kW");
    hide PhaseReference, PhaseServes, Three, RESOURCE_TABLE, Obis.TABLE, Obis.DELIVERED;
    PhaseServed(n, "power_delivered", 0, "1.7.0", Obis.DOUBLE, "kW", d, e, f);
  }

  lemma ReceivedServed(n: char)
    requires '1' <= n <= '3'
    ensures PhaseServes(n, "power_received", 0, "2.7.0", Obis.DOUBLE, "kW")
  {
    var d, e, f := "1-0:22.7.0", "1-0:42.7.0", "1-0:62.7.0";
    assert d == PhaseReference('1', 0, "2.7.0") && e == PhaseReference('2', 0, "2.7.0");
    assert f == PhaseReference('3', 0, "2.7.0");
    InPhases(Three("power_received", d, e, f), Obis.RECEIVED);
    assert Obis.RECEIVED[0] == Obis.Entry(d, Obis.DOUBLE, "kW");
    assert Obis.RECEIVED[1] == Obis.Entry(e, Obis.DOUBLE, "kW");
    assert Obis.RECEIVED[2] == Obis.Entry(f, Obis.DOUBLE, "kW");
    hide PhaseReference, PhaseServes, Three, RESOURCE_TABLE, Obis.TABLE, Obis.RECEIVED;
    PhaseServed(n, "power_received", 0, "2.7.0", Obis.DOUBLE, "kW", d, e, f);
  }

  lemma CurrentServed(n: char)
    requires '1' <= n <= '3'
    ensures PhaseServes(n, "current", 1, "1.7.0", Obis.DOUBLE, "A")
  {
    var d, e, f := "1-0:31.7.0", "1-0:51.7.0", "1-0:71.7.0";
    assert d == PhaseReference('1', 1, "1.7.0") && e == PhaseReference('2', 1, "1.7.0");
    assert f == PhaseReference('3', 1, "1.7.0");
    InPhases(Three("current", d, e, f), Obis.CURRENTS);
    assert Obis.CURRENTS[0] == Obis.Entry(d, Obis.DOUBLE, "A");
    assert Obis.CURRENTS[1] == Obis.Entry(e, Obis.DOUBLE, "A");
    assert Obis.CURRENTS[2] == Obis.Entry(f, Obis.DOUBLE, "A");
    hide PhaseReference, PhaseServes, Three, RESOURCE_TABLE, Obis.TABLE, Obis.CURRENTS;
    PhaseServed(n, "current", 1, "1.7.0", Obis.DOUBLE, "A", d, e, f);
  }

  lemma VoltageServed(n: char)
    requires '1' <= n <= '3'
    ensures PhaseServes(n, "voltage", 1, "2.7.0", Obis.DOUBLE, "V")
  {
    var d, e, f := "1-0:32.7.0", "1-0:52.7.0", "1-0:72.7.0";
    assert d == PhaseReference('1', 1, "2.7.0") && e == PhaseReference('2', 1, "2.7.0");
    assert f == PhaseReference('3', 1, "2.7.0");
    InPhases(Three("voltage", d, e, f), Obis.VOLTAGES);
    assert Obis.VOLTAGES[0] == Obis.Entry(d, Obis.DOUBLE, "V");
    assert Obis.VOLTAGES[1] == Obis.Entry(e, Obis.DOUBLE, "V");
    assert Obis.VOLTAGES[2] == Obis.Entry(f, Obis.DOUBLE, "V");
    hide PhaseReference, PhaseServes, Three, RESOURCE_TABLE, Obis.TABLE, Obis.VOLTAGES;
    PhaseServed(n, "voltage", 1, "2.7.0", Obis.DOUBLE, "V", d, e, f);
  }

  lemma SagsServed(n: char)
    requires '1' <= n <= '3'
    ensures PhaseServes(n, "nof_voltage_sage", 1, "2.32.0", Obis.INTEGER, "")
  {
    var d, e, f := "1-0:32.32.0", "1-0:52.32.0", "1-0:72.32.0";
    assert d == PhaseReference('1', 1, "2.32.0") && e == PhaseReference('2', 1, "2.32.0");
    assert f == PhaseReference('3', 1, "2.32.0");
    InPhases(Three("nof_voltage_sage", d, e, f), Obis.SAGS);
    assert Obis.SAGS[0] == Obis.Entry(d, Obis.INTEGER, "");
    assert Obis.SAGS[1] == Obis.Entry(e, Obis.INTEGER, "");
    assert Obis.SAGS[2] == Obis.Entry(f, Obis.INTEGER, "");
    hide PhaseReference, PhaseServes, Three, RESOURCE_TABLE, Obis.TABLE, Obis.SAGS;
    PhaseServed(n, "nof_voltage_sage", 1, "2.32.0", Obis.INTEGER, "", d, e, f);
  }

  lemma SwellsServed(n: char)
    requires '1' <= n <= '3'
    ensures PhaseServes(n, "nof_voltage_swells", 1, "2.36.0", Obis.INTEGER, "")
  {
    var d, e, f := "1-0:32.36.0", "1-0:52.36.0", "1-0:72.36.0";
    assert d == PhaseReference('1', 1, "2.36.0") && e == PhaseReference('2', 1, "2.36.0");
    assert f == PhaseReference('3', 1, "2.36.0");
    InPhases(Three("nof_voltage_swells", d, e, f), Obis.SWELLS);
    assert Obis.SWELLS[0] == Obis.Entry(d, Obis.INTEGER, "");
    assert Obis.SWELLS[1] == Obis.Entry(e, Obis.INTEGER, "");
    assert Obis.SWELLS[2] == Obis.Entry(f, Obis.INTEGER, "");
    hide PhaseReference, PhaseServes, Three, RESOURCE_TABLE, Obis.TABLE, Obis.SWELLS;
    PhaseServed(n, "nof_voltage_swells", 1, "2.36.0", Obis.INTEGER, "", d, e, f);
  }

  // ----- the four devices behind the meter, n for '1' to '4' -----

  lemma DevicesServed(n: char)
    requires '1' <= n <= '4'
    ensures DeviceServes(n, "type", "http_get_obis", ":24.1.0", Obis.INTEGER)
    ensures DeviceServes(n, "equipment", "http_get_obis", ":96.1.0", Obis.STRING)
    ensures DeviceServes(n, "timestamp", "http_get_obis1", ":24.2.1", Obis.MIN5)
    ensures DeviceServes(n, "phases/0/delivered", "http_get_obis2", ":24.2.1", Obis.MIN5)
  {
    var s, es := Device(n), Obis.Device(n);
    InDevices(n);
    assert s[0] in s && s[1] in s && s[2] in s && s[3] in s && es[0] in es && es[1] in es && es[2] in es;
    hide RESOURCE_TABLE, Obis.TABLE, Serves;
    EntryServes("/api/devices/" + [n] + "/" + "type", "http_get_obis", es[0]);
    EntryServes("/api/devices/" + [n] + "/" + "equipment", "http_get_obis", es[1]);
    EntryServes("/api/devices/" + [n] + "/" + "timestamp", "http_get_obis1", es[2]);
    EntryServes("/api/devices/" + [n] + "/" + "phases/0/delivered", "http_get_obis2", es[2]);
  }

  ghost predicate DeviceServes(n: char, tail: string, callback: string, reference: string, kind: Obis.ObisType) {
    Serves("/api/devices/" + [n] + "/" + tail, callback, "0-" + [n] + reference, kind, "")
  }

  lemma InDevices(n: char)
    requires '1' <= n <= '4'
    ensures forall r | r in Device(n) :: r in RESOURCE_TABLE
    ensures forall e | e in Obis.Device(n) :: e in Obis.TABLE
  {
    hide Device, Obis.Device, Three;
    assert n == '1' || n == '2' || n == '3' || n == '4';
  }

  // ----- the rest -----

  lemma MeterValuesServed()
    ensures Serves("/api/devices/0/" + "timestamp", "http_get_obis", "0-0:1.0.0", Obis.TIME, "")
    ensures Serves("/api/devices/0/" + "tariffs/indicator", "http_get_obis", "0-0:96.14.0", Obis.INTEGER, "")
    ensures Serves("/api/devices/0/" + "power/delivered", "http_get_obis", "1-0:1.7.0", Obis.DOUBLE, "kW")
    ensures Serves("/api/devices/0/" + "power/received", "http_get_obis", "1-0:2.7.0", Obis.DOUBLE, "kW")
    ensures Serves("/api/devices/0/" + "equipment", "http_get_obis", "0-0:96.1.1", Obis.STRING, "")
  {
    InRest();
    hide RESOURCE_TABLE, Obis.TABLE, Serves;
    assert CLOCK[0] == MeterGet("timestamp", Obis.GENERAL[1].reference);
    MeterServes("timestamp", Obis.GENERAL[1]);
    assert CLOCK[1] == MeterGet("tariffs/indicator", Obis.POWER[0].reference);
    MeterServes("tariffs/indicator", Obis.POWER[0]);
    assert TOTALS[0] == MeterGet("power/delivered", Obis.POWER[1].reference);
    MeterServes("power/delivered", Obis.POWER[1]);
    assert TOTALS[1] == MeterGet("power/received", Obis.POWER[2].reference);
    MeterServes("power/received", Obis.POWER[2]);
    assert TOTALS[2] == MeterGet("equipment", Obis.GENERAL[2].reference);
    MeterServes("equipment", Obis.GENERAL[2]);
  }

  lemma FailuresServed()
    ensures Serves("/api/devices/0/" + "nof_power_failures", "http_get_obis", "0-0:96.7.21", Obis.INTEGER, "")
    ensures Serves("/api/devices/0/" + "nof_long_power_failures", "http_get_obis", "0-0:96.7.9", Obis.INTEGER, "")
    ensures Serves("/api/devices/0/" + "power_fail_event_log", "http_get_obis", "1-0:99.97.0", Obis.NULL, "")
    ensures Serves("/api/devices/0/" + "message/0", "http_get_obis", "0-0:96.13.0", Obis.STRING, "")
    ensures Serves("/api/devices/0/" + "message/1", "http_get_obis", "0-0:96.13.1", Obis.STRING, "")
  {
    InRest();
    hide RESOURCE_TABLE, Obis.TABLE, Serves;
    assert FAILURES[0] == MeterGet("nof_power_failures", Obis.FAILURES[0].reference);
    MeterServes("nof_power_failures", Obis.FAILURES[0]);
    assert FAILURES[1] == MeterGet("nof_long_power_failures", Obis.FAILURES[1].reference);
    MeterServes("nof_long_power_failures", Obis.FAILURES[1]);
    assert FAILURES[2] == MeterGet("power_fail_event_log", Obis.FAILURES[2].reference);
    MeterServes("power_fail_event_log", Obis.FAILURES[2]);
    assert MESSAGES[0] == MeterGet("message/0", Obis.MESSAGES[0].reference);
    MeterServes("message/0", Obis.MESSAGES[0]);
    assert MESSAGES[1] == MeterGet("message/1", Obis.MESSAGES[1].reference);
    MeterServes("message/1", Obis.MESSAGES[1]);
  }

  lemma ApiServed()
    ensures Serves("/api", "http_get_api", "1-3:0.2.8", Obis.LSTRING, "")
    ensures Serves("/api/version", "http_get_obis", "1-3:0.2.8", Obis.LSTRING, "")
    ensures Searched(RESOURCE_TABLE, GET_FILE, "/api/devices", "GET")
            == Answer.Served(Target("http_get_devices", ""))
  {
    InRest();
    hide RESOURCE_TABLE, Obis.TABLE, Serves, Searched;
    assert API[0] == Get("/api", "http_get_api", Obis.GENERAL[0].reference);
    assert API[1] == Get("/api/version", "http_get_obis", Obis.GENERAL[0].reference);
    EntryServes("/api", "http_get_api", Obis.GENERAL[0]);
    EntryServes("/api/version", "http_get_obis", Obis.GENERAL[0]);
    var j :| 0 <= j < |RESOURCE_TABLE| && RESOURCE_TABLE[j] == API[2];
    TableAnswers("/api/devices", "GET");
  }

  lemma InRest()
    ensures API[0] in RESOURCE_TABLE && API[1] in RESOURCE_TABLE && API[2] in RESOURCE_TABLE
    ensures forall i | 0 <= i < 2 :: CLOCK[i] in RESOURCE_TABLE
    ensures forall i | 0 <= i < 3 :: TOTALS[i] in RESOURCE_TABLE && FAILURES[i] in RESOURCE_TABLE
    ensures forall i | 0 <= i < 2 :: MESSAGES[i] in RESOURCE_TABLE && Obis.MESSAGES[i] in Obis.TABLE
    ensures forall i | 0 <= i < 3 ::
              Obis.GENERAL[i] in Obis.TABLE && Obis.POWER[i] in Obis.TABLE && Obis.FAILURES[i] in Obis.TABLE
  {
    hide Three, Both, Device, Obis.Device, MeterGet;
  }
}
