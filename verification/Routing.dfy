// Which callback serves a request: the registration history searched from the end, and the two
// levels of maps that src/http.c searches instead; and the table src/rest.c registers.
module Routing {
  import opened RbNodes
  import opened Options

  // A callback and its data, "" for NULL.
  datatype Target = Target(callback: string, data: string)

  datatype Registration = Registration(uri: Key, verb: Key, target: Target)

  datatype Answer = Served(target: Target) | NotAllowed

  // ----- the history -----

  predicate Known(history: seq<Registration>, uri: Key) {
    exists i | 0 <= i < |history| :: history[i].uri == uri
  }

  // The last registration for a uri and a method.
  function Last(history: seq<Registration>, uri: Key, verb: Key): Option<Target> {
    if history == [] then None
    else
      var r := history[|history| - 1];
      if r.uri == uri && r.verb == verb then Some(r.target) else Last(history[..|history| - 1], uri, verb)
  }

  function Searched(history: seq<Registration>, default: Target, uri: Key, verb: Key): Answer {
    if !Known(history, uri) then Served(default)
    else
      var t := Last(history, uri, verb);
      if t.Some? then Served(t.value) else NotAllowed
  }

  // ----- the maps -----

  type Routes = map<Key, map<Key, Target>>

  function Added(routes: Routes, r: Registration): Routes {
    routes[r.uri := (if r.uri in routes then routes[r.uri] else map[])[r.verb := r.target]]
  }

  function RoutesOf(history: seq<Registration>): Routes {
    if history == [] then map[]
    else Added(RoutesOf(history[..|history| - 1]), history[|history| - 1])
  }

  function Looked(routes: Routes, default: Target, uri: Key, verb: Key): Answer {
    if uri !in routes then Served(default)
    else if verb !in routes[uri] then NotAllowed
    else Served(routes[uri][verb])
  }

  lemma LookedUp(routes: Routes, default: Target, uri: Key, verb: Key)
    ensures uri !in routes ==> Looked(routes, default, uri, verb) == Served(default)
    ensures uri in routes && verb !in routes[uri] ==> Looked(routes, default, uri, verb) == NotAllowed
    ensures uri in routes && verb in routes[uri] ==> Looked(routes, default, uri, verb) == Served(routes[uri][verb])
  {
  }

  // The two levels of maps answer as the search through the history does.
  lemma {:induction false} LookedIsSearched(history: seq<Registration>, default: Target, uri: Key, verb: Key)
    ensures uri in RoutesOf(history) <==> Known(history, uri)
    ensures Looked(RoutesOf(history), default, uri, verb) == Searched(history, default, uri, verb)
  {
    if history != [] {
      var p, r := history[..|history| - 1], history[|history| - 1];
      LookedIsSearched(p, default, uri, verb);
      assert Known(history, uri) <==> Known(p, uri) || r.uri == uri by {
        if Known(p, uri) {
          var i :| 0 <= i < |p| && p[i].uri == uri;
          assert history[i].uri == uri;
        }
      }
      if r.uri == uri && !Known(p, uri) {
        UnknownLast(p, uri, verb);
      }
    }
  }

  lemma {:induction false} UnknownLast(history: seq<Registration>, uri: Key, verb: Key)
    requires !Known(history, uri)
    ensures Last(history, uri, verb) == None
  {
    if history != [] {
      var p := history[..|history| - 1];
      assert history[|history| - 1].uri != uri;
      assert forall i | 0 <= i < |p| :: p[i] == history[i];
      UnknownLast(p, uri, verb);
    }
  }

  // What Last finds was registered for that uri and method, and nothing after it was.
  lemma {:induction false} LastIsLatest(history: seq<Registration>, uri: Key, verb: Key, i: nat)
    requires i < |history| && history[i].uri == uri && history[i].verb == verb
    requires forall k | i < k < |history| :: !(history[k].uri == uri && history[k].verb == verb)
    ensures Last(history, uri, verb) == Some(history[i].target)
    decreases |history|
  {
    if i < |history| - 1 {
      LastIsLatest(history[..|history| - 1], uri, verb, i);
    }
  }

  lemma {:induction false} LastMatches(history: seq<Registration>, uri: Key, verb: Key)
    requires forall i | 0 <= i < |history| :: history[i].verb != verb
    ensures Last(history, uri, verb) == None
    decreases |history|
  {
    if history != [] {
      LastMatches(history[..|history| - 1], uri, verb);
    }
  }

  // ----- resource_table -----

  function Get(uri: Key, callback: string, data: string): Registration {
    Registration(uri, "GET", Target(callback, data))
  }

  const API: seq<Registration> := [
    Get("/api", "http_get_api", "1-3:0.2.8"),
    Get("/api/version", "http_get_obis", "1-3:0.2.8"),
    Get("/api/devices", "http_get_devices", "")
  ]

  // Device 0 is the electricity meter.
  function Meter(tail: string): Key {
    "/api/devices/0/" + tail
  }

  function MeterGet(tail: string, reference: string): Registration {
    Get(Meter(tail), "http_get_obis", reference)
  }

  const CLOCK: seq<Registration> := [
    MeterGet("timestamp", "0-0:1.0.0"),
    MeterGet("tariffs/indicator", "0-0:96.14.0")
  ]

  function Both(tail: string, first: string, second: string): seq<Registration> {
    [MeterGet("tariffs/" + "1" + "/" + tail, first), MeterGet("tariffs/" + "2" + "/" + tail, second)]
  }

  function Phase(n: char, tail: string): string {
    "phases/" + [n] + "/" + tail
  }

  function Three(tail: string, first: string, second: string, third: string): seq<Registration> {
    [MeterGet(Phase('1', tail), first), MeterGet(Phase('2', tail), second), MeterGet(Phase('3', tail), third)]
  }

  const TOTALS: seq<Registration> := [
    MeterGet("power/delivered", "1-0:1.7.0"),
    MeterGet("power/received", "1-0:2.7.0"),
    MeterGet("equipment", "0-0:96.1.1")
  ]

  const FAILURES: seq<Registration> := [
    MeterGet("nof_power_failures", "0-0:96.7.21"),
    MeterGet("nof_long_power_failures", "0-0:96.7.9"),
    MeterGet("power_fail_event_log", "1-0:99.97.0")
  ]

  const MESSAGES: seq<Registration> := [
    MeterGet("message/0", "0-0:96.13.0"),
    MeterGet("message/1", "0-0:96.13.1")
  ]

  // Devices 1 to 4 are the meters behind it.
  function Behind(n: char, tail: string): Key {
    "/api/devices/" + [n] + "/" + tail
  }

  function Device(n: char): seq<Registration> {
    [
      Get(Behind(n, "type"), "http_get_obis", "0-" + [n] + ":24.1.0"),
      Get(Behind(n, "equipment"), "http_get_obis", "0-" + [n] + ":96.1.0"),
      Get(Behind(n, "timestamp"), "http_get_obis1", "0-" + [n] + ":24.2.1"),
      Get(Behind(n, "phases/0/delivered"), "http_get_obis2", "0-" + [n] + ":24.2.1")
    ]
  }

  const TARIFF_TABLE: seq<Registration> :=
    API + CLOCK + Both("delivered", "1-0:1.8.1", "1-0:1.8.2") + Both("received", "1-0:2.8.1", "1-0:2.8.2")

  const PHASE_TABLE: seq<Registration> :=
    Three("power_delivered", "1-0:21.7.0", "1-0:41.7.0", "1-0:61.7.0")
    + Three("power_received", "1-0:22.7.0", "1-0:42.7.0", "1-0:62.7.0")
    + Three("current", "1-0:31.7.0", "1-0:51.7.0", "1-0:71.7.0")
    + Three("voltage", "1-0:32.7.0", "1-0:52.7.0", "1-0:72.7.0")

  const QUALITY_TABLE: seq<Registration> :=
    TOTALS + FAILURES
    + Three("nof_voltage_sage", "1-0:32.32.0", "1-0:52.32.0", "1-0:72.32.0")
    + Three("nof_voltage_swells", "1-0:32.36.0", "1-0:52.36.0", "1-0:72.36.0")
    + MESSAGES

  const DEVICE_TABLE: seq<Registration> := Device('1') + Device('2') + Device('3') + Device('4')

  const RESOURCE_TABLE: seq<Registration> := TARIFF_TABLE + PHASE_TABLE + QUALITY_TABLE + DEVICE_TABLE

  const GET_FILE := Target("http_get_file", "")

  // ----- what the table serves -----

  function CharAt(u: string, p: nat): char {
    if p < |u| then u[p] else ' '
  }

  // Which part of the table a uri stands in, by its length and a few characters.
  function Part(u: Key): nat {
    if |u| < 15 then 0
    else if u[13] == '0' then MeterPart(u[15..])
    else if '1' <= u[13] <= '4' then 13 + (u[13] as int - '1' as int)
    else 17
  }

  function MeterPart(t: string): nat {
    match CharAt(t, 0)
    case 't' => if CharAt(t, 8) != '1' && CharAt(t, 8) != '2' then 1 else if CharAt(t, 10) == 'd' then 2 else 3
    case 'm' => 12
    case 'e' => 8
    case 'n' => 9
    case _ =>
      if CharAt(t, 1) == 'o' then (if CharAt(t, 5) == '/' then 8 else 9)
      else if |t| < 9 then 17 else PhasePart(t[9..])
  }

  function PhasePart(t: string): nat {
    match CharAt(t, 0)
    case 'p' => if CharAt(t, 6) == 'd' then 4 else 5
    case 'c' => 6
    case 'v' => 7
    case _ => if CharAt(t, 13) == 'a' then 10 else 11
  }

  // Parts lo up to hi of the table: for GET only, and no uri twice.
  ghost predicate Parts(s: seq<Registration>, lo: nat, hi: nat) {
    && (forall i | 0 <= i < |s| :: s[i].verb == "GET" && lo <= Part(s[i].uri) < hi)
    && (forall i, j | 0 <= i < j < |s| :: s[i].uri != s[j].uri)
  }

  lemma MoreParts(a: seq<Registration>, b: seq<Registration>, lo: nat, mid: nat, hi: nat)
    requires lo <= mid <= hi && Parts(a, lo, mid) && Parts(b, mid, hi)
    ensures Parts(a + b, lo, hi)
  {
    hide Part;
    var s := a + b;
    assert forall i | 0 <= i < |s| :: s[i] == if i < |a| then a[i] else b[i - |a|];
  }

  // Two entries of the electricity meter.
  lemma TwoTails(u: string, d: string, v: string, e: string, part: nat)
    requires MeterPart(u) == MeterPart(v) == part && u != v
    ensures Parts([MeterGet(u, d), MeterGet(v, e)], part, part + 1)
  {
    hide MeterPart;
    MeterTail(u);
    MeterTail(v);
  }

  lemma ThreeTails(u: string, d: string, v: string, e: string, w: string, f: string, part: nat)
    requires MeterPart(u) == MeterPart(v) == MeterPart(w) == part && u != v && v != w && u != w
    ensures Parts([MeterGet(u, d), MeterGet(v, e), MeterGet(w, f)], part, part + 1)
  {
    hide MeterPart;
    MeterTail(u);
    MeterTail(v);
    MeterTail(w);
  }

  lemma MeterTail(t: string)
    ensures Part(Meter(t)) == MeterPart(t) && Meter(t)[15..] == t
  {
    hide MeterPart;
    assert Meter(t)[15..] == t;
  }

  lemma PhaseTail(n: char, tail: string)
    ensures MeterPart(Phase(n, tail)) == PhasePart(tail) && Phase(n, tail)[7] == n
  {
    hide PhasePart;
    assert Phase(n, tail)[9..] == tail;
  }

  lemma PartThree(tail: string, d: string, e: string, f: string, part: nat)
    requires PhasePart(tail) == part
    ensures Parts(Three(tail, d, e, f), part, part + 1)
  {
    PhaseTail('1', tail);
    PhaseTail('2', tail);
    PhaseTail('3', tail);
    hide MeterPart, PhasePart, Parts;
    ThreeTails(Phase('1', tail), d, Phase('2', tail), e, Phase('3', tail), f, part);
  }

  lemma PartDevice(n: char)
    requires '1' <= n <= '4'
    ensures var k := 13 + (n as int - '1' as int);
            Parts(Device(n), k, k + 1)
  {
    BehindTail(n, "type");
    BehindTail(n, "equipment");
    BehindTail(n, "timestamp");
    BehindTail(n, "phases/0/delivered");
    assert "equipment"[0] != "timestamp"[0];
    hide Part, Behind;
  }

  lemma BehindTail(n: char, t: string)
    requires '1' <= n <= '4'
    ensures Part(Behind(n, t)) == 13 + (n as int - '1' as int) && Behind(n, t)[15..] == t
  {
    assert Behind(n, t)[13] == n;
    assert Behind(n, t)[15..] == t;
  }

  lemma TariffParts()
    ensures Parts(TARIFF_TABLE, 0, 4)
  {
    ApiPart();
    ClockPart();
    BothPart("delivered", "1-0:1.8.1", "1-0:1.8.2", 2);
    BothPart("received", "1-0:2.8.1", "1-0:2.8.2", 3);
    hide Parts, Both;
    MoreParts(API, CLOCK, 0, 1, 2);
    MoreParts(API + CLOCK, Both("delivered", "1-0:1.8.1", "1-0:1.8.2"), 0, 2, 3);
    MoreParts(API + CLOCK + Both("delivered", "1-0:1.8.1", "1-0:1.8.2"), Both("received", "1-0:2.8.1", "1-0:2.8.2"),
              0, 3, 4);
  }

  lemma ApiPart()
    ensures Parts(API, 0, 1)
  {
    assert API[1].uri[5] != API[2].uri[5];
  }

  lemma ClockPart()
    ensures Parts(CLOCK, 1, 2)
  {
    TwoTails("timestamp", "0-0:1.0.0", "tariffs/indicator", "0-0:96.14.0", 1);
    hide Parts;
  }

  lemma BothPart(tail: string, d: string, e: string, part: nat)
    requires |tail| > 0 && part == (if tail[0] == 'd' then 2 else 3) && (tail[0] == 'd' || tail[0] == 'r')
    ensures Parts(Both(tail, d, e), part, part + 1)
  {
    var u, v := "tariffs/" + "1" + "/" + tail, "tariffs/" + "2" + "/" + tail;
    assert u[8] != v[8] && u[10] == v[10] == tail[0] && u[0] == v[0] == 't';
    TwoTails(u, d, v, e, part);
    hide Parts;
  }

  lemma PhaseParts()
    ensures Parts(PHASE_TABLE, 4, 8)
  {
    PartThree("power_delivered", "1-0:21.7.0", "1-0:41.7.0", "1-0:61.7.0", 4);
    PartThree("power_received", "1-0:22.7.0", "1-0:42.7.0", "1-0:62.7.0", 5);
    PartThree("current", "1-0:31.7.0", "1-0:51.7.0", "1-0:71.7.0", 6);
    PartThree("voltage", "1-0:32.7.0", "1-0:52.7.0", "1-0:72.7.0", 7);
    hide Parts, Three, PhasePart;
    var a, b := Three("power_delivered", "1-0:21.7.0", "1-0:41.7.0", "1-0:61.7.0"),
                Three("power_received", "1-0:22.7.0", "1-0:42.7.0", "1-0:62.7.0");
    var c, d := Three("current", "1-0:31.7.0", "1-0:51.7.0", "1-0:71.7.0"),
                Three("voltage", "1-0:32.7.0", "1-0:52.7.0", "1-0:72.7.0");
    MoreParts(a, b, 4, 5, 6);
    MoreParts(a + b, c, 4, 6, 7);
    MoreParts(a + b + c, d, 4, 7, 8);
  }

  lemma QualityParts()
    ensures Parts(QUALITY_TABLE, 8, 13)
  {
    TotalsPart();
    FailuresPart();
    PartThree("nof_voltage_sage", "1-0:32.32.0", "1-0:52.32.0", "1-0:72.32.0", 10);
    PartThree("nof_voltage_swells", "1-0:32.36.0", "1-0:52.36.0", "1-0:72.36.0", 11);
    MessagesPart();
    hide Parts, Three, PhasePart;
    var c, d := Three("nof_voltage_sage", "1-0:32.32.0", "1-0:52.32.0", "1-0:72.32.0"),
                Three("nof_voltage_swells", "1-0:32.36.0", "1-0:52.36.0", "1-0:72.36.0");
    MoreParts(TOTALS, FAILURES, 8, 9, 10);
    MoreParts(TOTALS + FAILURES, c, 8, 10, 11);
    MoreParts(TOTALS + FAILURES + c, d, 8, 11, 12);
    MoreParts(TOTALS + FAILURES + c + d, MESSAGES, 8, 12, 13);
  }

  lemma TotalsPart()
    ensures Parts(TOTALS, 8, 9)
  {
    ThreeTails("power/delivered", "1-0:1.7.0", "power/received", "1-0:2.7.0", "equipment", "0-0:96.1.1", 8);
    hide Parts;
  }

  lemma FailuresPart()
    ensures Parts(FAILURES, 9, 10)
  {
    ThreeTails("nof_power_failures", "0-0:96.7.21", "nof_long_power_failures", "0-0:96.7.9",
               "power_fail_event_log", "1-0:99.97.0", 9);
    hide Parts;
  }

  lemma MessagesPart()
    ensures Parts(MESSAGES, 12, 13)
  {
    assert "message/0"[8] != "message/1"[8];
    TwoTails("message/0", "0-0:96.13.0", "message/1", "0-0:96.13.1", 12);
    hide Parts;
  }

  lemma DeviceParts()
    ensures Parts(DEVICE_TABLE, 13, 17)
  {
    PartDevice('1');
    PartDevice('2');
    PartDevice('3');
    PartDevice('4');
    hide Parts, Device;
    MoreParts(Device('1'), Device('2'), 13, 14, 15);
    MoreParts(Device('1') + Device('2'), Device('3'), 13, 15, 16);
    MoreParts(Device('1') + Device('2') + Device('3'), Device('4'), 13, 16, 17);
  }

  lemma TableParts()
    ensures Parts(RESOURCE_TABLE, 0, 17)
  {
    TariffParts();
    PhaseParts();
    QualityParts();
    DeviceParts();
    hide Parts, TARIFF_TABLE, PHASE_TABLE, QUALITY_TABLE, DEVICE_TABLE;
    MoreParts(TARIFF_TABLE, PHASE_TABLE, 0, 4, 8);
    MoreParts(TARIFF_TABLE + PHASE_TABLE, QUALITY_TABLE, 0, 8, 13);
    MoreParts(TARIFF_TABLE + PHASE_TABLE + QUALITY_TABLE, DEVICE_TABLE, 0, 13, 17);
  }

  // What the registered table answers, for every request: GET on the uri of an entry its own target,
  // any other method there a refusal, and everything else the file server.
  lemma TableAnswers(uri: Key, verb: Key)
    ensures !Known(RESOURCE_TABLE, uri) ==> Searched(RESOURCE_TABLE, GET_FILE, uri, verb) == Served(GET_FILE)
    ensures Known(RESOURCE_TABLE, uri) && verb != "GET" ==> Searched(RESOURCE_TABLE, GET_FILE, uri, verb) == NotAllowed
    ensures forall i | 0 <= i < |RESOURCE_TABLE| && RESOURCE_TABLE[i].uri == uri && verb == "GET" ::
              Searched(RESOURCE_TABLE, GET_FILE, uri, verb) == Served(RESOURCE_TABLE[i].target)
  {
    TableParts();
    hide RESOURCE_TABLE, Part;
    if verb != "GET" {
      LastMatches(RESOURCE_TABLE, uri, verb);
    }
    forall i | 0 <= i < |RESOURCE_TABLE| && RESOURCE_TABLE[i].uri == uri && verb == "GET"
      ensures Searched(RESOURCE_TABLE, GET_FILE, uri, verb) == Served(RESOURCE_TABLE[i].target)
    {
      LastIsLatest(RESOURCE_TABLE, uri, verb, i);
    }
  }
}
