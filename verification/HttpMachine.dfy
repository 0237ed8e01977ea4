// The byte machine of http_decoder_read in src/http.c, on values.  `Step` is one turn of its loop; a
// `Call` is the decoder's callback, with the place of the byte that caused it.
module HttpMachine {
  import opened Chunks
  import opened CStrings

  datatype State = REQUEST | HEADER | DATA

  datatype Action = COPY | DROP | PARSE_REQUEST | PARSE_HEADER | HANDLE_REQUEST

  // request_method and request_uri
  datatype Server = Server(verb: string, uri: string)

  datatype Machine = Machine(
    state: State, startline: bool, text: string, length: int, dataread: int, server: Server)

  const INITIAL := Machine(REQUEST, false, "", 0, 0, Server("", ""))

  datatype Call = Call(at: nat, server: Server)

  // ----- the texts -----

  // The part of a buffer that C sees as a string.
  function CText(s: string): string {
    Text(s, '\0')
  }

  // The place of the first c; the length when there is none.
  function First(s: string, c: char): (i: nat)
    ensures i <= |s|
    ensures i < |s| ==> s[i] == c
    ensures forall k | 0 <= k < i :: s[k] != c
  {
    if s == "" || s[0] == c then 0
    else
      assert forall k | 0 < k < |s| :: s[k] == s[1..][k - 1];
      1 + First(s[1..], c)
  }

  lemma FirstAfter(a: string, c: char, b: string)
    requires c !in a
    ensures First(a + [c] + b, c) == |a|
  {
    var s := a + [c] + b;
    assert s[|a|] == c;
    assert forall k | 0 <= k < |a| :: s[k] == a[k];
  }

  // regex_request: two runs without a space, each followed by one, and the rest.
  function Requested(server: Server, text: string): Server {
    var i := First(text, ' ');
    if i == |text| then server
    else
      var rest := text[i + 1..];
      var j := First(rest, ' ');
      if j == |rest| then server else Server(Clip(text[..i], 32), Clip(rest[..j], 256))
  }

  predicate IsSpace(c: char) {
    c == ' ' || '\t' <= c <= '\r'
  }

  predicate IsDigit(c: char) {
    '0' <= c <= '9'
  }

  function Digits(s: string, sofar: nat): nat
    decreases |s|
  {
    if s == "" || !IsDigit(s[0]) then sofar else Digits(s[1..], 10 * sofar + (s[0] as int - '0' as int))
  }

  // atoi
  function Atoi(s: string): int {
    if s == "" then 0
    else if IsSpace(s[0]) then Atoi(s[1..])
    else if s[0] == '-' then 0 - Digits(s[1..], 0)
    else if s[0] == '+' then Digits(s[1..], 0)
    else Digits(s, 0)
  }

  // regex_header: a run without a colon, a colon and a space, and the rest.  Only Content-Length
  // has an effect.
  function Headed(length: int, text: string): int {
    var i := First(text, ':');
    if i + 1 < |text| && text[i + 1] == ' ' && Clip(text[..i], 256) == "Content-Length"
    then Atoi(Clip(text[i + 2..], 256))
    else length
  }

  // ----- the machine -----

  function Switch(m: Machine, b: char): (State, Action) {
    match m.state
    case REQUEST =>
      if b == '\n' then (HEADER, PARSE_REQUEST)
      else if b == '\r' then (REQUEST, DROP)
      else (REQUEST, COPY)
    case HEADER =>
      if b == '\n' then
        if m.startline then
          if m.length != 0 then (DATA, DROP) else (REQUEST, HANDLE_REQUEST)
        else (HEADER, PARSE_HEADER)
      else if b == '\r' then (HEADER, DROP)
      else (HEADER, COPY)
    case DATA =>
      if m.dataread + 1 == m.length then (REQUEST, HANDLE_REQUEST) else (DATA, COPY)
  }

  function Step(m: Machine, b: char): Machine {
    var (state, action) := Switch(m, b);
    var n := m.(state := state,
                dataread := if m.state == DATA then m.dataread + 1 else m.dataread,
                startline := b == '\n' || (b == '\r' && m.startline));
    match action
    case COPY => n.(text := m.text + [b])
    case DROP => n
    case PARSE_REQUEST => n.(text := "", server := Requested(m.server, CText(m.text)))
    case PARSE_HEADER => n.(text := "", length := Headed(m.length, CText(m.text)))
    case HANDLE_REQUEST => n.(text := "")
  }

  function Emit(m: Machine, b: char, at: nat): seq<Call> {
    if Switch(m, b).1 == HANDLE_REQUEST then [Call(at, m.server)] else []
  }

  function Run(m: Machine, s: string): Machine
    decreases |s|
  {
    if s == "" then m else Run(Step(m, s[0]), s[1..])
  }

  // The calls made over s, whose first byte is at the given place of the stream.
  function Log(m: Machine, s: string, at: nat): seq<Call>
    decreases |s|
  {
    if s == "" then [] else Emit(m, s[0], at) + Log(Step(m, s[0]), s[1..], at + 1)
  }

  // Cutting the stream anywhere changes nothing.
  lemma {:induction false} RunConcat(m: Machine, a: string, b: string, at: nat)
    ensures Run(m, a + b) == Run(Run(m, a), b)
    ensures Log(m, a + b, at) == Log(m, a, at) + Log(Run(m, a), b, at + |a|)
    decreases |a|
  {
    hide Step, Emit;
    if a == "" {
      assert a + b == b;
    } else {
      RunConcat(Step(m, a[0]), a[1..], b, at + 1);
      assert (a + b)[1..] == a[1..] + b;
    }
  }

  lemma RunSnoc(m: Machine, s: string, b: char, at: nat)
    ensures Run(m, s + [b]) == Step(Run(m, s), b)
    ensures Log(m, s + [b], at) == Log(m, s, at) + Emit(Run(m, s), b, at + |s|)
  {
    hide Step, Emit;
    RunConcat(m, s, [b], at);
    assert [b][1..] == "";
    assert Log(Step(Run(m, s), b), "", at + |s| + 1) == [];
  }

  function RunChunks(m: Machine, chunks: seq<string>): Machine
    decreases |chunks|
  {
    if chunks == [] then m else RunChunks(Run(m, chunks[0]), chunks[1..])
  }

  function LogChunks(m: Machine, chunks: seq<string>, at: nat): seq<Call>
    decreases |chunks|
  {
    if chunks == [] then []
    else Log(m, chunks[0], at) + LogChunks(Run(m, chunks[0]), chunks[1..], at + |chunks[0]|)
  }

  lemma {:induction false} ChunksDoNotMatter(m: Machine, chunks: seq<string>, at: nat)
    ensures RunChunks(m, chunks) == Run(m, Joined(chunks))
    ensures LogChunks(m, chunks, at) == Log(m, Joined(chunks), at)
    decreases |chunks|
  {
    hide Run, Log;
    if chunks == [] {
      EmptyRun(m, at);
    } else {
      ChunksDoNotMatter(Run(m, chunks[0]), chunks[1..], at + |chunks[0]|);
      RunConcat(m, chunks[0], Joined(chunks[1..]), at);
    }
  }

  lemma NoChunks(m: Machine, at: nat)
    ensures RunChunks(m, []) == m && LogChunks(m, [], at) == [] && Joined<char>([]) == ""
  {
  }

  lemma {:induction false} ChunksSnoc(m: Machine, chunks: seq<string>, c: string, at: nat)
    ensures RunChunks(m, chunks + [c]) == Run(RunChunks(m, chunks), c)
    ensures LogChunks(m, chunks + [c], at)
            == LogChunks(m, chunks, at) + Log(RunChunks(m, chunks), c, at + |Joined(chunks)|)
    decreases |chunks|
  {
    hide Run, Log;
    if chunks == [] {
      assert [c][1..] == [] && [] + [c] == [c];
    } else {
      ChunksSnoc(Run(m, chunks[0]), chunks[1..], c, at + |chunks[0]|);
      assert (chunks + [c])[1..] == chunks[1..] + [c];
    }
  }

  lemma EmptyRun(m: Machine, at: nat)
    ensures Run(m, "") == m && Log(m, "", at) == []
  {
  }

  // Every call lies within the bytes read.
  lemma {:induction false} LogPlaces(m: Machine, s: string, at: nat)
    ensures forall i | 0 <= i < |Log(m, s, at)| :: at <= Log(m, s, at)[i].at < at + |s|
    decreases |s|
  {
    hide Step;
    if s != "" {
      LogPlaces(Step(m, s[0]), s[1..], at + 1);
    }
  }
}
