// From the bytes of a connection to the answers its requests get.
module HttpService {
  import opened CStrings
  import opened Chunks
  import opened Handlers
  import opened HttpCapacity
  import opened HttpMachine
  import opened HttpFraming
  import opened HttpDecoders
  import opened Routing
  import Forest

  // A request line a client sends: no space in method or uri, both short enough for their buffers.
  ghost predicate Asks(line: string, verb: string, uri: string) {
    && ' ' !in verb && ' ' !in uri && '\0' !in line
    && |verb| < 32 && |uri| < 256
    && exists version :: line == RequestLine(verb, uri, version)
  }

  function RequestLine(verb: string, uri: string, version: string): string {
    verb + " " + uri + " " + version
  }

  // The method and uri of a request line are read back as they were sent, whatever came before.
  lemma LineParsed(server: Server, line: string, verb: string, uri: string)
    requires Asks(line, verb, uri)
    ensures Requested(server, CText(line)) == Server(verb, uri)
  {
    var version :| line == RequestLine(verb, uri, version);
    LineCut(server, verb, uri, version);
    hide CText, Requested;
  }

  // What a buffer of n characters holds of a text.
  function Held(s: string, n: nat): string
    requires n > 0
  {
    if |s| < n then s else s[..n - 1]
  }

  // Of a longer method the first 31 characters are kept, of a longer uri the first 255.
  lemma LineCut(server: Server, verb: string, uri: string, version: string)
    requires ' ' !in verb && ' ' !in uri && '\0' !in RequestLine(verb, uri, version)
    ensures Requested(server, CText(RequestLine(verb, uri, version))) == Server(Held(verb, 32), Held(uri, 256))
  {
    var line := RequestLine(verb, uri, version);
    TextIs(line, line, '\0');
    var rest := uri + [' '] + version;
    assert line == verb + [' '] + rest;
    FirstAfter(verb, ' ', rest);
    FirstAfter(uri, ' ', version);
    assert line[|verb| + 1..] == rest;
    assert line[..|verb|] == verb && rest[..|uri|] == uri;
  }

  // A line with fewer than two spaces asks for nothing: method and uri stay as they were.
  lemma LineRefused(server: Server, a: string, b: string)
    requires ' ' !in a && ' ' !in b && '\0' !in a && '\0' !in b
    ensures Requested(server, CText(a)) == server && Requested(server, CText(a + " " + b)) == server
  {
    TextIs(a, a, '\0');
    var line := a + [' '] + b;
    TextIs(line, line, '\0');
    FirstAfter(a, ' ', b);
    assert line[|a| + 1..] == b;
    hide Clip;
  }

  lemma {:induction false} CallOf(server: Server, rs: seq<Request>, at: nat, i: nat, verb: string, uri: string)
    requires i < |rs| && Asks(rs[i].line, verb, uri)
    ensures |Calls(server, rs, at)| == |rs| && Calls(server, rs, at)[i].server == Server(verb, uri)
    decreases |rs|
  {
    hide CText, Requested, Asks, Print;
    var s := Requested(server, CText(rs[0].line));
    CallsLength(s, rs[1..], at + |Print(rs[0])|);
    PrintNonEmpty(rs[0]);
    if i == 0 {
      LineParsed(server, rs[0].line, verb, uri);
    } else {
      CallOf(s, rs[1..], at + |Print(rs[0])|, i - 1, verb, uri);
    }
  }

  lemma {:induction false} CallsLength(server: Server, rs: seq<Request>, at: nat)
    ensures |Calls(server, rs, at)| == |rs|
    decreases |rs|
  {
    hide CText, Requested, Print;
    if rs != [] {
      PrintNonEmpty(rs[0]);
      CallsLength(Requested(server, CText(rs[0].line)), rs[1..], at + |Print(rs[0])|);
    }
  }

  // However its bytes are cut into reads, a connection whose requests are framed correctly gets one
  // answer for each request: the one a search of the registration history gives its method and uri.
  lemma RequestsAnswered(history: seq<Registration>, default: Target, rs: seq<Request>, chunks: seq<string>,
                         i: nat, verb: string, uri: string)
    requires AllLined(rs) && Clean(0, 0, rs) && Joined(chunks) == PrintAll(rs)
    requires i < |rs| && Asks(rs[i].line, verb, uri)
    ensures var answers := Replies(history, default, LogChunks(INITIAL, chunks, 0));
            |answers| == |rs| && answers[i] == Searched(history, default, uri, verb)
  {
    hide Searched, Log, LogChunks, Calls, Clean, PrintAll, Joined, AllLined, Asks;
    ChunksDoNotMatter(INITIAL, chunks, 0);
    StreamFramed(INITIAL, rs, 0);
    CallOf(INITIAL.server, rs, 0, i, verb, uri);
  }

  // handler_read, once for each chunk.
  method ReadChunks(d: HttpDecoder, chunks: seq<string>)
    requires d.Valid() && d.handler.Valid() && Bounded(d.Value(), Joined(chunks))
    modifies d, d.buf
    ensures d.Valid() && d.handler.Valid() && d.Value() == RunChunks(old(d.Value()), chunks)
    ensures d.answers == old(d.answers)
                         + Replies(d.handler.history, d.handler.default, LogChunks(old(d.Value()), chunks, 0))
  {
    hide Handler.Valid, Searched, Run, Log, RunChunks, LogChunks, Joined, Bounded;
    ghost var m, was, h, t := d.Value(), d.answers, d.handler.history, d.handler.default;
    NoChunks(m, 0);
    assert chunks[..0] == [] && chunks[0..] == chunks;
    for i := 0 to |chunks|
      invariant d.Valid() && d.handler.Valid() && Bounded(d.Value(), Joined(chunks[i..]))
      invariant d.handler.history == h && d.handler.default == t
      invariant d.Value() == RunChunks(m, chunks[..i])
      invariant d.answers == was + Replies(h, t, LogChunks(m, chunks[..i], 0))
    {
      ghost var footprint := Forest.Footprint(d.handler.trees);
      assert chunks[i..][0] == chunks[i] && chunks[i..][1..] == chunks[i + 1..];
      assert chunks[..i + 1] == chunks[..i] + [chunks[i]];
      JoinedFirst(chunks[i..]);
      BoundedConcat(d.Value(), chunks[i], Joined(chunks[i + 1..]));
      ChunksSnoc(m, chunks[..i], chunks[i], 0);
      RepliesAnywhere(h, t, d.Value(), chunks[i], |Joined(chunks[..i])|);
      RepliesConcat(h, t, LogChunks(m, chunks[..i], 0), Log(d.Value(), chunks[i], |Joined(chunks[..i])|));
      d.Read(chunks[i]);
    }
    assert chunks[..|chunks|] == chunks;
  }

  lemma RepliesConcat(history: seq<Registration>, default: Target, a: seq<Call>, b: seq<Call>)
    ensures Replies(history, default, a + b) == Replies(history, default, a) + Replies(history, default, b)
  {
    hide Searched;
  }

  // Requests that are small enough and framed correctly, cut into reads anywhere: a new decoder gives
  // one answer for each, in order, and to every request line the one its method and uri are registered
  // for.
  method ServeConnection(handler: Handler, ghost rs: seq<Request>, chunks: seq<string>) returns (d: HttpDecoder)
    requires handler.Valid() && AllLined(rs) && Clean(0, 0, rs) && Joined(chunks) == PrintAll(rs)
    requires forall i | 0 <= i < |rs| :: Small(rs[i])
    ensures handler.Valid() && d.handler == handler && |d.answers| == |rs|
    ensures forall i, verb, uri | 0 <= i < |rs| && Asks(rs[i].line, verb, uri) ::
              d.answers[i] == Searched(handler.history, handler.default, uri, verb)
  {
    hide Handler.Valid, Searched, Log, LogChunks, RunChunks, Clean, PrintAll, Joined, AllLined, Asks, Bounded, Small;
    hide Replies;
    ghost var footprint := Forest.Footprint(handler.trees);
    FreshBoundary();
    StreamFits(INITIAL, rs);
    AllAnswered(handler.history, handler.default, rs, chunks);
    d := new HttpDecoder(handler);
    ReadChunks(d, chunks);
  }

  lemma FreshBoundary()
    ensures Boundary(INITIAL) && INITIAL.server == Server("", "")
  {
  }

  lemma AllAnswered(history: seq<Registration>, default: Target, rs: seq<Request>, chunks: seq<string>)
    requires AllLined(rs) && Clean(0, 0, rs) && Joined(chunks) == PrintAll(rs)
    ensures var answers := Replies(history, default, LogChunks(INITIAL, chunks, 0));
            && |answers| == |rs|
            && forall i, verb, uri | 0 <= i < |rs| && Asks(rs[i].line, verb, uri) ::
                 answers[i] == Searched(history, default, uri, verb)
  {
    hide Searched, Log, LogChunks, Calls, Clean, PrintAll, Joined, AllLined, Asks;
    ChunksDoNotMatter(INITIAL, chunks, 0);
    StreamFramed(INITIAL, rs, 0);
    CallsLength(INITIAL.server, rs, 0);
    forall i, verb, uri | 0 <= i < |rs| && Asks(rs[i].line, verb, uri)
      ensures Replies(history, default, LogChunks(INITIAL, chunks, 0))[i] == Searched(history, default, uri, verb)
    {
      RequestsAnswered(history, default, rs, chunks, i, verb, uri);
    }
  }
}
