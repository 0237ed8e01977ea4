// Which streams of requests http_decoder_read frames correctly.
module HttpFraming {
  import opened CStrings
  import opened HttpFields
  import opened HttpMachine

  datatype Request = Request(line: string, headers: seq<string>, body: string)

  const CRLF := "\r\n"

  function Lines(ls: seq<string>): string {
    if ls == [] then "" else ls[0] + CRLF + Lines(ls[1..])
  }

  function Head(r: Request): string {
    r.line + CRLF + Lines(r.headers) + CRLF
  }

  function Print(r: Request): string {
    Head(r) + r.body
  }

  function PrintAll(rs: seq<Request>): string {
    if rs == [] then "" else Print(rs[0]) + PrintAll(rs[1..])
  }

  ghost predicate Plain(l: string) {
    forall i | 0 <= i < |l| :: l[i] != '\r' && l[i] != '\n'
  }

  // The length the header lines leave behind, from the one before them.
  function Declared(length: int, headers: seq<string>): int
    decreases |headers|
  {
    if headers == [] then length else Declared(Headed(length, CText(headers[0])), headers[1..])
  }

  // A request made of plain lines, none of its headers empty.
  ghost predicate Lined(r: Request) {
    && Plain(r.line)
    && (forall i | 0 <= i < |r.headers| :: Plain(r.headers[i]) && r.headers[i] != "")
  }

  ghost predicate AllLined(rs: seq<Request>) {
    forall i | 0 <= i < |rs| :: Lined(rs[i])
  }

  // What a line splitter hands over: one call for each request, at its last byte.
  ghost function Calls(server: Server, rs: seq<Request>, at: nat): seq<Call>
    decreases |rs|
  {
    if rs == [] then []
    else
      var s := Requested(server, CText(rs[0].line));
      [Call(at + |Print(rs[0])| - 1, s)] + Calls(s, rs[1..], at + |Print(rs[0])|)
  }

  // The decoder never forgets the last length nor the number of body bytes read: the length it has
  // after the headers must be none for a request without a body, and otherwise that of all the bodies
  // so far.
  ghost predicate Clean(length: int, dataread: int, rs: seq<Request>)
    decreases |rs|
  {
    rs == [] ||
    (var r := rs[0];
     && Declared(length, r.headers) == (if r.body == "" then 0 else dataread + |r.body|)
     && Clean(Declared(length, r.headers), dataread + |r.body|, rs[1..]))
  }

  // ----- reading one request -----

  lemma {:induction false} TextRead(m: Machine, l: string, at: nat)
    requires m.state != DATA && Plain(l)
    ensures Run(m, l) == m.(text := m.text + l, startline := l == "" && m.startline)
    ensures Log(m, l, at) == []
    decreases |l|
  {
    hide CText, Requested, Headed;
    if l == "" {
      assert m.text + l == m.text;
    } else {
      var n := Step(m, l[0]);
      TextRead(n, l[1..], at + 1);
      assert m.text + l == n.text + l[1..];
    }
  }

  // The end of a line that is not the blank one.
  lemma LineEnd(m: Machine, at: nat)
    requires m.state == REQUEST || (m.state == HEADER && !m.startline)
    ensures Run(m, CRLF)
            == if m.state == REQUEST
               then m.(state := HEADER, text := "", startline := true, server := Requested(m.server, CText(m.text)))
               else m.(text := "", startline := true, length := Headed(m.length, CText(m.text)))
    ensures Log(m, CRLF, at) == []
  {
    hide Requested, Headed, CText;
    assert CRLF[1..] == "\n" && "\n"[1..] == "";
  }

  lemma RequestLineRead(m: Machine, l: string, at: nat)
    requires m.state == REQUEST && m.text == "" && Plain(l)
    ensures Run(m, l + CRLF) == m.(state := HEADER, startline := true, server := Requested(m.server, CText(l)))
    ensures Log(m, l + CRLF, at) == []
  {
    hide Run, Log, Requested, CText;
    RunConcat(m, l, CRLF, at);
    TextRead(m, l, at);
    assert "" + l == l;
    LineEnd(Run(m, l), at + |l|);
  }

  lemma HeaderLineRead(m: Machine, l: string, at: nat)
    requires m.state == HEADER && m.text == "" && Plain(l) && l != ""
    ensures Run(m, l + CRLF) == m.(startline := true, length := Headed(m.length, CText(l)))
    ensures Log(m, l + CRLF, at) == []
  {
    hide Run, Log, Headed, CText;
    RunConcat(m, l, CRLF, at);
    TextRead(m, l, at);
    assert "" + l == l;
    LineEnd(Run(m, l), at + |l|);
  }

  lemma {:induction false} HeadersRead(m: Machine, ls: seq<string>, at: nat)
    requires m.state == HEADER && m.text == "" && m.startline
    requires forall i | 0 <= i < |ls| :: Plain(ls[i]) && ls[i] != ""
    ensures Run(m, Lines(ls)) == m.(length := Declared(m.length, ls))
    ensures Log(m, Lines(ls), at) == []
    decreases |ls|
  {
    hide Run, Log, Headed, CText, Plain;
    if ls == [] {
      EmptyRun(m, at);
    } else {
      var l := ls[0] + CRLF;
      HeaderLineRead(m, ls[0], at);
      RunConcat(m, l, Lines(ls[1..]), at);
      HeadersRead(Run(m, l), ls[1..], at + |l|);
    }
  }

  lemma BlankRead(m: Machine, at: nat)
    requires m.state == HEADER && m.text == "" && m.startline
    ensures Run(m, CRLF) == m.(state := if m.length != 0 then DATA else REQUEST)
    ensures Log(m, CRLF, at) == if m.length != 0 then [] else [Call(at + 1, m.server)]
  {
    assert CRLF[1..] == "\n" && "\n"[1..] == "";
  }

  // Up to and including the blank line.
  lemma HeadRead(m: Machine, r: Request, at: nat)
    requires m.state == REQUEST && m.text == "" && Lined(r)
    ensures Run(m, Head(r)) == HeadDone(m, r)
    ensures Log(m, Head(r), at)
            == if Declared(m.length, r.headers) != 0 then []
               else [Call(at + |Head(r)| - 1, Requested(m.server, CText(r.line)))]
  {
    hide Run, Log, Requested, CText, Declared, Lines, Plain;
    var a, b := r.line + CRLF, Lines(r.headers);
    RequestLineRead(m, r.line, at);
    var n := Run(m, a);
    HeadersRead(n, r.headers, at + |a|);
    BlankRead(Run(n, b), at + |a| + |b|);
    RunConcat(m, a, b, at);
    RunConcat(m, a + b, CRLF, at);
  }

  function HeadDone(m: Machine, r: Request): Machine {
    var length := Declared(m.length, r.headers);
    m.(state := if length != 0 then DATA else REQUEST, startline := true, length := length,
       server := Requested(m.server, CText(r.line)))
  }

  // Body bytes that do not reach the length wanted.
  lemma {:induction false} BodyShort(m: Machine, b: string, at: nat)
    requires m.state == DATA && !(m.dataread < m.length <= m.dataread + |b|)
    ensures Run(m, b).state == DATA && Run(m, b).dataread == m.dataread + |b| && Run(m, b).length == m.length
    ensures Run(m, b).server == m.server
    ensures Log(m, b, at) == []
    decreases |b|
  {
    if b != "" {
      BodyShort(Step(m, b[0]), b[1..], at + 1);
    }
  }

  // Body bytes that reach it at the last of them.
  lemma BodyRead(m: Machine, b: string, at: nat)
    requires m.state == DATA && b != "" && m.length == m.dataread + |b|
    ensures Log(m, b, at) == [Call(at + |b| - 1, m.server)]
    ensures var n := Run(m, b);
            && n.state == REQUEST && n.text == "" && n.server == m.server
            && n.length == m.length && n.dataread == m.dataread + |b|
  {
    hide Run, Log;
    var p, z := b[..|b| - 1], b[|b| - 1];
    assert b == p + [z];
    BodyShort(m, p, at);
    RunSnoc(m, p, z, at);
  }

  // Any other length: the last byte calls nothing, or a byte before it calls.
  lemma BodyMisread(m: Machine, b: string, at: nat)
    requires m.state == DATA && b != "" && m.length != m.dataread + |b|
    ensures Log(m, b, at) == [] || Log(m, b, at)[0].at < at + |b| - 1
  {
    hide Run, Log;
    if m.dataread < m.length <= m.dataread + |b| {
      var k := m.length - m.dataread;
      assert b == b[..k] + b[k..];
      BodyRead(m, b[..k], at);
      RunConcat(m, b[..k], b[k..], at);
    } else {
      BodyShort(m, b, at);
    }
  }

  ghost predicate Boundary(m: Machine) {
    m.state == REQUEST && m.text == "" && m.dataread >= 0
  }

  // One request is framed exactly if Clean holds of it; otherwise there is no call, or one before its
  // last byte.
  lemma RequestFramed(m: Machine, r: Request, at: nat)
    requires Boundary(m) && Lined(r)
    ensures Log(m, Print(r), at) == Calls(m.server, [r], at) <==> Clean(m.length, m.dataread, [r])
    ensures Clean(m.length, m.dataread, [r]) ==>
              var n := Run(m, Print(r));
              && Boundary(n) && n.length == Declared(m.length, r.headers)
              && n.dataread == m.dataread + |r.body| && n.server == Requested(m.server, CText(r.line))
    ensures !Clean(m.length, m.dataread, [r]) ==>
              Log(m, Print(r), at) == [] || Log(m, Print(r), at)[0].at < at + |Print(r)| - 1
  {
    hide Run, Log, Requested, CText, Declared, Lined;
    HeadRead(m, r, at);
    var n := Run(m, Head(r));
    var k := at + |Head(r)|;
    RunConcat(m, Head(r), r.body, at);
    assert [r][1..] == [];
    assert Calls(m.server, [r], at) == [Call(k + |r.body| - 1, n.server)];
    assert Log(m, Print(r), at) == Log(m, Head(r), at) + Log(n, r.body, k);
    if r.body == "" {
      EmptyRun(n, k);
    } else if n.length == 0 {
      assert Log(m, Print(r), at)[0].at == k - 1;
    } else {
      assert [] + Log(n, r.body, k) == Log(n, r.body, k);
      if n.length == n.dataread + |r.body| {
        BodyRead(n, r.body, k);
      } else {
        BodyMisread(n, r.body, k);
      }
    }
  }

  // ----- streams -----

  lemma CallsPlaces(server: Server, rs: seq<Request>, at: nat)
    ensures forall i | 0 <= i < |Calls(server, rs, at)| :: at <= Calls(server, rs, at)[i].at
    decreases |rs|
  {
    if rs != [] {
      CallsPlaces(Requested(server, CText(rs[0].line)), rs[1..], at + |Print(rs[0])|);
    }
  }

  lemma SideOf(a: seq<Call>, b: seq<Call>, i: nat, place: nat)
    requires i < |a| + |b|
    requires forall k | 0 <= k < |a| :: a[k].at < place
    requires forall k | 0 <= k < |b| :: b[k].at >= place
    ensures (a + b)[i].at < place <==> i < |a|
  {
  }

  // Two lists of calls that agree agree on both sides of any place.
  lemma SplitAt(a: seq<Call>, b: seq<Call>, c: seq<Call>, d: seq<Call>, place: nat)
    requires a + b == c + d
    requires forall i | 0 <= i < |a| :: a[i].at < place
    requires forall i | 0 <= i < |c| :: c[i].at < place
    requires forall i | 0 <= i < |b| :: b[i].at >= place
    requires forall i | 0 <= i < |d| :: d[i].at >= place
    ensures a == c && b == d
  {
    assert |a + b| == |a| + |b| == |c| + |d|;
    if |a| != |c| {
      var i: nat := if |a| < |c| then |a| else |c|;
      SideOf(a, b, i, place);
      SideOf(c, d, i, place);
    }
    assert a == (a + b)[..|a|] == c;
    assert b == (a + b)[|a|..] == d;
  }

  // The framing law: any stream of requests gives exactly one call for each, at its last byte, with
  // its own method and uri, if and only if Clean holds of it.
  lemma {:induction false} StreamFramed(m: Machine, rs: seq<Request>, at: nat)
    requires Boundary(m) && AllLined(rs)
    ensures Log(m, PrintAll(rs), at) == Calls(m.server, rs, at) <==> Clean(m.length, m.dataread, rs)
    ensures Clean(m.length, m.dataread, rs) ==> Boundary(Run(m, PrintAll(rs)))
    decreases |rs|
  {
    hide Run, Log, Requested, CText, Declared, Lined, Print;
    if rs == [] {
      EmptyRun(m, at);
    } else {
      var r := rs[0];
      var s := Requested(m.server, CText(r.line));
      var p, q := Print(r), PrintAll(rs[1..]);
      var n := Run(m, p);
      FirstOf(m, rs, at);
      hide Clean, Calls, PrintAll;
      RequestFramed(m, r, at);
      RunConcat(m, p, q, at);
      LogPlaces(m, p, at);
      LogPlaces(n, q, at + |p|);
      CallsPlaces(s, rs[1..], at + |p|);
      if Log(m, p + q, at) == Calls(m.server, rs, at) {
        SplitAt(Log(m, p, at), Log(n, q, at + |p|), Calls(m.server, [r], at), Calls(s, rs[1..], at + |p|), at + |p|);
        StreamFramed(n, rs[1..], at + |p|);
      } else if Clean(m.length, m.dataread, [r]) {
        StreamFramed(n, rs[1..], at + |p|);
      }
    }
  }

  // The first request and the rest, in what is printed, wanted and asked.
  lemma FirstOf(m: Machine, rs: seq<Request>, at: nat)
    requires rs != []
    ensures var r, p := rs[0], Print(rs[0]);
            && PrintAll(rs) == p + PrintAll(rs[1..])
            && Calls(m.server, rs, at)
               == Calls(m.server, [r], at) + Calls(Requested(m.server, CText(r.line)), rs[1..], at + |p|)
            && |Calls(m.server, [r], at)| == 1 && Calls(m.server, [r], at)[0].at < at + |p|
            && (Clean(m.length, m.dataread, rs)
                <==> && Clean(m.length, m.dataread, [r])
                     && Clean(Declared(m.length, r.headers), m.dataread + |r.body|, rs[1..]))
  {
    hide Requested, CText, Declared, Print;
    PrintNonEmpty(rs[0]);
    assert [rs[0]][1..] == [];
  }

  lemma PrintNonEmpty(r: Request)
    ensures |Print(r)| > 0
  {
  }

  // ----- a request after an empty line -----

  // The decoder takes the empty line for the request line and the request line for a header.  The
  // request is called rightly exactly if its own line would have left method and uri as they were, and
  // the lengths are right with that line among the headers.
  lemma EmptyLineFramed(m: Machine, r: Request, at: nat)
    requires Boundary(m) && Lined(r) && r.line != ""
    ensures Log(m, CRLF + Print(r), at) == Calls(m.server, [r], at + 2)
            <==> && Requested(m.server, CText(r.line)) == m.server
                 && Declared(m.length, [r.line] + r.headers) == (if r.body == "" then 0 else m.dataread + |r.body|)
  {
    var q := Request("", [r.line] + r.headers, r.body);
    ShiftedPrint(r, q);
    EmptyRequested(m.server);
    assert Lined(q);
    hide Run, Log, Requested, CText, Declared, Lined, Print, Calls;
    RequestFramed(m, q, at);
    assert [q][1..] == [];
    PrintNonEmpty(r);
    OneCall(m.server, q, at);
    OneCall(m.server, r, at + 2);
  }

  lemma OneCall(server: Server, r: Request, at: nat)
    requires |Print(r)| > 0
    ensures Calls(server, [r], at) == [Call(at + |Print(r)| - 1, Requested(server, CText(r.line)))]
  {
    hide Requested, CText, Print;
    assert [r][1..] == [];
  }

  lemma ShiftedPrint(r: Request, q: Request)
    requires q == Request("", [r.line] + r.headers, r.body)
    ensures Print(q) == CRLF + Print(r)
  {
    assert q.headers[1..] == r.headers;
    assert Lines(q.headers) == r.line + CRLF + Lines(r.headers);
  }

  lemma EmptyRequested(server: Server)
    ensures Requested(server, CText("")) == server
  {
  }

  // ----- requests whose lengths the decoder reads as they are meant -----

  // The length the headers declare by the RFC.
  function Meant(length: int, headers: seq<string>): int
    decreases |headers|
  {
    if headers == [] then length
    else Meant(match RfcLength(headers[0]) case Some(v) => v case None => length, headers[1..])
  }

  // A request whose body is as long as its headers say by the RFC.
  ghost predicate Sound(r: Request) {
    Lined(r) && Meant(0, r.headers) == |r.body|
  }

  // And by the decoder, line by line.
  ghost predicate Read(r: Request) {
    forall i | 0 <= i < |r.headers| :: '\0' !in r.headers[i] && Agrees(r.headers[i])
  }

  ghost predicate AllRead(rs: seq<Request>) {
    forall i | 0 <= i < |rs| :: Sound(rs[i]) && Read(rs[i])
  }

  lemma {:induction false} DeclaredMeant(length: int, headers: seq<string>)
    requires forall i | 0 <= i < |headers| :: '\0' !in headers[i] && Agrees(headers[i])
    ensures Declared(length, headers) == Meant(length, headers)
    decreases |headers|
  {
    hide Headed, RfcLength;
    if headers != [] {
      TextIs(headers[0], headers[0], '\0');
      assert Agrees(headers[0]);
      DeclaredMeant(Headed(length, headers[0]), headers[1..]);
    }
  }

  // With a declared length, what was there before does not matter.
  lemma {:induction false} MeantFresh(length: int, headers: seq<string>)
    ensures Meant(length, headers) == Meant(0, headers) || (Meant(length, headers) == length && Meant(0, headers) == 0)
    decreases |headers|
  {
    hide RfcLength;
    if headers != [] && RfcLength(headers[0]).None? {
      MeantFresh(length, headers[1..]);
    }
  }

  // Such a request is framed exactly if its body is the first on the connection, or if it has none and
  // no length is left over.
  lemma ReadClean(length: int, dataread: int, r: Request)
    requires Sound(r) && Read(r)
    ensures Clean(length, dataread, [r])
            <==> if r.body == "" then Meant(length, r.headers) == 0 else dataread == 0
  {
    DeclaredMeant(length, r.headers);
    MeantFresh(length, r.headers);
    assert [r][1..] == [];
    hide Meant, Declared;
  }

  // A connection on which at most the last of such requests has a body is framed correctly.
  lemma LastBodyFramed(rs: seq<Request>)
    requires AllRead(rs) && forall i | 0 <= i < |rs| - 1 :: rs[i].body == ""
    ensures Log(INITIAL, PrintAll(rs), 0) == Calls(INITIAL.server, rs, 0)
  {
    LastBodyClean(rs);
    StreamFramed(INITIAL, rs, 0);
  }

  lemma {:induction false} LastBodyClean(rs: seq<Request>)
    requires AllRead(rs) && forall i | 0 <= i < |rs| - 1 :: rs[i].body == ""
    ensures Clean(0, 0, rs)
    decreases |rs|
  {
    hide Declared, Meant, Read;
    if rs != [] {
      assert Sound(rs[0]) && Read(rs[0]);
      DeclaredMeant2(rs[0]);
      LastBodyClean(rs[1..]);
    }
  }

  lemma DeclaredMeant2(r: Request)
    requires Sound(r) && Read(r)
    ensures Declared(0, r.headers) == |r.body|
  {
    DeclaredMeant(0, r.headers);
  }

  // Two bodies on one connection are never framed correctly.
  lemma SecondBodyMisframed(r1: Request, r2: Request)
    requires Sound(r1) && Read(r1) && Sound(r2) && Read(r2) && r1.body != "" && r2.body != ""
    ensures Log(INITIAL, PrintAll([r1, r2]), 0) != Calls(INITIAL.server, [r1, r2], 0)
  {
    hide Sound, Read, Meant, Declared, Log, PrintAll, Calls;
    var rs := [r1, r2];
    assert rs[1..] == [r2];
    LinedOf(r1);
    LinedOf(r2);
    StreamFramed(INITIAL, rs, 0);
    ReadClean(Declared(0, r1.headers), |r1.body|, r2);
  }

  lemma LinedOf(r: Request)
    requires Sound(r)
    ensures Lined(r)
  {
  }

  // A request with a body is not framed when the decoder misses its length.
  lemma MissedLengthMisframed(r: Request)
    requires Lined(r) && r.body != "" && Declared(0, r.headers) != |r.body|
    ensures Log(INITIAL, Print(r), 0) != Calls(INITIAL.server, [r], 0)
  {
    hide Declared, Log, Calls, Lined;
    RequestFramed(INITIAL, r, 0);
  }
}
