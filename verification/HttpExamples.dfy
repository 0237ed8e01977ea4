// Requests that a client may send and that the decoder does not frame as they are meant.
module HttpExamples {
  import opened CStrings
  import opened HttpFields
  import opened HttpFraming
  import opened HttpMachine
  import opened HttpService
  import opened Options

  const POST_LINE := RequestLine("POST", "/x", "HTTP/1.1")

  function LengthLine(name: string, space: string): string {
    name + [':'] + (space + "1")
  }

  // A request with the one body byte that its header declares.
  function Post(name: string, space: string): Request {
    Request(POST_LINE, [LengthLine(name, space)], "x")
  }

  lemma PostLined(name: string, space: string)
    requires Plain(name) && (space == "" || space == " ")
    ensures Lined(Post(name, space))
  {
    assert Plain(LengthLine(name, space));
  }

  // With the name in any case and with or without the space it is sound.
  lemma PostSound(name: string, space: string)
    requires Plain(name) && ':' !in name && SameName(name, NAME) && (space == "" || space == " ")
    ensures Sound(Post(name, space)) && RfcLength(LengthLine(name, space)) == Some(1)
  {
    OneDigit();
    hide RfcLength, Lined, SameName, Digits, Decimal;
    PostLined(name, space);
    FieldRead(name, space, "1");
    OneHeader(LengthLine(name, space));
  }

  lemma OneDigit()
    ensures Decimal("1") && Digits("1", 0) == 1
  {
  }

  lemma OneHeader(text: string)
    requires RfcLength(text) == Some(1)
    ensures Meant(0, [text]) == 1
  {
    hide RfcLength;
    assert [text][1..] == [];
    assert Meant(1, [text][1..]) == 1;
  }

  lemma PlainNames()
    ensures Plain(NAME) && Plain(LOWER_CASE)
  {
  }

  // Twice the request in the decoder's own spelling: the second is not framed.
  lemma TwoPosts()
    ensures var r := Post(NAME, " ");
            && Sound(r) && Read(r)
            && Log(INITIAL, PrintAll([r, r]), 0) != Calls(INITIAL.server, [r, r], 0)
  {
    NameDiffers();
    PlainNames();
    PostSound(NAME, " ");
    PostRead();
    hide Sound, Read, Log, PrintAll, Calls, Post;
    SecondBodyMisframed(Post(NAME, " "), Post(NAME, " "));
  }

  lemma PostRead()
    ensures Read(Post(NAME, " ")) && Post(NAME, " ").body != ""
  {
    OneDigit();
    NameDiffers();
    NoNul();
    hide RfcLength, SameName, Noticed, ValueText, Agrees, NAME, Digits, Decimal;
    FieldRead(NAME, " ", "1");
    AgreesIff(LengthLine(NAME, " "));
    assert |TrimRight("1")| <= 1;
    hide LengthLine, TrimRight;
  }

  lemma NoNul()
    ensures '\0' !in LengthLine(NAME, " ") && '\0' !in LengthLine(NAME, "") && '\0' !in LengthLine(LOWER_CASE, " ")
  {
  }

  // Once, with the name in lower case or without the space: the body is missed.
  lemma LengthMissedPosts()
    ensures var r := Post(LOWER_CASE, " ");
            Sound(r) && Log(INITIAL, Print(r), 0) != Calls(INITIAL.server, [r], 0)
    ensures var r := Post(NAME, "");
            Sound(r) && Log(INITIAL, Print(r), 0) != Calls(INITIAL.server, [r], 0)
  {
    NameDiffers();
    PlainNames();
    OneDigit();
    NoNul();
    hide RfcLength, SameName, Noticed, ValueText, NAME, LOWER_CASE, Digits, Decimal, Sound, Log, Calls, Print;
    PostSound(LOWER_CASE, " ");
    FieldRead(LOWER_CASE, " ", "1");
    Missed(LOWER_CASE, " ");
    PostSound(NAME, "");
    FieldRead(NAME, "", "1");
    Missed(NAME, "");
  }

  lemma Missed(name: string, space: string)
    requires Sound(Post(name, space)) && !Noticed(LengthLine(name, space)) && '\0' !in LengthLine(name, space)
    ensures Log(INITIAL, Print(Post(name, space)), 0) != Calls(INITIAL.server, [Post(name, space)], 0)
  {
    var r := Post(name, space);
    LinedOf(r);
    NothingDeclared(LengthLine(name, space));
    hide Declared, Sound, Log, Calls, Lined, Print;
    MissedLengthMisframed(r);
  }

  lemma NothingDeclared(text: string)
    requires !Noticed(text) && '\0' !in text
    ensures Declared(0, [text]) == 0
  {
    TextIs(text, text, '\0');
    HeadedIs(0, text);
    hide Headed, Noticed;
    assert [text][1..] == [];
    assert Declared(0, [text][1..]) == 0;
  }

  // The first request of a connection after an empty line: its method and uri are lost.
  lemma EmptyLineMisread(r: Request, verb: string, uri: string)
    requires Asks(r.line, verb, uri) && verb != "" && Lined(r)
    ensures Log(INITIAL, CRLF + Print(r), 0) != Calls(INITIAL.server, [r], 2)
  {
    FreshBoundary();
    hide *;
    AskedLine(r.line, verb, uri);
    LineParsed(INITIAL.server, r.line, verb, uri);
    EmptyLineFramed(INITIAL, r, 0);
  }

  lemma AskedLine(line: string, verb: string, uri: string)
    requires Asks(line, verb, uri)
    ensures line != ""
  {
  }

  const GET_LINE := RequestLine("GET", "/api", "HTTP/1.1")

  lemma EmptyLineGet()
    ensures var r := Request(GET_LINE, [], "");
            Lined(r) && Log(INITIAL, CRLF + Print(r), 0) != Calls(INITIAL.server, [r], 2)
  {
    assert Asks(GET_LINE, "GET", "/api");
    assert Plain(GET_LINE);
    hide Log, Calls, Print;
    EmptyLineMisread(Request(GET_LINE, [], ""), "GET", "/api");
  }

  // The same request without the empty line, byte by byte: one call, at its last byte.
  lemma PlainGet()
    ensures Log(INITIAL, "GET /api HTTP/1.1\r\n\r\n", 0) == [Call(20, Server("GET", "/api"))]
  {
    hide Log, Print, CText, Requested, Asks, Plain;
    GetAsks();
    GetText();
    PlainGetFramed(Request(GET_LINE, [], ""));
    LineParsed(INITIAL.server, GET_LINE, "GET", "/api");
  }

  lemma GetAsks()
    ensures Asks(GET_LINE, "GET", "/api") && Plain(GET_LINE)
  {
    assert GET_LINE == RequestLine("GET", "/api", "HTTP/1.1");
  }

  lemma GetText()
    ensures GET_LINE == "GET /api HTTP/1.1" && |GET_LINE| == 17
    ensures Print(Request(GET_LINE, [], "")) == "GET /api HTTP/1.1\r\n\r\n"
  {
    LineText();
    hide GET_LINE;
    assert Lines([]) == "";
    assert "GET /api HTTP/1.1" + CRLF + "" + CRLF + "" == "GET /api HTTP/1.1\r\n\r\n";
  }

  lemma LineText()
    ensures GET_LINE == "GET /api HTTP/1.1"
  {
    assert "GET" + " " + "/api" + " " == "GET /api ";
  }

  lemma PlainGetFramed(r: Request)
    requires Lined(r) && r.headers == [] && r.body == ""
    ensures Log(INITIAL, Print(r), 0) == [Call(|Print(r)| - 1, Requested(INITIAL.server, CText(r.line)))]
  {
    hide Log, Print, Requested, CText;
    assert Clean(0, 0, [r]) by {
      assert [r][1..] == [];
    }
    RequestFramed(INITIAL, r, 0);
    PrintNonEmpty(r);
    OneCall(INITIAL.server, r, 0);
  }
}
