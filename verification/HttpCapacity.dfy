// What the request buffer must hold: the code checks no bound.
module HttpCapacity {
  import opened HttpMachine
  import opened HttpFraming

  const BUFFER := 4096

  // Copying a byte and closing a line both write behind the text.
  ghost predicate Room(m: Machine, b: char) {
    var action := Switch(m, b).1;
    action == COPY || action == PARSE_REQUEST || action == PARSE_HEADER ==> |m.text| < BUFFER
  }

  ghost predicate Bounded(m: Machine, s: string)
    decreases |s|
  {
    s != "" ==> Room(m, s[0]) && Bounded(Step(m, s[0]), s[1..])
  }

  lemma {:induction false} BoundedConcat(m: Machine, a: string, b: string)
    ensures Bounded(m, a + b) <==> Bounded(m, a) && Bounded(Run(m, a), b)
    decreases |a|
  {
    hide Step, Room;
    if a == "" {
      assert a + b == b;
    } else {
      BoundedConcat(Step(m, a[0]), a[1..], b);
      assert (a + b)[1..] == a[1..] + b;
    }
  }

  // Lines of fewer than 4096 characters, and a body of at most one more than that: its last byte is
  // not kept.
  ghost predicate Small(r: Request) {
    && |r.line| < 4096 && |r.body| <= 4097
    && forall i | 0 <= i < |r.headers| :: |r.headers[i]| < 4096
  }

  lemma {:induction false} TextFits(m: Machine, l: string)
    requires m.state != DATA && Plain(l)
    ensures Bounded(m, l) <==> l == "" || |m.text| + |l| <= BUFFER
    decreases |l|
  {
    hide Requested, Headed, CText;
    if l != "" {
      TextFits(Step(m, l[0]), l[1..]);
    }
  }

  lemma LineEndFits(m: Machine)
    requires m.state == REQUEST || (m.state == HEADER && !m.startline)
    ensures Bounded(m, CRLF) <==> |m.text| < BUFFER
  {
    hide Requested, Headed, CText;
    assert CRLF[1..] == "\n" && "\n"[1..] == "";
  }

  lemma LineFits(m: Machine, l: string)
    requires m.text == "" && Plain(l) && (m.state == REQUEST || (m.state == HEADER && l != ""))
    ensures Bounded(m, l + CRLF) <==> |l| < BUFFER
  {
    hide Run, Bounded;
    TextFits(m, l);
    TextRead(m, l, 0);
    assert "" + l == l;
    LineEndFits(Run(m, l));
    BoundedConcat(m, l, CRLF);
  }

  lemma {:induction false} HeadersFit(m: Machine, ls: seq<string>)
    requires m.state == HEADER && m.text == "" && m.startline
    requires forall i | 0 <= i < |ls| :: Plain(ls[i]) && ls[i] != ""
    ensures Bounded(m, Lines(ls)) <==> forall i | 0 <= i < |ls| :: |ls[i]| < BUFFER
    decreases |ls|
  {
    hide Run, Headed, CText, Plain;
    if ls != [] {
      var l := ls[0] + CRLF;
      LineFits(m, ls[0]);
      HeaderLineRead(m, ls[0], 0);
      HeadersFit(Run(m, l), ls[1..]);
      BoundedConcat(m, l, Lines(ls[1..]));
      assert forall i | 0 < i < |ls| :: ls[i] == ls[1..][i - 1];
      assert forall i | 0 <= i < |ls| - 1 :: ls[1..][i] == ls[i + 1];
    }
  }

  lemma BlankFits(m: Machine)
    requires m.state == HEADER && m.text == "" && m.startline
    ensures Bounded(m, CRLF)
  {
    assert CRLF[1..] == "\n" && "\n"[1..] == "";
  }

  lemma HeadFits(m: Machine, r: Request)
    requires m.state == REQUEST && m.text == "" && Lined(r)
    ensures Bounded(m, Head(r)) <==> |r.line| < BUFFER && forall i | 0 <= i < |r.headers| :: |r.headers[i]| < BUFFER
  {
    hide Run, Bounded, Requested, CText, Declared, Lines, Plain;
    var a, b := r.line + CRLF, Lines(r.headers);
    LineFits(m, r.line);
    RequestLineRead(m, r.line, 0);
    var n := Run(m, a);
    HeadersFit(n, r.headers);
    HeadersRead(n, r.headers, 0);
    BlankFits(Run(n, b));
    BoundedConcat(n, b, CRLF);
    BoundedConcat(m, a, b + CRLF);
    assert Head(r) == a + (b + CRLF);
  }

  lemma {:induction false} BodyFits(m: Machine, b: string)
    requires m.state == DATA && b != "" && m.length == m.dataread + |b|
    ensures Bounded(m, b) <==> |b| == 1 || |m.text| + |b| <= BUFFER + 1
    decreases |b|
  {
    if |b| > 1 {
      BodyFits(Step(m, b[0]), b[1..]);
    }
  }

  // A framed request stays within the buffer exactly if it is small.
  lemma RequestFits(m: Machine, r: Request)
    requires Boundary(m) && Lined(r) && Clean(m.length, m.dataread, [r])
    ensures Bounded(m, Print(r)) <==> Small(r)
  {
    hide Run, Bounded, Requested, CText, Declared, Lined;
    HeadFits(m, r);
    HeadRead(m, r, 0);
    var n := Run(m, Head(r));
    BoundedConcat(m, Head(r), r.body);
    if r.body == "" {
      NothingBounded(n);
    } else {
      BodyFits(n, r.body);
    }
  }

  lemma NothingBounded(m: Machine)
    ensures Bounded(m, "")
  {
  }

  lemma {:induction false} StreamFits(m: Machine, rs: seq<Request>)
    requires Boundary(m) && AllLined(rs) && Clean(m.length, m.dataread, rs)
    ensures Bounded(m, PrintAll(rs)) <==> forall i | 0 <= i < |rs| :: Small(rs[i])
    decreases |rs|
  {
    hide Run, Log, Requested, CText, Declared, Lined, Print, Small;
    if rs == [] {
      NothingBounded(m);
    } else {
      FirstOf(m, rs, 0);
      hide Clean, Calls, PrintAll, Bounded;
      var n := Run(m, Print(rs[0]));
      RequestFits(m, rs[0]);
      RequestFramed(m, rs[0], 0);
      StreamFits(n, rs[1..]);
      BoundedConcat(m, Print(rs[0]), PrintAll(rs[1..]));
      assert forall i | 0 < i < |rs| :: rs[i] == rs[1..][i - 1];
      assert forall i | 0 <= i < |rs| - 1 :: rs[1..][i] == rs[i + 1];
    }
  }
}
