// http_decoder_read of src/http.c over its buffer, with handler_callback behind it.
module HttpDecoders {
  import opened HttpCapacity
  import opened HttpMachine
  import opened Routing
  import opened Handlers
  import Forest

  // The answers to the calls of a log.
  ghost function Replies(history: seq<Registration>, default: Target, calls: seq<Call>): seq<Answer> {
    seq(|calls|, i requires 0 <= i < |calls| =>
      Searched(history, default, calls[i].server.uri, calls[i].server.verb))
  }

  lemma RepliesSnoc(history: seq<Registration>, default: Target, calls: seq<Call>, m: Machine, b: char, at: nat)
    ensures Replies(history, default, calls + Emit(m, b, at))
            == Replies(history, default, calls) + Replies(history, default, Emit(m, b, 0))
  {
    hide Searched, Switch;
  }

  lemma RepliesAnywhere(history: seq<Registration>, default: Target, m: Machine, s: string, at: nat)
    ensures Replies(history, default, Log(m, s, at)) == Replies(history, default, Log(m, s, 0))
  {
    hide Searched;
    LogAnywhere(m, s, at, 0);
  }

  // Where a stream starts does not matter to what its calls ask.
  lemma {:induction false} LogAnywhere(m: Machine, s: string, i: nat, j: nat)
    ensures |Log(m, s, i)| == |Log(m, s, j)|
    ensures forall k | 0 <= k < |Log(m, s, i)| :: Log(m, s, i)[k].server == Log(m, s, j)[k].server
    decreases |s|
  {
    hide Step, Switch;
    if s != "" {
      LogAnywhere(Step(m, s[0]), s[1..], i + 1, j + 1);
    }
  }

  class HttpDecoder {
    const handler: Handler
    const buf: array<char>
    var len: nat
    var startline: bool
    var state: State
    var server: Server
    var contentLength: int
    var dataread: int
    var answers: seq<Answer>

    // http_decoder_init
    constructor (handler: Handler)
      ensures this.handler == handler && fresh(buf) && Valid() && Value() == INITIAL && answers == []
    {
      this.handler := handler;
      buf := new char[BUFFER];
      len, startline, state, server, contentLength, dataread := 0, false, REQUEST, Server("", ""), 0, 0;
      answers := [];
    }

    ghost predicate Valid()
      reads this
    {
      buf.Length == BUFFER && len <= BUFFER
    }

    ghost function Value(): Machine
      requires Valid()
      reads this, buf
    {
      Machine(state, startline, buf[..len], contentLength, dataread, server)
    }

    // The switch on the state.
    method Transition(b: char) returns (action: Action)
      requires Valid()
      modifies this`state, this`dataread
      ensures (state, action) == old(Switch(Value(), b))
      ensures dataread == old(dataread) + if old(state) == DATA then 1 else 0
    {
      action := COPY;
      match state {
        case REQUEST =>
          if b == '\n' {
            state := HEADER;
            action := PARSE_REQUEST;
          } else if b == '\r' {
            action := DROP;
          }
        case HEADER =>
          if b == '\n' {
            if startline {
              if contentLength != 0 {
                state := DATA;
                action := DROP;
              } else {
                state := REQUEST;
                action := HANDLE_REQUEST;
              }
            } else {
              action := PARSE_HEADER;
            }
          } else if b == '\r' {
            action := DROP;
          }
        case DATA =>
          dataread := dataread + 1;
          if dataread == contentLength {
            state := REQUEST;
            action := HANDLE_REQUEST;
          }
      }
    }

    // The switch on the action.
    method Act(action: Action, b: char)
      requires Valid() && handler.Valid()
      requires action == COPY || action == PARSE_REQUEST || action == PARSE_HEADER ==> len < BUFFER
      modifies this`len, this`server, this`contentLength, this`answers, buf
      ensures Valid() && buf[..len] == match action
                                       case COPY => old(buf[..len]) + [b]
                                       case DROP => old(buf[..len])
                                       case _ => ""
      ensures server == if action == PARSE_REQUEST then Requested(old(server), CText(old(buf[..len]))) else old(server)
      ensures contentLength
              == if action == PARSE_HEADER then Headed(old(contentLength), CText(old(buf[..len])))
                 else old(contentLength)
      ensures answers
              == if action == HANDLE_REQUEST
                 then old(answers) + [Searched(handler.history, handler.default, server.uri, server.verb)]
                 else old(answers)
    {
      hide Handler.Valid, Searched, Requested, Headed, CText;
      match action {
        case COPY =>
          buf[len] := b;
          len := len + 1;
        case DROP =>
        case PARSE_REQUEST =>
          server := Requested(server, CText(buf[..len]));
          buf[len] := '\0';
          len := 0;
        case PARSE_HEADER =>
          contentLength := Headed(contentLength, CText(buf[..len]));
          buf[len] := '\0';
          len := 0;
        case HANDLE_REQUEST =>
          var a := handler.Route(server.uri, server.verb);
          answers := answers + [a];
          len := 0;
      }
    }

    // One turn of the loop.
    method Feed(b: char)
      requires Valid() && handler.Valid() && Room(Value(), b)
      modifies this, buf
      ensures Valid() && handler.Valid() && Value() == Step(old(Value()), b)
      ensures answers == old(answers) + Replies(handler.history, handler.default, Emit(old(Value()), b, 0))
    {
      hide Handler.Valid, Searched, Requested, Headed, CText;
      // The handler's validity depends on these nodes; naming them lets the verifier see that this
      // object's own writes leave it alone.
      ghost var footprint := Forest.Footprint(handler.trees);
      var action := Transition(b);
      if b == '\n' {
        startline := true;
      } else if b != '\r' {
        startline := false;
      }
      Act(action, b);
    }

    // http_decoder_read
    method Read(chunk: string)
      requires Valid() && handler.Valid() && Bounded(Value(), chunk)
      modifies this, buf
      ensures Valid() && handler.Valid() && Value() == Run(old(Value()), chunk)
      ensures answers == old(answers) + Replies(handler.history, handler.default, Log(old(Value()), chunk, 0))
    {
      hide Handler.Valid, Searched, Run, Log, Step, Emit;
      ghost var m, was := Value(), answers;
      EmptyRun(m, 0);
      assert chunk[..0] == "" && chunk[0..] == chunk;
      for i := 0 to |chunk|
        invariant Valid() && handler.Valid() && Value() == Run(m, chunk[..i])
        invariant Bounded(Value(), chunk[i..])
        invariant answers == was + Replies(handler.history, handler.default, Log(m, chunk[..i], 0))
      {
        assert chunk[i..][0] == chunk[i] && chunk[i..][1..] == chunk[i + 1..];
        assert chunk[..i + 1] == chunk[..i] + [chunk[i]];
        RunSnoc(m, chunk[..i], chunk[i], 0);
        RepliesSnoc(handler.history, handler.default, Log(m, chunk[..i], 0), Value(), chunk[i], i);
        Feed(chunk[i]);
      }
      assert chunk[..|chunk|] == chunk;
    }
  }
}
