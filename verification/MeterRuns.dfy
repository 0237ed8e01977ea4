// From bytes to the store: what whole streams leave behind.
module MeterRuns {
  import opened Crc16
  import opened Telegram
  import opened TelegramFrames
  import opened TelegramChecks
  import opened Obis

  function AllLines(fs: seq<Frame>): seq<Line> {
    if fs == [] then [] else fs[0].lines + AllLines(fs[1..])
  }

  // Printed telegrams, with junk between them, reach the store whole and in order, and the callback
  // sees each of them, whatever the gate's setting.
  lemma StreamStored(decode: Decoder, ignoreCrc: bool, lucky: nat -> bool, store: Store, m: Machine,
                     junk: seq<Line>, fs: seq<Frame>, n: nat)
    requires Ready(m) && |junk| == |fs|
    requires forall i | 0 <= i < |fs| :: FrameOk(fs[i]) && JunkOk(true, junk[i])
    ensures var (last, shown) := Outcome(decode, ignoreCrc, lucky, store, Log(m, Stream(junk, fs)), n);
            last == UpdateRows(decode, store, AllLines(fs)) && |shown| == |fs|
  {
    hide Print;
    hide Body;
    hide Fold;
    StreamRead(m, junk, fs);
    OutcomeRows(decode, ignoreCrc, lucky, store, Records(fs), n);
    RecordsAccepted(ignoreCrc, lucky, fs, n);
    hide Outcome;
    hide Log;
    hide Stream;
  }

  lemma {:induction false} RecordsAccepted(ignoreCrc: bool, lucky: nat -> bool, fs: seq<Frame>, n: nat)
    ensures AcceptedRows(Records(fs), ignoreCrc, lucky, n) == AllLines(fs)
    ensures AcceptedCount(Records(fs), ignoreCrc, lucky, n) == |fs|
    decreases |fs|
  {
    hide Body;
    hide Digits;
    hide Fold;
    if fs != [] {
      PrintedAccepted(fs[0], lucky(n));
      RecordsAccepted(ignoreCrc, lucky, fs[1..], n + 1);
      assert Records(fs)[1..] == Records(fs[1..]);
    }
  }

  function AllRows(log: seq<Record>): seq<Line> {
    if log == [] then [] else log[0].rows + AllRows(log[1..])
  }

  // With the option to ignore checksums every record is processed, whatever its checksum says.
  lemma {:induction false} UncheckedStored(decode: Decoder, lucky: nat -> bool, store: Store, log: seq<Record>, n: nat)
    ensures var (last, shown) := Outcome(decode, true, lucky, store, log, n);
            && last == UpdateRows(decode, store, AllRows(log)) && |shown| == |log|
            && (log != [] ==> shown[|log| - 1] == last)
    decreases |log|
  {
    hide UpdateRows, Matches;
    if log == [] {
      NoRows(decode, store);
    } else {
      var after := UpdateRows(decode, store, log[0].rows);
      UncheckedStored(decode, lucky, after, log[1..], n + 1);
      UpdateRowsConcat(decode, store, log[0].rows, AllRows(log[1..]));
    }
  }

  lemma NoRows(decode: Decoder, store: Store)
    ensures UpdateRows(decode, store, []) == store
  {
  }

  // A damaged telegram leaves the store as it was and the callback does not run, exactly when the
  // gate refuses it.
  lemma DamageIgnored(decode: Decoder, lucky: nat -> bool, store: Store, m: Machine,
                      p: Line, a: Line, b: Line, s: Line, n: nat)
    requires Ready(m) && |a| == |b| <= 2 && a != b && Framed(m, p + b + s)
    ensures var sent, at := Hex4(Fold(0, p + a + s)), Run(m, p + b + s).location;
            var text := Shown(m.crcbuf, at, sent);
            Outcome(decode, false, lucky, store, Log(m, p + b + s + sent + EOL), n) == (store, [])
            <==> at == 0 || (text != [] && !Matches(text, Fold(0, p + b + s), lucky(n)))
  {
    hide Fold, Hex4, Log, Run, Accept, Shown, Matches, Framed, Ready, UpdateRows;
    DamageIff(m, p, a, b, s, lucky(n));
    var log := Log(m, p + b + s + Hex4(Fold(0, p + a + s)) + EOL);
    assert log == [log[0]];
    OutcomeOne(decode, false, lucky, store, log[0], n);
  }

  // It always does on a stream in which every carriage return, in the damaged bytes too, is followed
  // by a line feed: then no line can be left unfinished at the bang.
  lemma CrlfDamageIgnored(decode: Decoder, lucky: nat -> bool, store: Store, before: Line,
                          p: Line, a: Line, b: Line, s: Line, n: nat)
    requires Ready(Run(INITIAL, before)) && |a| == |b| <= 2 && a != b
    requires Framed(Run(INITIAL, before), p + b + s) && Crlf(before + (p + b + s))
    ensures var m := Run(INITIAL, before);
            var sent := Hex4(Fold(0, p + a + s));
            Outcome(decode, false, lucky, store, Log(m, p + b + s + sent + EOL), n) == (store, [])
  {
    hide Fold;
    hide Hex4;
    hide Log;
    hide Run;
    hide Crlf;
    hide Ready;
    hide Outcome;
    var body := p + b + s;
    CrlfBang(before + body);
    RunConcat(INITIAL, before, body);
    FramedEnd(Run(INITIAL, before), body);
    DamageIgnored(decode, lucky, store, Run(INITIAL, before), p, a, b, s, n);
  }

  // After any bytes at all: the keys are the known references of the accepted telegrams, and each
  // value is the last one that decoded.
  lemma RunStore(decode: Decoder, ignoreCrc: bool, lucky: nat -> bool, s: Line, k: Key)
    ensures var rows := AcceptedRows(Log(INITIAL, s), ignoreCrc, lucky, 0);
            var store := Outcome(decode, ignoreCrc, lucky, map[], Log(INITIAL, s), 0).0;
            && (k in store <==> Occurs(rows, k))
            && (k in store ==> Known(k) && store[k] == Latest(LastValue(decode, rows, k), map[], k))
  {
    hide KeyOf;
    hide ValueOf;
    hide Log;
    hide Accept;
    hide Known;
    OutcomeRows(decode, ignoreCrc, lucky, map[], Log(INITIAL, s), 0);
    var rows := AcceptedRows(Log(INITIAL, s), ignoreCrc, lucky, 0);
    StoreContents(decode, map[], rows, k);
    StoreKnown(decode, map[], rows);
    hide Outcome;
    hide UpdateRows;
  }

  // Feeding more only adds keys.
  lemma KeysGrow(decode: Decoder, ignoreCrc: bool, lucky: nat -> bool, a: Line, b: Line, k: Key)
    requires k in Outcome(decode, ignoreCrc, lucky, map[], Log(INITIAL, a), 0).0
    ensures k in Outcome(decode, ignoreCrc, lucky, map[], Log(INITIAL, a + b), 0).0
  {
    hide Log;
    hide Run;
    hide Accept;
    hide KeyOf;
    hide ValueOf;
    RunConcat(INITIAL, a, b);
    var la, lb := Log(INITIAL, a), Log(Run(INITIAL, a), b);
    var s := Outcome(decode, ignoreCrc, lucky, map[], la, 0).0;
    OutcomeConcat(decode, ignoreCrc, lucky, map[], la, lb, 0);
    OutcomeRows(decode, ignoreCrc, lucky, s, lb, |la|);
    StoreContents(decode, s, AcceptedRows(lb, ignoreCrc, lucky, |la|), k);
    hide Outcome;
    hide UpdateRows;
  }
}
