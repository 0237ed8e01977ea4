// dispatch_handle_events as a function of what select and the callbacks answer: the pass over the
// ready descriptors, the shutdown pass after a signal, and the loop around them.
module EventPasses {
  import opened LinkedList
  import opened Hooks

  // What a callback answers, and the hooks registered while it ran.
  datatype Reaction = Reaction(rval: int, added: seq<Hook>)

  type React = (Hook, Which) -> Reaction

  // ----- one hook -----

  // The result after the read, write and except callbacks: each is called when its bit is set and
  // the one before did not fail.
  function After1(h: Hook, sel: Sets, react: React, w: Which, rval: int): int {
    if rval >= 0 && h.fd in sel.Of(w) then react(h, w).rval else rval
  }

  function Opens1(h: Hook, sel: Sets, react: React, w: Which, rval: int): seq<Hook> {
    if rval >= 0 && h.fd in sel.Of(w) then react(h, w).added else []
  }

  function Rval(h: Hook, sel: Sets, react: React): int {
    After1(h, sel, react, Except, After1(h, sel, react, Write, After1(h, sel, react, Read, 0)))
  }

  function Opens(h: Hook, sel: Sets, react: React): seq<Hook> {
    var r := After1(h, sel, react, Read, 0);
    Opens1(h, sel, react, Read, 0) + Opens1(h, sel, react, Write, r)
    + Opens1(h, sel, react, Except, After1(h, sel, react, Write, r))
  }

  // A ready callback fails.
  ghost predicate Fails(h: Hook, sel: Sets, react: React) {
    exists w: Which :: h.fd in sel.Of(w) && react(h, w).rval < 0
  }

  function Order(w: Which): nat {
    match w
    case Read => 0
    case Write => 1
    case Except => 2
  }

  // A ready callback before which none fails.
  ghost predicate Runs(h: Hook, sel: Sets, react: React, w: Which) {
    && h.fd in sel.Of(w)
    && forall v: Which | Order(v) < Order(w) && h.fd in sel.Of(v) :: react(h, v).rval >= 0
  }

  // What those register, in the order read, write, except.
  ghost function Registers(h: Hook, sel: Sets, react: React): seq<Hook> {
    (if Runs(h, sel, react, Read) then react(h, Read).added else [])
    + (if Runs(h, sel, react, Write) then react(h, Write).added else [])
    + (if Runs(h, sel, react, Except) then react(h, Except).added else [])
  }

  // The chain of callbacks fails exactly if a ready one does, and registers what the ones before the
  // first failure and that one register.
  lemma ChainIs(h: Hook, sel: Sets, react: React)
    ensures Rval(h, sel, react) < 0 <==> Fails(h, sel, react)
    ensures Opens(h, sel, react) == Registers(h, sel, react)
  {
    var a := After1(h, sel, react, Read, 0);
    assert a < 0 <==> h.fd in sel.Of(Read) && react(h, Read).rval < 0;
    assert Runs(h, sel, react, Read) <==> h.fd in sel.Of(Read);
    assert Runs(h, sel, react, Write) <==> h.fd in sel.Of(Write) && a >= 0;
    var b := After1(h, sel, react, Write, a);
    assert Runs(h, sel, react, Except) <==> h.fd in sel.Of(Except) && b >= 0;
    if Fails(h, sel, react) {
      var w: Which :| h.fd in sel.Of(w) && react(h, w).rval < 0;
      assert w == Read || w == Write || w == Except;
    }
  }

  ghost function Opened(t: Table, hs: seq<Hook>): Table
    decreases |hs|
  {
    if hs == [] then t else Opened(Registered(t, hs[0]), hs[1..])
  }

  // A failed hook is closed by its close callback, or unregistered when it has none.
  ghost function Closed(t: Table, h: Hook): Table {
    if h.closing == ByData then UnregisteredForData(t, h.data) else Unregistered(t, h)
  }

  ghost function Served(t: Table, h: Hook, sel: Sets, react: React): Table {
    var u := Opened(t, Opens(h, sel, react));
    if Rval(h, sel, react) < 0 then Closed(u, h) else u
  }

  // ----- the passes over a snapshot s -----

  ghost function Pass(t: Table, s: seq<Hook>, sel: Sets, react: React): Table
    decreases |s|
  {
    if s == [] then t else Pass(Served(t, s[0], sel, react), s[1..], sel, react)
  }

  ghost function Shut(t: Table, h: Hook): Table {
    if h.closing == NoClose then t else Closed(t, h)
  }

  ghost function ShutPass(t: Table, s: seq<Hook>): Table
    decreases |s|
  {
    if s == [] then t else ShutPass(Shut(t, s[0]), s[1..])
  }

  // Hooks registered during a pass use descriptors and data not in use at that moment.
  ghost predicate OpensAllowed(t: Table, hs: seq<Hook>)
    decreases |hs|
  {
    hs == [] || (Unused(t, hs[0]) && OpensAllowed(Registered(t, hs[0]), hs[1..]))
  }

  ghost predicate PassAllowed(t: Table, s: seq<Hook>, sel: Sets, react: React)
    decreases |s|
  {
    s == [] || (OpensAllowed(t, Opens(s[0], sel, react))
                && PassAllowed(Served(t, s[0], sel, react), s[1..], sel, react))
  }

  // ----- what the passes achieve -----

  ghost function Kept(s: seq<Hook>, sel: Sets, react: React): seq<Hook> {
    if s == [] then []
    else (if Fails(s[0], sel, react) then [] else [s[0]]) + Kept(s[1..], sel, react)
  }

  ghost function AllOpens(s: seq<Hook>, sel: Sets, react: React): seq<Hook> {
    if s == [] then [] else Registers(s[0], sel, react) + AllOpens(s[1..], sel, react)
  }

  ghost function Unclosable(s: seq<Hook>): seq<Hook> {
    if s == [] then [] else (if s[0].closing == NoClose then [s[0]] else []) + Unclosable(s[1..])
  }

  lemma {:induction false} OpenedConcat(t: Table, a: seq<Hook>, b: seq<Hook>)
    ensures Opened(t, a + b) == Opened(Opened(t, a), b)
    decreases |a|
  {
    hide Registered;
    if a == [] {
      assert a + b == b;
    } else {
      OpenedConcat(Registered(t, a[0]), a[1..], b);
      assert (a + b)[1..] == a[1..] + b;
    }
  }

  lemma {:induction false} OpenedInv(t: Table, hs: seq<Hook>)
    requires Inv(t) && OpensAllowed(t, hs)
    ensures Inv(Opened(t, hs)) && Opened(t, hs).hooks == t.hooks + hs
    decreases |hs|
  {
    hide Inv, Registered, Unused;
    if hs != [] {
      RegisterKeepsInv(t, hs[0]);
      OpenedInv(Registered(t, hs[0]), hs[1..]);
    }
  }

  lemma RestAt(hooks: seq<Hook>, k: nat)
    requires DistinctFds(hooks) && k < |hooks|
    ensures Rest(hooks, hooks[k]) == Without(hooks, k)
  {
    PlaceIs(hooks, hooks[k], Differ, k);
  }

  lemma ClosedIsUnregistered(t: Table, k: nat)
    requires Inv(t) && k < |t.hooks|
    ensures Closed(t, t.hooks[k]) == Unregistered(t, t.hooks[k])
    ensures Inv(Closed(t, t.hooks[k])) && Closed(t, t.hooks[k]).hooks == Without(t.hooks, k)
  {
    hide SetsAgree, Unregistered, UnregisteredForData, Rest, Without;
    UnregisterForDataKeepsInv(t, t.hooks[k].data);
    UnregisterKeepsInv(t, t.hooks[k]);
    RestAt(t.hooks, k);
  }

  // One hook of a pass: what it added is added, and the hook itself goes if a callback failed.
  lemma ServedInv(t: Table, k: nat, sel: Sets, react: React)
    requires Inv(t) && k < |t.hooks| && OpensAllowed(t, Opens(t.hooks[k], sel, react))
    ensures Inv(Served(t, t.hooks[k], sel, react))
    ensures Served(t, t.hooks[k], sel, react).hooks
            == (if Fails(t.hooks[k], sel, react) then Without(t.hooks, k) else t.hooks)
               + Registers(t.hooks[k], sel, react)
  {
    hide Inv, Closed, Opens, Rval, Fails, Registers, Opened, OpensAllowed, Without;
    var h := t.hooks[k];
    ChainIs(h, sel, react);
    var o := Opens(h, sel, react);
    OpenedInv(t, o);
    var u := Opened(t, o);
    assert u.hooks[k] == h;
    ClosedIsUnregistered(u, k);
    WithoutAppend(t.hooks, o, k);
  }

  lemma WithoutAppend(s: seq<Hook>, o: seq<Hook>, k: nat)
    requires k < |s|
    ensures Without(s + o, k) == Without(s, k) + o
  {
  }

  lemma WithoutMiddle(kept: seq<Hook>, h: Hook, s: seq<Hook>, added: seq<Hook>)
    ensures Without(kept + [h] + s + added, |kept|) == kept + s + added
  {
  }

  lemma {:induction false} PassFrom(t: Table, kept: seq<Hook>, s: seq<Hook>, added: seq<Hook>, sel: Sets, react: React)
    requires Inv(t) && t.hooks == kept + s + added && PassAllowed(t, s, sel, react)
    ensures Inv(Pass(t, s, sel, react))
    ensures Pass(t, s, sel, react).hooks == kept + Kept(s, sel, react) + added + AllOpens(s, sel, react)
    decreases |s|
  {
    hide Inv, Served, Opens, Rval, Fails, Registers, OpensAllowed, Without, Registered, Kept, AllOpens;
    KeptFirst(s, sel, react);
    if s == [] {
      assert kept + [] + added + [] == kept + [] + added;
    } else {
      var h := s[0];
      var x, o := if Fails(h, sel, react) then [] else [h], Registers(h, sel, react);
      ChainIs(h, sel, react);
      assert t.hooks[|kept|] == h;
      ServedInv(t, |kept|, sel, react);
      ServedMiddle(t.hooks, kept, s, added, x, o);
      PassFrom(Served(t, h, sel, react), kept + x, s[1..], added + o, sel, react);
      Regrouped(kept, x, Kept(s[1..], sel, react), added, o, AllOpens(s[1..], sel, react));
    }
  }

  lemma KeptFirst(s: seq<Hook>, sel: Sets, react: React)
    ensures s == [] ==> Kept(s, sel, react) == [] && AllOpens(s, sel, react) == []
    ensures s != [] ==>
              && Kept(s, sel, react) == (if Fails(s[0], sel, react) then [] else [s[0]]) + Kept(s[1..], sel, react)
              && AllOpens(s, sel, react) == Registers(s[0], sel, react) + AllOpens(s[1..], sel, react)
  {
    hide Fails, Registers;
  }

  // What the first hook of the rest leaves.
  lemma ServedMiddle(hooks: seq<Hook>, kept: seq<Hook>, s: seq<Hook>, added: seq<Hook>, x: seq<Hook>, o: seq<Hook>)
    requires s != [] && hooks == kept + s + added && (x == [] || x == [s[0]])
    ensures (if x == [] then Without(hooks, |kept|) else hooks) + o == kept + x + s[1..] + (added + o)
  {
    var rest := s[1..];
    assert s == [s[0]] + rest;
    assert hooks == kept + [s[0]] + rest + added;
    if x == [] {
      WithoutMiddle(kept, s[0], rest, added);
      assert kept + x == kept;
    }
  }

  lemma Regrouped(kept: seq<Hook>, x: seq<Hook>, k: seq<Hook>, added: seq<Hook>, o: seq<Hook>, a: seq<Hook>)
    ensures kept + x + k + (added + o) + a == kept + (x + k) + added + (o + a)
  {
    assert kept + x + k == kept + (x + k);
    var l := kept + (x + k);
    assert l + (added + o) + a == l + added + (o + a);
  }

  // A pass over the hooks registered when it starts leaves those whose callbacks did not fail, in
  // order, followed by the hooks added meanwhile, none of which was called.
  lemma PassResult(t: Table, sel: Sets, react: React)
    requires Inv(t) && PassAllowed(t, t.hooks, sel, react)
    ensures Inv(Pass(t, t.hooks, sel, react))
    ensures Pass(t, t.hooks, sel, react).hooks == Kept(t.hooks, sel, react) + AllOpens(t.hooks, sel, react)
  {
    hide *;
    PassFrom(t, [], t.hooks, [], sel, react);
    assert [] + t.hooks + [] == t.hooks;
    var kept, new_ := Kept(t.hooks, sel, react), AllOpens(t.hooks, sel, react);
    assert [] + kept + [] + new_ == kept + new_;
  }

  // When every hook has a close callback, the shutdown pass empties the list.  Nothing is asked of
  // the descriptors or data: the hook being closed always stands at the head.
  lemma {:induction false} ShutdownEmpties(t: Table)
    requires forall i | 0 <= i < |t.hooks| :: t.hooks[i].closing != NoClose
    ensures ShutPass(t, t.hooks).hooks == []
    decreases |t.hooks|
  {
    var s := t.hooks;
    if s != [] {
      PlaceIs(s, s[0], Differ, 0);
      assert OwnerOf(s, s[0].data) == 0;
      var u := Shut(t, s[0]);
      assert u.hooks == s[1..];
      ShutdownEmpties(u);
    }
  }

  // One hook of the shutdown pass.
  lemma ShutInv(t: Table, kept: seq<Hook>, h: Hook, s: seq<Hook>)
    requires Inv(t) && t.hooks == kept + [h] + s
    ensures Inv(Shut(t, h))
    ensures Shut(t, h).hooks == kept + Unclosable([h]) + s
  {
    hide Inv, Closed, Without;
    assert t.hooks[|kept|] == h;
    if h.closing != NoClose {
      ClosedIsUnregistered(t, |kept|);
      assert kept + [h] + s + [] == kept + [h] + s;
      WithoutMiddle(kept, h, s, []);
      assert kept + s + [] == kept + Unclosable([h]) + s;
    }
  }

  lemma {:induction false} ShutFrom(t: Table, kept: seq<Hook>, s: seq<Hook>)
    requires Inv(t) && t.hooks == kept + s
    ensures Inv(ShutPass(t, s)) && ShutPass(t, s).hooks == kept + Unclosable(s)
    decreases |s|
  {
    hide Inv, Shut, Unclosable;
    UnclosableFirst(s);
    if s == [] {
      assert kept + s == kept;
      assert kept + Unclosable(s) == kept;
    } else {
      assert kept + s == kept + [s[0]] + s[1..];
      ShutInv(t, kept, s[0], s[1..]);
      var k, rest := Unclosable([s[0]]), Unclosable(s[1..]);
      ShutFrom(Shut(t, s[0]), kept + k, s[1..]);
      assert kept + k + rest == kept + (k + rest);
    }
  }

  lemma UnclosableFirst(s: seq<Hook>)
    ensures if s == [] then Unclosable(s) == [] else Unclosable(s) == Unclosable([s[0]]) + Unclosable(s[1..])
  {
    if s != [] {
      UnclosableOne(s[0]);
    }
  }

  lemma UnclosableOne(h: Hook)
    ensures Unclosable([h]) == if h.closing == NoClose then [h] else []
  {
    assert [h][1..] == [];
    assert Unclosable([]) == [];
  }

  lemma {:induction false} UnclosableEmpty(s: seq<Hook>)
    ensures Unclosable(s) == [] <==> forall i | 0 <= i < |s| :: s[i].closing != NoClose
  {
    if s != [] {
      UnclosableEmpty(s[1..]);
      assert forall i | 0 < i < |s| :: s[i] == s[1..][i - 1];
      assert forall i | 0 <= i < |s| - 1 :: s[1..][i] == s[i + 1];
    }
  }

  // With distinct descriptors and data the pass leaves exactly the hooks without a close callback.
  lemma ShutdownLeaves(t: Table)
    requires Inv(t)
    ensures Inv(ShutPass(t, t.hooks)) && ShutPass(t, t.hooks).hooks == Unclosable(t.hooks)
    ensures ShutPass(t, t.hooks).hooks == [] <==> forall i | 0 <= i < |t.hooks| :: t.hooks[i].closing != NoClose
  {
    hide Inv;
    ShutFrom(t, [], t.hooks);
    UnclosableEmpty(t.hooks);
  }

  // ----- the loop -----

  // What one turn of the loop meets: select fails, is interrupted, or offers descriptors; then the
  // callbacks of timers that are due may register hooks, and by the end of the turn a signal may have
  // arrived or a callback may have called dispatch_quit.
  datatype Round =
    | Failed
    | Interrupted(signalled: bool)
    | Ready(offered: Sets, react: React, timed: seq<Hook>, signalled: bool, quits: bool)

  datatype Loop = Loop(t: Table, done: bool, signal: bool, broken: bool) {
    ghost predicate Ends() {
      broken || (done && t.hooks == [])
    }
  }

  ghost function Passed(l: Loop, r: Round): Table
    requires r.Ready?
  {
    Pass(l.t, l.t.hooks, Selected(l.t.sets, l.t.nfds, r.offered), r.react)
  }

  // After the pass and the timers.
  ghost function Timed(l: Loop, r: Round): Table
    requires r.Ready?
  {
    Opened(Passed(l, r), r.timed)
  }

  ghost function Turn(l: Loop, r: Round): Loop {
    match r
    case Failed => l.(done := true, broken := true)
    case Interrupted(signalled) => l.(signal := l.signal || signalled)
    case Ready(_, _, _, signalled, quits) =>
      var t := Timed(l, r);
      if l.signal || signalled then Loop(ShutPass(t, t.hooks), true, true, l.broken)
      else Loop(t, l.done || quits, false, l.broken)
  }

  ghost function Turns(l: Loop, rounds: seq<Round>): Loop
    decreases |rounds|
  {
    if rounds == [] || l.Ends() then l else Turns(Turn(l, rounds[0]), rounds[1..])
  }

  ghost predicate TurnAllowed(l: Loop, r: Round) {
    r.Ready? ==>
      && PassAllowed(l.t, l.t.hooks, Selected(l.t.sets, l.t.nfds, r.offered), r.react)
      && OpensAllowed(Passed(l, r), r.timed)
  }

  ghost predicate TurnsAllowed(l: Loop, rounds: seq<Round>)
    decreases |rounds|
  {
    rounds == [] || l.Ends() || (TurnAllowed(l, rounds[0]) && TurnsAllowed(Turn(l, rounds[0]), rounds[1..]))
  }

  lemma TurnInv(l: Loop, r: Round)
    requires Inv(l.t) && TurnAllowed(l, r)
    ensures Inv(Turn(l, r).t)
  {
    hide Inv, ShutPass, Opened, Passed;
    if r.Ready? {
      TimedInv(l, r);
      ShutdownLeaves(Timed(l, r));
    }
  }

  lemma TimedInv(l: Loop, r: Round)
    requires Inv(l.t) && r.Ready? && TurnAllowed(l, r)
    ensures Inv(Timed(l, r)) && Timed(l, r).hooks == Passed(l, r).hooks + r.timed
  {
    hide Inv, Pass, PassAllowed, Opened, OpensAllowed;
    PassResult(l.t, Selected(l.t.sets, l.t.nfds, r.offered), r.react);
    OpenedInv(Passed(l, r), r.timed);
  }

  // The invariant holds after any number of turns.
  lemma {:induction false} TurnsInv(l: Loop, rounds: seq<Round>)
    requires Inv(l.t) && TurnsAllowed(l, rounds)
    ensures Inv(Turns(l, rounds).t)
    decreases |rounds|
  {
    hide Inv, Turn, TurnAllowed;
    if rounds != [] && !l.Ends() {
      TurnInv(l, rounds[0]);
      TurnsInv(Turn(l, rounds[0]), rounds[1..]);
    }
  }

  ghost predicate Signalled(rounds: seq<Round>) {
    exists i | 0 <= i < |rounds| :: !rounds[i].Failed? && rounds[i].signalled
  }

  lemma SignalOnly(l: Loop, signal: bool, r: Round)
    requires r.Ready?
    ensures var n := l.(signal := signal);
            Timed(n, r) == Timed(l, r) && (TurnAllowed(n, r) <==> TurnAllowed(l, r))
  {
  }

  lemma TurnsOne(l: Loop, r: Round)
    requires !l.Ends()
    ensures Turns(l, [r]) == Turn(l, r)
  {
    hide Turn;
    assert [r][1..] == [];
  }

  // After a signal, the first turn whose select answers ends the loop, exactly if every hook then
  // registered has a close callback.  The signal may have come before, or have interrupted one of
  // the turns in between, which change nothing else.
  lemma {:induction false} SignalEndsLoop(l: Loop, idle: nat, rounds: seq<Round>)
    requires Inv(l.t) && !l.Ends() && idle < |rounds| && rounds[idle].Ready?
    requires forall i | 0 <= i < idle :: rounds[i].Interrupted?
    requires TurnAllowed(l, rounds[idle]) && (l.signal || Signalled(rounds[..idle + 1]))
    ensures var t := Timed(l, rounds[idle]);
            Turns(l, rounds[..idle + 1]).Ends()
            <==> forall i | 0 <= i < |t.hooks| :: t.hooks[i].closing != NoClose
    decreases idle
  {
    hide Inv, ShutPass, Timed, TurnAllowed;
    var first := rounds[..idle + 1];
    if idle > 0 {
      var n := Turn(l, first[0]);
      assert first[1..] == rounds[1..][..idle];
      if Signalled(first) && !first[0].signalled {
        var i :| 0 <= i < |first| && !first[i].Failed? && first[i].signalled;
        assert first[1..][i - 1] == first[i];
      }
      SignalOnly(l, n.signal, rounds[idle]);
      SignalEndsLoop(n, idle - 1, rounds[1..]);
    } else {
      assert first == [rounds[0]];
      TurnsOne(l, rounds[0]);
      assert l.signal || rounds[0].signalled;
      TimedInv(l, rounds[0]);
      ShutdownLeaves(Timed(l, rounds[0]));
    }
  }

  // ----- what else ends the loop -----

  lemma {:induction false} DoneStays(l: Loop, rounds: seq<Round>)
    requires l.done && !l.broken && forall i | 0 <= i < |rounds| :: !rounds[i].Failed?
    ensures Turns(l, rounds).done && !Turns(l, rounds).broken
    decreases |rounds|
  {
    hide ShutPass, Timed;
    if rounds != [] && !l.Ends() {
      DoneStays(Turn(l, rounds[0]), rounds[1..]);
    }
  }

  // Once a callback has called dispatch_quit, the loop ends as soon as no hook is registered, and not
  // before, unless select fails.
  lemma {:induction false} QuitEndsLoop(l: Loop, rounds: seq<Round>, k: nat)
    requires !l.broken && forall i | 0 <= i < |rounds| :: !rounds[i].Failed?
    requires k < |rounds| && rounds[k].Ready? && rounds[k].quits
    ensures Turns(l, rounds).Ends() <==> Turns(l, rounds).t.hooks == []
    decreases |rounds|
  {
    hide ShutPass, Timed;
    if !l.Ends() {
      if k == 0 {
        DoneStays(Turn(l, rounds[0]), rounds[1..]);
      } else {
        QuitEndsLoop(Turn(l, rounds[0]), rounds[1..], k - 1);
      }
    }
  }

  // A failure of select ends it.
  lemma {:induction false} FailureEndsLoop(l: Loop, rounds: seq<Round>, k: nat)
    requires k < |rounds| && rounds[k].Failed?
    ensures Turns(l, rounds).Ends()
    decreases |rounds|
  {
    hide ShutPass, Timed;
    if !l.Ends() {
      if k == 0 {
        assert Turn(l, rounds[0]).broken;
      } else {
        FailureEndsLoop(Turn(l, rounds[0]), rounds[1..], k - 1);
      }
    }
  }

  // Without any of these, and without a signal, it goes on.
  lemma {:induction false} LoopGoesOn(l: Loop, rounds: seq<Round>)
    requires !l.done && !l.signal && !l.broken && !Signalled(rounds)
    requires forall i | 0 <= i < |rounds| :: !rounds[i].Failed? && (rounds[i].Ready? ==> !rounds[i].quits)
    ensures !Turns(l, rounds).Ends()
    decreases |rounds|
  {
    hide ShutPass, Timed;
    if rounds != [] {
      assert !rounds[0].signalled;
      assert forall i | 0 <= i < |rounds| - 1 :: rounds[1..][i] == rounds[i + 1];
      LoopGoesOn(Turn(l, rounds[0]), rounds[1..]);
    }
  }
}
