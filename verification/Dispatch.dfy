// The dispatcher of src/dispatch.c over its doubly linked hook list.  Every method does to the
// state exactly what the functions of Hooks and EventPasses say.
module Dispatch {
  import opened LinkedList
  import opened Hooks
  import opened EventPasses

  class Dispatcher {
    var nfds: int
    var readfds: set<nat>
    var writefds: set<nat>
    var exceptfds: set<nat>
    var done: bool
    var signal: bool
    const hooks: List<Hook>

    ghost predicate Valid()
      reads this, hooks, hooks.nodes
    {
      hooks.Valid() && hooks.differ == Differ
    }

    ghost function State(): Table
      reads this, hooks
    {
      Table(hooks.Contents(), Sets(readfds, writefds, exceptfds), nfds)
    }

    // dispatch_init
    constructor ()
      ensures Valid() && State() == EMPTY && !done && !signal && fresh(hooks) && hooks.nodes == []
    {
      nfds, readfds, writefds, exceptfds := 0, {}, {}, {};
      done, signal := false, false;
      hooks := new List(Differ, true);
    }

    // dispatch_nfds
    method Renumber()
      requires Valid()
      modifies this`nfds
      ensures Valid() && State() == Renumbered(old(State()))
    {
      hide List.Valid, Nfds, LinkedList.Values;
      var max := -1;
      var it := new Iterator(hooks);
      ghost var s, i := hooks.Contents(), 0;
      var first := it.Get(hooks, 0);
      if first.Some? {
        var more := true;
        assert s[..0] == [];
        while more
          invariant 0 <= i <= |s| && it.StandsAt(hooks, i) && more == (i < |s|)
          invariant max + 1 == Nfds(s[..i])
          modifies it
          decreases |s| - i
        {
          var got := it.Get(hooks, i);
          var hook := got.value;
          max := if max > hook.fd then max else hook.fd;
          NfdsNext(s, i);
          more := it.Next(hooks, i);
          i := i + 1;
        }
        assert s[..|s|] == s;
        nfds := max + 1;
      }
    }

    method SetBits(hook: Hook)
      modifies this`readfds, this`writefds, this`exceptfds
      ensures readfds == With(old(readfds), hook.fd, hook.cbRead)
      ensures writefds == With(old(writefds), hook.fd, hook.cbWrite)
      ensures exceptfds == With(old(exceptfds), hook.fd, hook.cbExcept)
    {
      if hook.cbRead { readfds := readfds + {hook.fd}; }
      if hook.cbWrite { writefds := writefds + {hook.fd}; }
      if hook.cbExcept { exceptfds := exceptfds + {hook.fd}; }
    }

    method ClearBits(hook: Hook)
      modifies this`readfds, this`writefds, this`exceptfds
      ensures readfds == Less(old(readfds), hook.fd, hook.cbRead)
      ensures writefds == Less(old(writefds), hook.fd, hook.cbWrite)
      ensures exceptfds == Less(old(exceptfds), hook.fd, hook.cbExcept)
    {
      if hook.cbRead { readfds := readfds - {hook.fd}; }
      if hook.cbWrite { writefds := writefds - {hook.fd}; }
      if hook.cbExcept { exceptfds := exceptfds - {hook.fd}; }
    }

    // dispatch_register, after dispatch_hook_init made the hook
    method Enlist(hook: Hook)
      requires Valid()
      modifies this`nfds, this`readfds, this`writefds, this`exceptfds, hooks, hooks.nodes
      ensures Valid() && State() == Registered(old(State()), hook)
      ensures forall k | 0 <= k < |hooks.nodes| :: hooks.nodes[k] in old(hooks.nodes) || fresh(hooks.nodes[k])
    {
      hooks.Add(hook);
      SetBits(hook);
      Renumber();
    }

    method Register(fd: nat, cbRead: bool, cbWrite: bool, cbExcept: bool, closing: Closing, data: int)
      returns (hook: Hook)
      requires Valid()
      modifies this`nfds, this`readfds, this`writefds, this`exceptfds, hooks, hooks.nodes
      ensures Valid() && State() == Registered(old(State()), hook)
      ensures fresh(hook) && hook.fd == fd && hook.data == data && hook.closing == closing
      ensures hook.cbRead == cbRead && hook.cbWrite == cbWrite && hook.cbExcept == cbExcept
      ensures forall k | 0 <= k < |hooks.nodes| :: hooks.nodes[k] in old(hooks.nodes) || fresh(hooks.nodes[k])
    {
      hook := new Hook(fd, cbRead, cbWrite, cbExcept, closing, data);
      Enlist(hook);
    }

    // dispatch_unregister
    method Unregister(hook: Hook) returns (rval: int)
      requires Valid()
      modifies this`nfds, this`readfds, this`writefds, this`exceptfds, hooks, hooks.nodes
      ensures Valid() && State() == Unregistered(old(State()), hook)
      ensures rval == if hook in old(State()).hooks then 0 else -1
      ensures forall k | 0 <= k < |hooks.nodes| :: hooks.nodes[k] in old(hooks.nodes)
    {
      hide List.Valid, Nfds, Place, Removed, Values, Less;
      ghost var s := hooks.Contents();
      ClearBits(hook);
      var removed, h := hooks.RemoveByValue(hook);
      PlaceOf(s, hook);
      rval := if removed then 0 else -1;
      Renumber();
    }

    // dispatch_unregister_for_data
    method UnregisterForData(data: int)
      requires Valid()
      modifies this`nfds, this`readfds, this`writefds, this`exceptfds, hooks, hooks.nodes
      ensures Valid() && State() == UnregisteredForData(old(State()), data)
      ensures forall k | 0 <= k < |hooks.nodes| :: hooks.nodes[k] in old(hooks.nodes)
    {
      hide List.Valid;
      ghost var s, i := hooks.Contents(), 0;
      var it := new Iterator(hooks);
      var first := it.Get(hooks, 0);
      if first.Some? {
        var more := true;
        var hook;
        while more
          invariant 0 <= i <= |s| && it.StandsAt(hooks, i) && more == (i < |s|)
          invariant forall k | 0 <= k < i :: s[k].data != data
          modifies it
          decreases |s| - i
        {
          var got := it.Get(hooks, i);
          hook := got.value;
          if hook.data == data {
            break;
          }
          more := it.Next(hooks, i);
          i := i + 1;
        }
        OwnerIs(s, data, i);
        if more {
          var _ := Unregister(hook);
        }
      }
    }

    // The copies made before each pass.
    method Snapshot() returns (cpy: List<Hook>)
      requires Valid()
      ensures cpy.Valid() && fresh(cpy) && (forall k | 0 <= k < |cpy.nodes| :: fresh(cpy.nodes[k]))
      ensures cpy.Contents() == hooks.Contents()
    {
      hide List.Valid;
      ghost var s, i := hooks.Contents(), 0;
      cpy := new List(Differ, false);
      var it := new Iterator(hooks);
      var first := it.Get(hooks, 0);
      if first.Some? {
        var more := true;
        while more
          invariant 0 <= i <= |s| && it.StandsAt(hooks, i) && more == (i < |s|)
          invariant fresh(it) && cpy.Valid() && cpy.Contents() == s[..i]
          invariant forall k | 0 <= k < |cpy.nodes| :: fresh(cpy.nodes[k])
          decreases |s| - i
        {
          var got := it.Get(hooks, i);
          var hook := got.value;
          cpy.Add(hook);
          assert s[..i + 1] == s[..i] + [hook];
          more := it.Next(hooks, i);
          i := i + 1;
        }
      }
    }

    // Running one callback: it must exist.  The hooks it registers are handed in made.
    method Call(hook: Hook, w: Which, react: React) returns (rval: int)
      requires Valid() && hook.Wants(w)
      modifies this`nfds, this`readfds, this`writefds, this`exceptfds, hooks, hooks.nodes
      ensures Valid() && State() == Opened(old(State()), react(hook, w).added) && rval == react(hook, w).rval
      ensures forall k | 0 <= k < |hooks.nodes| :: hooks.nodes[k] in old(hooks.nodes) || fresh(hooks.nodes[k])
    {
      Open(react(hook, w).added);
      rval := react(hook, w).rval;
    }

    // A callback registers hooks.
    method Open(added: seq<Hook>)
      requires Valid()
      modifies this`nfds, this`readfds, this`writefds, this`exceptfds, hooks, hooks.nodes
      ensures Valid() && State() == Opened(old(State()), added)
      ensures forall k | 0 <= k < |hooks.nodes| :: hooks.nodes[k] in old(hooks.nodes) || fresh(hooks.nodes[k])
    {
      hide List.Valid, Registered;
      for i := 0 to |added|
        invariant Valid() && Opened(State(), added[i..]) == Opened(old(State()), added)
        invariant forall k | 0 <= k < |hooks.nodes| :: hooks.nodes[k] in old(hooks.nodes) || fresh(hooks.nodes[k])
      {
        Enlist(added[i]);
        assert added[i..][1..] == added[i + 1..];
      }
    }

    // What a close callback does to the dispatcher.
    method Close(hook: Hook)
      requires Valid() && hook.closing != NoClose
      modifies this`nfds, this`readfds, this`writefds, this`exceptfds, hooks, hooks.nodes
      ensures Valid() && State() == Closed(old(State()), hook)
      ensures forall k | 0 <= k < |hooks.nodes| :: hooks.nodes[k] in old(hooks.nodes)
    {
      if hook.closing == ByHook {
        var _ := Unregister(hook);
      } else {
        UnregisterForData(hook.data);
      }
    }

    // The body of the loop over the snapshot.
    method Serve(hook: Hook, sel: Sets, react: React)
      requires Valid() && forall w: Which :: hook.fd in sel.Of(w) ==> hook.Wants(w)
      modifies this`nfds, this`readfds, this`writefds, this`exceptfds, hooks, hooks.nodes
      ensures Valid() && State() == Served(old(State()), hook, sel, react)
      ensures forall k | 0 <= k < |hooks.nodes| :: hooks.nodes[k] in old(hooks.nodes) || fresh(hooks.nodes[k])
    {
      hide List.Valid, Registered, Unregistered, UnregisteredForData;
      OpensSteps(State(), hook, sel, react);
      var rval := 0;
      if hook.fd in sel.readfds {
        rval := Call(hook, Read, react);
      }
      if rval >= 0 && hook.fd in sel.writefds {
        rval := Call(hook, Write, react);
      }
      if rval >= 0 && hook.fd in sel.exceptfds {
        rval := Call(hook, Except, react);
      }
      if rval < 0 {
        if hook.closing != NoClose {
          Close(hook);
        } else {
          var _ := Unregister(hook);
        }
      }
    }

    // The pass over a snapshot of the hooks after select.
    method ReadyPass(sel: Sets, react: React)
      requires Valid()
      requires forall i, w: Which | 0 <= i < |State().hooks| ::
                 State().hooks[i].fd in sel.Of(w) ==> State().hooks[i].Wants(w)
      modifies this`nfds, this`readfds, this`writefds, this`exceptfds, hooks, hooks.nodes
      ensures Valid() && State() == Pass(old(State()), old(State()).hooks, sel, react)
      ensures forall k | 0 <= k < |hooks.nodes| :: hooks.nodes[k] in old(hooks.nodes) || fresh(hooks.nodes[k])
    {
      hide List.Valid, Served, Values;
      var cpy := Snapshot();
      ghost var s, i := cpy.Contents(), 0;
      var it := new Iterator(cpy);
      var first := it.Get(cpy, 0);
      if first.Some? {
        var more := true;
        while more
          invariant 0 <= i <= |s| && it.StandsAt(cpy, i) && more == (i < |s|)
          invariant Valid() && cpy.Valid() && cpy.Contents() == s
          invariant forall k | 0 <= k < |hooks.nodes| :: hooks.nodes[k] !in cpy.nodes
          invariant forall k | 0 <= k < |hooks.nodes| :: hooks.nodes[k] in old(hooks.nodes) || fresh(hooks.nodes[k])
          invariant Pass(State(), s[i..], sel, react) == Pass(old(State()), s, sel, react)
          decreases |s| - i
        {
          var got := it.Get(cpy, i);
          var hook := got.value;
          Serve(hook, sel, react);
          assert s[i..][1..] == s[i + 1..];
          more := it.Next(cpy, i);
          i := i + 1;
        }
      }
    }

    // The body of the loop of the shutdown pass.
    method Shutdown(hook: Hook)
      requires Valid()
      modifies this`nfds, this`readfds, this`writefds, this`exceptfds, hooks, hooks.nodes
      ensures Valid() && State() == Shut(old(State()), hook)
      ensures forall k | 0 <= k < |hooks.nodes| :: hooks.nodes[k] in old(hooks.nodes) || fresh(hooks.nodes[k])
    {
      hide List.Valid;
      if hook.closing != NoClose {
        Close(hook);
      }
    }

    // The pass over another snapshot after a signal.
    method ShutdownPass()
      requires Valid()
      modifies this`nfds, this`readfds, this`writefds, this`exceptfds, hooks, hooks.nodes
      ensures Valid() && State() == ShutPass(old(State()), old(State()).hooks)
      ensures forall k | 0 <= k < |hooks.nodes| :: hooks.nodes[k] in old(hooks.nodes) || fresh(hooks.nodes[k])
    {
      hide List.Valid, Shut, Values;
      var cpy := Snapshot();
      ghost var s, i := cpy.Contents(), 0;
      var it := new Iterator(cpy);
      var first := it.Get(cpy, 0);
      if first.Some? {
        var more := true;
        while more
          invariant 0 <= i <= |s| && it.StandsAt(cpy, i) && more == (i < |s|)
          invariant Valid() && cpy.Valid() && cpy.Contents() == s
          invariant forall k | 0 <= k < |hooks.nodes| :: hooks.nodes[k] !in cpy.nodes
          invariant forall k | 0 <= k < |hooks.nodes| :: hooks.nodes[k] in old(hooks.nodes) || fresh(hooks.nodes[k])
          invariant ShutPass(State(), s[i..]) == ShutPass(old(State()), s)
          decreases |s| - i
        {
          var got := it.Get(cpy, i);
          var hook := got.value;
          Shutdown(hook);
          assert s[i..][1..] == s[i + 1..];
          more := it.Next(cpy, i);
          i := i + 1;
        }
      }
    }

    ghost function Looping(broken: bool): Loop
      reads this, hooks
    {
      Loop(State(), done, signal, broken)
    }

    // A turn of the loop in which select answered.
    method ReadyTurn(offered: Sets, react: React, timed: seq<Hook>, signalled: bool, quits: bool)
      requires Valid() && Inv(State())
      requires TurnAllowed(Looping(false), Ready(offered, react, timed, signalled, quits))
      modifies this, hooks, hooks.nodes
      ensures Valid() && Looping(false) == Turn(old(Looping(false)), Ready(offered, react, timed, signalled, quits))
      ensures forall k | 0 <= k < |hooks.nodes| :: hooks.nodes[k] in old(hooks.nodes) || fresh(hooks.nodes[k])
    {
      hide List.Valid, Inv, Selected, Values, Pass, ShutPass, PassAllowed, Opened, OpensAllowed;
      var sel := Selected(Sets(readfds, writefds, exceptfds), nfds, offered);
      ghost var t := State();
      forall i, w: Which | 0 <= i < |t.hooks| ensures t.hooks[i].fd in sel.Of(w) ==> t.hooks[i].Wants(w) {
        SelectedExactly(t, offered, i, w);
      }
      ReadyPass(sel, react);
      Open(timed);
      signal := signal || signalled;
      done := done || quits;
      if signal {
        ShutdownPass();
        done := true;
      }
    }

    // dispatch_handle_events, for as many turns as select is given answers.
    method HandleEvents(rounds: seq<Round>) returns (broken: bool)
      requires Valid() && Inv(State()) && TurnsAllowed(Looping(false), rounds)
      modifies this, hooks, hooks.nodes
      ensures Valid() && Looping(broken) == Turns(old(Looping(false)), rounds)
      ensures Inv(State())
    {
      hide List.Valid, Inv, Turn, TurnAllowed, Values;
      TurnsInv(Looping(false), rounds);
      broken := false;
      var i := 0;
      while i < |rounds|
        invariant 0 <= i <= |rounds| && !broken && Valid() && Inv(State())
        invariant TurnsAllowed(Looping(false), rounds[i..])
        invariant forall k | 0 <= k < |hooks.nodes| :: hooks.nodes[k] in old(hooks.nodes) || fresh(hooks.nodes[k])
        invariant Turns(Looping(false), rounds[i..]) == Turns(old(Looping(false)), rounds)
      {
        var size := hooks.Size();
        if done && size == 0 {
          break;
        }
        ghost var l := Looping(false);
        assert rounds[i..][0] == rounds[i] && rounds[i..][1..] == rounds[i + 1..];
        TurnInv(l, rounds[i]);
        match rounds[i] {
          case Failed =>
            done := true;
            broken := true;
            BrokenTurn(l, rounds[i..]);
            break;
          case Interrupted(signalled) =>
            signal := signal || signalled;
            InterruptedTurn(l, signalled);
          case Ready(offered, react, timed, signalled, quits) =>
            ReadyTurn(offered, react, timed, signalled, quits);
        }
        i := i + 1;
      }
    }
  }

  // The hooks opened by the three callbacks are registered in three steps.
  lemma OpensSteps(t: Table, h: Hook, sel: Sets, react: React)
    ensures var r := After1(h, sel, react, Read, 0);
            Opened(t, Opens(h, sel, react))
            == Opened(Opened(Opened(t, Opens1(h, sel, react, Read, 0)), Opens1(h, sel, react, Write, r)),
                      Opens1(h, sel, react, Except, After1(h, sel, react, Write, r)))
  {
    hide Opened, After1, Opens1;
    var r := After1(h, sel, react, Read, 0);
    var a, b := Opens1(h, sel, react, Read, 0), Opens1(h, sel, react, Write, r);
    OpenedConcat(t, a + b, Opens1(h, sel, react, Except, After1(h, sel, react, Write, r)));
    OpenedConcat(t, a, b);
  }

  lemma BrokenTurn(l: Loop, rounds: seq<Round>)
    requires rounds != [] && rounds[0].Failed? && !l.Ends()
    ensures Turns(l, rounds) == l.(done := true, broken := true)
  {
  }

  lemma InterruptedTurn(l: Loop, signalled: bool)
    ensures Turn(l, Interrupted(signalled)) == l.(signal := l.signal || signalled)
  {
  }

  lemma NfdsNext(s: seq<Hook>, i: nat)
    requires i < |s|
    ensures Nfds(s[..i + 1]) == if Nfds(s[..i]) > s[i].fd + 1 then Nfds(s[..i]) else s[i].fd + 1
  {
    assert s[..i + 1][..i] == s[..i];
  }

  lemma PlaceOf(s: seq<Hook>, h: Hook)
    ensures Place(s, h, Differ) < |s| <==> h in s
  {
    if h in s {
      var k :| 0 <= k < |s| && s[k] == h;
    }
  }

  lemma OwnerIs(s: seq<Hook>, data: int, i: nat)
    requires i <= |s| && (i < |s| ==> s[i].data == data) && forall k | 0 <= k < i :: s[k].data != data
    ensures OwnerOf(s, data) == i
  {
  }
}
