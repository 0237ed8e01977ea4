// The dispatcher's state as a value (src/dispatch.c): the registered hooks in order, the three
// descriptor sets handed to select, and nfds; and what registering, unregistering, one pass over
// the ready descriptors and the shutdown pass do to it.
module Hooks {
  import opened LinkedList

  datatype Which = Read | Write | Except

  // How the close callback given to dispatch_register takes its hook away again: src/serial.c
  // unregisters the hook itself, src/accept.c and src/http.c unregister for their data.
  datatype Closing = NoClose | ByHook | ByData

  class Hook {
    const fd: nat
    const cbRead: bool
    const cbWrite: bool
    const cbExcept: bool
    const closing: Closing
    const data: int

    // dispatch_hook_init
    constructor (fd: nat, cbRead: bool, cbWrite: bool, cbExcept: bool, closing: Closing, data: int)
      ensures this.fd == fd && this.cbRead == cbRead && this.cbWrite == cbWrite && this.cbExcept == cbExcept
      ensures this.closing == closing && this.data == data
    {
      this.fd, this.cbRead, this.cbWrite, this.cbExcept := fd, cbRead, cbWrite, cbExcept;
      this.closing, this.data := closing, data;
    }

    predicate Wants(w: Which) {
      match w
      case Read => cbRead
      case Write => cbWrite
      case Except => cbExcept
    }
  }

  // ptrcmp
  function Differ(a: Hook, b: Hook): bool {
    a != b
  }

  datatype Sets = Sets(readfds: set<nat>, writefds: set<nat>, exceptfds: set<nat>) {
    function Of(w: Which): set<nat> {
      match w
      case Read => readfds
      case Write => writefds
      case Except => exceptfds
    }
  }

  datatype Table = Table(hooks: seq<Hook>, sets: Sets, nfds: int)

  // One more than the largest descriptor.
  function Nfds(hooks: seq<Hook>): (n: int)
    ensures hooks == [] ==> n == 0
    ensures forall i | 0 <= i < |hooks| :: hooks[i].fd < n
    ensures hooks != [] ==> exists i | 0 <= i < |hooks| :: hooks[i].fd + 1 == n
  {
    if hooks == [] then 0
    else
      var rest := Nfds(hooks[..|hooks| - 1]);
      var fd := hooks[|hooks| - 1].fd;
      assert rest == 0 ==> |hooks| == 1;
      if rest > fd + 1 then rest else fd + 1
  }

  // dispatch_nfds: without hooks the old number stays.
  function Renumbered(t: Table): Table {
    if t.hooks == [] then t else t.(nfds := Nfds(t.hooks))
  }

  function With(s: set<nat>, fd: nat, wanted: bool): set<nat> {
    if wanted then s + {fd} else s
  }

  function Less(s: set<nat>, fd: nat, wanted: bool): set<nat> {
    if wanted then s - {fd} else s
  }

  // dispatch_register
  function Registered(t: Table, h: Hook): Table {
    Renumbered(Table(t.hooks + [h],
                     Sets(With(t.sets.readfds, h.fd, h.cbRead),
                          With(t.sets.writefds, h.fd, h.cbWrite),
                          With(t.sets.exceptfds, h.fd, h.cbExcept)),
                     t.nfds))
  }

  // The list without its first occurrence of h.
  function Rest(hooks: seq<Hook>, h: Hook): seq<Hook> {
    Removed(hooks, h, Differ)
  }

  // dispatch_unregister: the bits are cleared even when the hook is not in the list.
  function Unregistered(t: Table, h: Hook): Table {
    Renumbered(Table(Rest(t.hooks, h),
                     Sets(Less(t.sets.readfds, h.fd, h.cbRead),
                          Less(t.sets.writefds, h.fd, h.cbWrite),
                          Less(t.sets.exceptfds, h.fd, h.cbExcept)),
                     t.nfds))
  }

  // The first hook with the given data; the length when there is none.
  function OwnerOf(hooks: seq<Hook>, data: int): (i: nat)
    ensures i <= |hooks|
    ensures i < |hooks| ==> hooks[i].data == data
    ensures forall k | 0 <= k < i :: hooks[k].data != data
  {
    if hooks == [] || hooks[0].data == data then 0
    else
      assert forall k | 0 < k < |hooks| :: hooks[k] == hooks[1..][k - 1];
      1 + OwnerOf(hooks[1..], data)
  }

  // dispatch_unregister_for_data
  function UnregisteredForData(t: Table, data: int): Table {
    var i := OwnerOf(t.hooks, data);
    if i < |t.hooks| then Unregistered(t, t.hooks[i]) else t
  }

  // ----- the invariant -----

  ghost predicate DistinctFds(hooks: seq<Hook>) {
    forall i, j | 0 <= i < j < |hooks| :: hooks[i].fd != hooks[j].fd
  }

  ghost predicate DistinctData(hooks: seq<Hook>) {
    forall i, j | 0 <= i < j < |hooks| :: hooks[i].data != hooks[j].data
  }

  // The descriptors of the hooks with a callback of this kind.
  ghost function Fds(hooks: seq<Hook>, w: Which): set<nat> {
    set i | 0 <= i < |hooks| && hooks[i].Wants(w) :: hooks[i].fd
  }

  ghost predicate SetsAgree(t: Table) {
    forall w: Which :: t.sets.Of(w) == Fds(t.hooks, w)
  }

  ghost predicate Inv(t: Table) {
    && DistinctFds(t.hooks) && DistinctData(t.hooks)
    && SetsAgree(t)
    && (t.hooks != [] ==> t.nfds == Nfds(t.hooks))
  }

  // A new hook uses a descriptor and data that no registered hook uses.
  ghost predicate Unused(t: Table, h: Hook) {
    forall i | 0 <= i < |t.hooks| :: t.hooks[i].fd != h.fd && t.hooks[i].data != h.data
  }

  lemma FdsAppend(hooks: seq<Hook>, h: Hook, w: Which)
    ensures Fds(hooks + [h], w) == With(Fds(hooks, w), h.fd, h.Wants(w))
  {
    var s := hooks + [h];
    assert s[|hooks|] == h;
    forall fd | fd in Fds(hooks, w) ensures fd in Fds(s, w) {
      var i :| 0 <= i < |hooks| && hooks[i].Wants(w) && hooks[i].fd == fd;
      assert s[i].fd == fd;
    }
  }

  lemma FdsWithout(hooks: seq<Hook>, i: nat, w: Which)
    requires i < |hooks|
    ensures Fds(hooks, w) == With(Fds(Without(hooks, i), w), hooks[i].fd, hooks[i].Wants(w))
  {
    var s := Without(hooks, i);
    forall fd | fd in Fds(hooks, w) && !(hooks[i].Wants(w) && fd == hooks[i].fd) ensures fd in Fds(s, w) {
      var j :| 0 <= j < |hooks| && hooks[j].Wants(w) && hooks[j].fd == fd;
      assert s[if j < i then j else j - 1] == hooks[j];
    }
  }

  lemma FdsRest(hooks: seq<Hook>, h: Hook, w: Which)
    ensures Fds(Rest(hooks, h), w) <= Fds(hooks, w) <= Fds(Rest(hooks, h), w) + {h.fd}
    ensures Place(hooks, h, Differ) < |hooks|
            ==> Fds(hooks, w) == With(Fds(Rest(hooks, h), w), h.fd, h.Wants(w))
  {
    var i := Place(hooks, h, Differ);
    if i < |hooks| {
      FdsWithout(hooks, i, w);
    }
  }

  // h and g listen for the same kind of event on the same descriptor.
  ghost predicate Share(h: Hook, g: Hook) {
    h.fd == g.fd && exists w: Which :: h.Wants(w) && g.Wants(w)
  }

  // Unregistering keeps the sets right exactly when no hook that stays shares a callback kind and
  // descriptor with the one that goes, whether or not that one was registered.
  lemma UnregisterAgrees(t: Table, h: Hook)
    requires SetsAgree(t)
    ensures SetsAgree(Unregistered(t, h))
            <==> forall i | 0 <= i < |Rest(t.hooks, h)| :: !Share(h, Rest(t.hooks, h)[i])
  {
    hide Nfds;
    var rest, u := Rest(t.hooks, h), Unregistered(t, h);
    forall w: Which
      ensures u.sets.Of(w) == Fds(rest, w) <==> !(h.Wants(w) && h.fd in Fds(rest, w))
    {
      FdsRest(t.hooks, h, w);
      assert u.sets.Of(w) == Less(Fds(t.hooks, w), h.fd, h.Wants(w));
    }
    if SetsAgree(u) {
      forall i | 0 <= i < |rest| ensures !Share(h, rest[i]) {
        forall w: Which | h.Wants(w) && rest[i].Wants(w) ensures h.fd != rest[i].fd {
          assert u.sets.Of(w) == Fds(rest, w);
          assert rest[i].fd in Fds(rest, w);
        }
      }
    } else {
      var w: Which :| u.sets.Of(w) != Fds(rest, w);
      var i :| 0 <= i < |rest| && rest[i].Wants(w) && rest[i].fd == h.fd;
      assert Share(h, rest[i]);
    }
  }

  // It goes wrong for two hooks that read from one descriptor: after one of them is unregistered, the
  // other is no longer watched.
  lemma SharedDescriptorLost(h: Hook, g: Hook)
    requires h != g && h.fd == g.fd && h.cbRead && g.cbRead
    ensures var t := Registered(Registered(EMPTY, h), g);
            && SetsAgree(t) && Unregistered(t, h).hooks == [g]
            && g.fd !in Unregistered(t, h).sets.readfds && !SetsAgree(Unregistered(t, h))
  {
    hide Nfds;
    var t := Registered(Registered(EMPTY, h), g);
    assert SetsAgree(EMPTY);
    RegisterAgrees(EMPTY, h);
    RegisterAgrees(Registered(EMPTY, h), g);
    PlaceIs(t.hooks, h, Differ, 0);
    assert Rest(t.hooks, h) == [g];
    assert [g][0].Wants(Read) && g.fd in Fds([g], Read);
  }

  // When the last hook goes, nfds stays what it was.
  lemma LastKeepsNumber(t: Table, h: Hook)
    requires t.hooks == [h]
    ensures Unregistered(t, h).hooks == [] && Unregistered(t, h).nfds == t.nfds
  {
    PlaceIs(t.hooks, h, Differ, 0);
  }

  lemma RegisterKeepsInv(t: Table, h: Hook)
    requires Inv(t) && Unused(t, h)
    ensures Inv(Registered(t, h)) && Registered(t, h).hooks == t.hooks + [h]
  {
    hide Nfds;
    RegisterAgrees(t, h);
  }

  lemma RegisterAgrees(t: Table, h: Hook)
    requires SetsAgree(t)
    ensures SetsAgree(Registered(t, h)) && Registered(t, h).hooks == t.hooks + [h]
  {
    hide Nfds, Fds;
    forall w: Which ensures Registered(t, h).sets.Of(w) == Fds(t.hooks + [h], w) {
      FdsAppend(t.hooks, h, w);
      assert t.sets.Of(w) == Fds(t.hooks, w);
    }
  }

  // Without one registered hook, the descriptors and data are still distinct and its own are free.
  lemma RestDistinct(hooks: seq<Hook>, h: Hook)
    requires DistinctFds(hooks) && DistinctData(hooks) && h in hooks
    ensures var rest := Rest(hooks, h);
            && |rest| == |hooks| - 1 && DistinctFds(rest) && DistinctData(rest)
            && forall i | 0 <= i < |rest| :: rest[i].fd != h.fd
  {
    var k :| 0 <= k < |hooks| && hooks[k] == h;
    assert Place(hooks, h, Differ) == k by {
      PlaceIs(hooks, h, Differ, k);
    }
  }

  lemma UnregisterKeepsInv(t: Table, h: Hook)
    requires Inv(t) && h in t.hooks
    ensures Inv(Unregistered(t, h))
    ensures Unregistered(t, h).hooks == Rest(t.hooks, h) && h !in Rest(t.hooks, h)
  {
    hide Nfds, Fds, Rest, DistinctFds, DistinctData;
    RestDistinct(t.hooks, h);
    UnregisterAgrees(t, h);
  }

  lemma UnregisterForDataKeepsInv(t: Table, data: int)
    requires Inv(t)
    ensures Inv(UnregisteredForData(t, data))
    ensures forall i | 0 <= i < |t.hooks| && t.hooks[i].data == data ::
              UnregisteredForData(t, data) == Unregistered(t, t.hooks[i])
  {
    hide Nfds, Fds, SetsAgree, Unregistered;
    var k := OwnerOf(t.hooks, data);
    if k < |t.hooks| {
      UnregisterKeepsInv(t, t.hooks[k]);
    }
  }

  // select answers with those of the watched descriptors below nfds that are ready.
  function Selected(watched: Sets, nfds: int, offered: Sets): Sets {
    Sets(set fd | fd in watched.readfds && fd < nfds && fd in offered.readfds,
         set fd | fd in watched.writefds && fd < nfds && fd in offered.writefds,
         set fd | fd in watched.exceptfds && fd < nfds && fd in offered.exceptfds)
  }

  // A hook's bit comes back from select exactly when it has the callback and its descriptor is
  // ready: no missing callback is ever called and no ready hook is passed over.
  lemma SelectedExactly(t: Table, offered: Sets, i: nat, w: Which)
    requires Inv(t) && i < |t.hooks|
    ensures t.hooks[i].fd in Selected(t.sets, t.nfds, offered).Of(w)
            <==> t.hooks[i].Wants(w) && t.hooks[i].fd in offered.Of(w)
  {
    var fd := t.hooks[i].fd;
    assert t.sets.Of(w) == Fds(t.hooks, w);
    if fd in t.sets.Of(w) {
      var j :| 0 <= j < |t.hooks| && t.hooks[j].Wants(w) && t.hooks[j].fd == fd;
      assert i == j;
    }
  }

  // ----- runs -----

  datatype Op = Register(hook: Hook) | Unregister(hook: Hook) | UnregisterForData(data: int)

  ghost function After(t: Table, op: Op): Table {
    match op
    case Register(h) => Registered(t, h)
    case Unregister(h) => Unregistered(t, h)
    case UnregisterForData(d) => UnregisteredForData(t, d)
  }

  ghost predicate Allowed(t: Table, op: Op) {
    match op
    case Register(h) => Unused(t, h)
    case Unregister(h) => h in t.hooks
    case UnregisterForData(d) => true
  }

  ghost predicate AllAllowed(t: Table, ops: seq<Op>)
    decreases |ops|
  {
    ops == [] || (Allowed(t, ops[0]) && AllAllowed(After(t, ops[0]), ops[1..]))
  }

  ghost function AfterAll(t: Table, ops: seq<Op>): Table
    decreases |ops|
  {
    if ops == [] then t else AfterAll(After(t, ops[0]), ops[1..])
  }

  const EMPTY := Table([], Sets({}, {}, {}), 0)

  // Every run keeps each set equal to the descriptors of the hooks with that callback, and nfds
  // above every descriptor.
  lemma {:induction false} RunInv(t: Table, ops: seq<Op>)
    requires Inv(t) && AllAllowed(t, ops)
    ensures Inv(AfterAll(t, ops))
    decreases |ops|
  {
    hide Inv, Registered, Unregistered, UnregisteredForData;
    if ops != [] {
      match ops[0] {
        case Register(h) => RegisterKeepsInv(t, h);
        case Unregister(h) => UnregisterKeepsInv(t, h);
        case UnregisterForData(d) => UnregisterForDataKeepsInv(t, d);
      }
      RunInv(After(t, ops[0]), ops[1..]);
    }
  }

  lemma RunFromEmpty(ops: seq<Op>, i: nat)
    requires AllAllowed(EMPTY, ops) && i < |AfterAll(EMPTY, ops).hooks|
    ensures var t := AfterAll(EMPTY, ops);
            var h := t.hooks[i];
            && h.fd < t.nfds && (h.fd in t.sets.readfds <==> h.cbRead)
            && (h.fd in t.sets.writefds <==> h.cbWrite) && (h.fd in t.sets.exceptfds <==> h.cbExcept)
  {
    hide AfterAll, AllAllowed;
    assert Inv(EMPTY);
    RunInv(EMPTY, ops);
    WatchedExactly(AfterAll(EMPTY, ops), i, Read);
    WatchedExactly(AfterAll(EMPTY, ops), i, Write);
    WatchedExactly(AfterAll(EMPTY, ops), i, Except);
  }

  lemma WatchedExactly(t: Table, i: nat, w: Which)
    requires Inv(t) && i < |t.hooks|
    ensures t.hooks[i].fd < t.nfds && (t.hooks[i].fd in t.sets.Of(w) <==> t.hooks[i].Wants(w))
  {
    SelectedExactly(t, t.sets, i, w);
    assert t.sets.Of(w) == Fds(t.hooks, w);
    if t.hooks[i].Wants(w) {
      assert t.hooks[i].fd in Fds(t.hooks, w);
    }
  }
}
