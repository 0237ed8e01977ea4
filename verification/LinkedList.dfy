// The doubly linked list of src/list.c.  The list holds a sequence; every operation is stated on
// that sequence.
module LinkedList {
  import opened Options

  class ListNode<T> {
    var next: ListNode?<T>
    var prev: ListNode?<T>
    const val: T

    // node_init
    constructor (val: T)
      ensures next == null && prev == null && this.val == val
    {
      next, prev, this.val := null, null, val;
    }
  }

  // The first place whose value compares equal to v; the length when there is none.  The
  // comparator follows strcmp: it is false on equal values.
  function Place<T>(s: seq<T>, v: T, differ: (T, T) -> bool): (i: nat)
    ensures i <= |s|
    ensures i < |s| ==> !differ(s[i], v)
    ensures forall k | 0 <= k < i :: differ(s[k], v)
  {
    if s == [] || !differ(s[0], v) then 0
    else
      assert forall k | 0 < k < |s| :: s[k] == s[1..][k - 1];
      1 + Place(s[1..], v, differ)
  }

  lemma PlaceIs<T>(s: seq<T>, v: T, differ: (T, T) -> bool, i: nat)
    requires i <= |s| && (forall k | 0 <= k < i :: differ(s[k], v)) && (i < |s| ==> !differ(s[i], v))
    ensures Place(s, v, differ) == i
  {
  }

  function Without<T>(s: seq<T>, i: nat): (w: seq<T>)
    requires i < |s|
    ensures |w| == |s| - 1
    ensures forall k | 0 <= k < |w| :: w[k] == s[if k < i then k else k + 1]
  {
    s[..i] + s[i + 1..]
  }

  // The sequence without the first value that compares equal to v.
  function Removed<T>(s: seq<T>, v: T, differ: (T, T) -> bool): seq<T> {
    var i := Place(s, v, differ);
    if i < |s| then Without(s, i) else s
  }

  // The node at a place, null outside the list.
  ghost function Nth<T>(s: seq<ListNode<T>>, i: int): ListNode?<T> {
    if 0 <= i < |s| then s[i] else null
  }

  ghost predicate Distinct<T>(s: seq<T>) {
    forall i, j | 0 <= i < j < |s| :: s[i] != s[j]
  }

  ghost function Values<T>(s: seq<ListNode<T>>): (v: seq<T>)
    ensures |v| == |s|
  {
    seq(|s|, i requires 0 <= i < |s| => s[i].val)
  }

  lemma ValuesWithout<T>(s: seq<ListNode<T>>, i: nat)
    requires i < |s|
    ensures Values(Without(s, i)) == Without(Values(s), i)
  {
  }

  class List<T> {
    var head: ListNode?<T>
    var tail: ListNode?<T>
    const differ: (T, T) -> bool
    const frees: bool
    ghost var nodes: seq<ListNode<T>>

    ghost predicate Valid()
      reads this, nodes
    {
      && Distinct(nodes)
      && head == Nth(nodes, 0) && tail == Nth(nodes, |nodes| - 1)
      && (forall i | 0 <= i < |nodes| :: LinkedAt(i))
    }

    ghost predicate LinkedAt(i: nat)
      requires i < |nodes|
      reads this, nodes
    {
      nodes[i].next == Nth(nodes, i + 1) && nodes[i].prev == Nth(nodes, i - 1)
    }

    ghost function Contents(): seq<T>
      reads this
    {
      Values(nodes)
    }

    // list_init; frees says whether the list was given a function that frees its values.
    constructor (differ: (T, T) -> bool, frees: bool)
      ensures Valid() && Contents() == [] && nodes == [] && this.differ == differ && this.frees == frees
    {
      head, tail, nodes := null, null, [];
      this.differ, this.frees := differ, frees;
    }

    // list_add_node
    method AddNode(n: ListNode<T>)
      requires Valid() && n !in nodes
      modifies this`head, this`tail, this`nodes, nodes, n
      ensures Valid() && nodes == old(nodes) + [n]
    {
      ghost var was := nodes;
      if head == null {
        n.next := null;
        n.prev := null;
        head := n;
        tail := n;
      } else {
        n.next := null;
        n.prev := tail;
        tail.next := n;
        tail := n;
      }
      nodes := nodes + [n];
      forall k | 0 <= k < |nodes| ensures LinkedAt(k) {
        assert k < |was| ==> old(LinkedAt(k));
      }
    }

    // list_add
    method Add(val: T)
      requires Valid()
      modifies this`head, this`tail, this`nodes, nodes
      ensures Valid() && Contents() == old(Contents()) + [val]
      ensures forall k | 0 <= k < |nodes| :: nodes[k] in old(nodes) || fresh(nodes[k])
    {
      var n := new ListNode(val);
      AddNode(n);
    }

    // list_remove_node: the neighbours' links, then the node itself.
    method RemoveNode(n: ListNode<T>, ghost i: nat) returns (val: T)
      requires Valid() && i < |nodes| && nodes[i] == n
      modifies this`head, this`tail, this`nodes, nodes
      ensures Valid() && nodes == Without(old(nodes), i) && val == old(Contents())[i]
      ensures Contents() == Without(old(Contents()), i)
    {
      ghost var was := nodes;
      assert LinkedAt(i);
      if n.next != null {
        n.next.prev := n.prev;
      } else {
        tail := n.prev;
      }
      if n.prev != null {
        n.prev.next := n.next;
      } else {
        head := n.next;
      }
      nodes := Without(was, i);
      ValuesWithout(was, i);
      forall k | 0 <= k < |nodes| ensures LinkedAt(k) {
        ghost var j := if k < i then k else k + 1;
        assert old(LinkedAt(j));
        assert nodes[k] == was[j];
      }
      val := n.val;
    }

    // list_is_empty
    method IsEmpty() returns (empty: bool)
      requires Valid()
      ensures empty <==> Contents() == []
    {
      empty := head == null;
    }

    // list_size
    method Size() returns (size: nat)
      requires Valid()
      ensures size == |Contents()|
    {
      var n := head;
      size := 0;
      while n != null
        invariant size <= |nodes| && n == Nth(nodes, size)
        decreases |nodes| - size
      {
        assert LinkedAt(size);
        size := size + 1;
        n := n.next;
      }
    }

    // list_get_node_by_value
    method NodeByValue(val: T) returns (n: ListNode?<T>, ghost i: nat)
      requires Valid()
      ensures i == Place(Contents(), val, differ)
      ensures n == Nth(nodes, i)
    {
      n := head;
      i := 0;
      while n != null && differ(n.val, val)
        invariant i <= |nodes| && n == Nth(nodes, i)
        invariant forall k | 0 <= k < i :: differ(Contents()[k], val)
        decreases |nodes| - i
      {
        assert LinkedAt(i);
        i := i + 1;
        n := n.next;
      }
      PlaceIs(Contents(), val, differ, i);
    }

    // list_get_node_by_index; a negative index finds the first node.
    method NodeByIndex(idx: int) returns (n: ListNode?<T>)
      requires Valid()
      ensures n == Nth(nodes, if idx < 0 then 0 else idx)
    {
      n := head;
      var ctr := 0;
      while n != null && ctr < idx
        invariant 0 <= ctr <= |nodes| && (ctr <= idx || ctr == 0)
        invariant n == Nth(nodes, ctr)
        decreases |nodes| - ctr
      {
        assert LinkedAt(ctr);
        ctr := ctr + 1;
        n := n.next;
      }
    }

    // list_index_of
    method IndexOf(val: T) returns (idx: int)
      requires Valid()
      ensures idx == if Place(Contents(), val, differ) < |Contents()| then Place(Contents(), val, differ) else -1
    {
      var n := head;
      idx := 0;
      while n != null && differ(n.val, val)
        invariant 0 <= idx <= |nodes| && n == Nth(nodes, idx)
        invariant forall k | 0 <= k < idx :: differ(Contents()[k], val)
        decreases |nodes| - idx
      {
        assert LinkedAt(idx);
        idx := idx + 1;
        n := n.next;
      }
      PlaceIs(Contents(), val, differ, idx);
      if n == null {
        idx := -1;
      }
    }

    // list_contains
    method Has(val: T) returns (found: bool)
      requires Valid()
      ensures found <==> exists i | 0 <= i < |Contents()| :: !differ(Contents()[i], val)
    {
      ghost var i;
      var n;
      n, i := NodeByValue(val);
      found := n != null;
      if found {
        assert !differ(Contents()[i], val);
      }
    }

    // list_get reads the node without a test, so there must be one.
    method Get(idx: int) returns (val: T)
      requires Valid() && Contents() != [] && idx < |Contents()|
      ensures val == Contents()[if idx < 0 then 0 else idx]
    {
      var n := NodeByIndex(idx);
      val := n.val;
    }

    // list_remove_by_index, under the same demand.
    method RemoveByIndex(idx: int) returns (val: T)
      requires Valid() && Contents() != [] && idx < |Contents()|
      modifies this`head, this`tail, this`nodes, nodes
      ensures Valid() && val == old(Contents())[if idx < 0 then 0 else idx]
      ensures Contents() == Without(old(Contents()), if idx < 0 then 0 else idx)
    {
      var n := NodeByIndex(idx);
      val := RemoveNode(n, if idx < 0 then 0 else idx);
    }

    // list_remove_by_value: nothing happens when the value is not there.
    method RemoveByValue(val: T) returns (removed: bool, v: T)
      requires Valid()
      modifies this`head, this`tail, this`nodes, nodes
      ensures Valid() && forall k | 0 <= k < |nodes| :: nodes[k] in old(nodes)
      ensures Contents() == Removed(old(Contents()), val, differ)
      ensures removed <==> Place(old(Contents()), val, differ) < |old(Contents())|
      ensures v == if removed then old(Contents())[Place(old(Contents()), val, differ)] else val
    {
      ghost var i;
      var n;
      n, i := NodeByValue(val);
      v := val;
      removed := n != null;
      if n != null {
        v := RemoveNode(n, i);
      }
    }

    // list_clear: every value is freed once, in order, if the list frees its values.
    method Clear() returns (freed: seq<T>)
      requires Valid()
      modifies this`head, this`tail, this`nodes
      ensures Valid() && Contents() == [] && nodes == []
      ensures freed == if frees then old(Contents()) else []
    {
      var n := head;
      ghost var i := 0;
      freed := [];
      while n != null
        invariant 0 <= i <= |nodes| && n == Nth(nodes, i)
        invariant freed == if frees then Contents()[..i] else []
        decreases |nodes| - i
      {
        assert LinkedAt(i);
        var m := n.next;
        if frees {
          freed := freed + [n.val];
        }
        n := m;
        i := i + 1;
      }
      head, tail, nodes := null, null, [];
    }
  }

  class Iterator<T> {
    var node: ListNode?<T>

    // list_head
    constructor (l: List<T>)
      requires l.Valid()
      ensures StandsAt(l, 0)
    {
      node := l.head;
    }

    // The iterator stands at place i of the list, or past its end.
    ghost predicate StandsAt(l: List<T>, i: nat)
      reads this, l
    {
      i <= |l.nodes| && node == Nth(l.nodes, i)
    }

    // list_iter_next
    method Next(ghost l: List<T>, ghost i: nat) returns (more: bool)
      requires l.Valid() && StandsAt(l, i)
      modifies this
      ensures StandsAt(l, if i < |l.nodes| then i + 1 else i)
      ensures more <==> i + 1 < |l.nodes|
    {
      if node != null {
        assert l.LinkedAt(i);
        node := node.next;
      }
      more := node != null;
    }

    // list_iter_prev reads the node without a test.
    method Prev(ghost l: List<T>, ghost i: nat) returns (more: bool)
      requires l.Valid() && StandsAt(l, i) && i < |l.nodes|
      modifies this
      ensures more <==> i > 0
      ensures StandsAt(l, if i > 0 then i - 1 else 0)
    {
      assert l.LinkedAt(i);
      more := node.prev != null;
      if more {
        node := node.prev;
      }
    }

    // list_iter_eof
    method Eof(ghost l: List<T>, ghost i: nat) returns (eof: bool)
      requires StandsAt(l, i)
      ensures eof <==> i == |l.nodes|
    {
      eof := node == null;
    }

    // list_iter_get
    method Get(ghost l: List<T>, ghost i: nat) returns (val: Option<T>)
      requires StandsAt(l, i)
      ensures val == if i < |l.nodes| then Some(l.Contents()[i]) else None
    {
      val := if node == null then None else Some(node.val);
    }
  }
}
