// Key-ordered entry sequences and the finite map they stand for.
module SortedEntries {
  import opened RbNodes

  type Entry = (Key, object?)

  // What the tree asks of its two comparators; strcmp meets it.
  ghost predicate Comparators(less: (Key, Key) -> bool, equals: (Key, Key) -> bool) {
    && (forall a, b :: equals(a, b) <==> a == b)
    && (forall a :: !less(a, a))
    && (forall a, b :: a == b || less(a, b) || less(b, a))
    && (forall a, b, c :: less(a, b) && less(b, c) ==> less(a, c))
  }

  ghost predicate Sorted(less: (Key, Key) -> bool, e: seq<Entry>) {
    forall i, j :: 0 <= i < j < |e| ==> less(e[i].0, e[j].0)
  }

  ghost function MapOf(e: seq<Entry>): map<Key, object?> {
    if e == [] then map[] else MapOf(e[..|e| - 1])[e[|e| - 1].0 := e[|e| - 1].1]
  }

  lemma {:induction false} MapOfKeys(e: seq<Entry>)
    ensures MapOf(e).Keys == set i | 0 <= i < |e| :: e[i].0
  {
    if e != [] {
      var d := e[..|e| - 1];
      MapOfKeys(d);
      assert (set i | 0 <= i < |e| :: e[i].0) == (set i | 0 <= i < |d| :: d[i].0) + {e[|e| - 1].0};
    }
  }

  ghost predicate DistinctKeys(e: seq<Entry>) {
    forall i, j :: 0 <= i < j < |e| ==> e[i].0 != e[j].0
  }

  lemma SortedDistinct(less: (Key, Key) -> bool, equals: (Key, Key) -> bool, e: seq<Entry>)
    requires Comparators(less, equals) && Sorted(less, e)
    ensures DistinctKeys(e)
  {
    forall i, j | 0 <= i < j < |e| ensures e[i].0 != e[j].0 {
      assert less(e[i].0, e[j].0);
    }
  }

  lemma {:induction false} MapOfSize(e: seq<Entry>)
    requires DistinctKeys(e)
    ensures |MapOf(e)| == |e|
  {
    if e != [] {
      var d, k := e[..|e| - 1], e[|e| - 1].0;
      MapOfSize(d);
      MapOfKeys(d);
      assert k !in MapOf(d);
      assert MapOf(e).Keys == MapOf(d).Keys + {k};
    }
  }

  // An entry whose key does not occur later can be taken out to the end.
  lemma {:induction false} MapOfMiddle(a: seq<Entry>, k: Key, v: object?, b: seq<Entry>)
    requires forall i :: 0 <= i < |b| ==> b[i].0 != k
    ensures MapOf(a + [(k, v)] + b) == MapOf(a + b)[k := v]
  {
    if b == [] {
      assert a + [(k, v)] + b == a + [(k, v)] && a + b == a;
      assert (a + [(k, v)])[..|a|] == a;
    } else {
      var b', last := b[..|b| - 1], b[|b| - 1];
      MapOfMiddle(a, k, v, b');
      assert (a + [(k, v)] + b)[..|a| + |b|] == a + [(k, v)] + b';
      assert (a + b)[..|a| + |b| - 1] == a + b';
      assert (a + b)[|a| + |b| - 1] == last && (a + [(k, v)] + b)[|a| + |b|] == last;
    }
  }

  lemma MapOfAt(e: seq<Entry>, i: nat)
    requires DistinctKeys(e) && i < |e|
    ensures e[i].0 in MapOf(e) && MapOf(e)[e[i].0] == e[i].1
  {
    var a, b := e[..i], e[i + 1..];
    assert e == a + [(e[i].0, e[i].1)] + b;
    MapOfMiddle(a, e[i].0, e[i].1, b);
  }

  lemma SortedInsert(less: (Key, Key) -> bool, equals: (Key, Key) -> bool, a: seq<Entry>, e: Entry, b: seq<Entry>)
    requires Comparators(less, equals) && Sorted(less, a + b)
    requires forall i :: 0 <= i < |a| ==> less(a[i].0, e.0)
    requires forall i :: 0 <= i < |b| ==> less(e.0, b[i].0)
    ensures Sorted(less, a + [e] + b)
  {
    var c, d := a + b, a + [e] + b;
    forall i, j | 0 <= i < j < |d| ensures less(d[i].0, d[j].0) {
      assert i != |a| ==> d[i] == c[if i < |a| then i else i - 1];
      assert j != |a| ==> d[j] == c[if j < |a| then j else j - 1];
      assert i > |a| ==> d[i] == b[i - |a| - 1];
      assert j > |a| ==> d[j] == b[j - |a| - 1];
    }
  }

  lemma MapOfPut(less: (Key, Key) -> bool, equals: (Key, Key) -> bool, a: seq<Entry>, b: seq<Entry>, k: Key, v: object?)
    requires Comparators(less, equals) && Sorted(less, a + b)
    requires forall i :: 0 <= i < |a| ==> less(a[i].0, k)
    requires forall i :: 0 <= i < |b| ==> less(k, b[i].0)
    ensures Sorted(less, a + [(k, v)] + b)
    ensures k !in MapOf(a + b) && MapOf(a + [(k, v)] + b) == MapOf(a + b)[k := v]
  {
    var c := a + b;
    assert forall i :: 0 <= i < |b| ==> b[i].0 != k;
    MapOfMiddle(a, k, v, b);
    SortedInsert(less, equals, a, (k, v), b);
    MapOfKeys(c);
    assert forall i :: 0 <= i < |c| ==> c[i] == if i < |a| then a[i] else b[i - |a|];
    assert forall i :: 0 <= i < |c| ==> c[i].0 != k;
  }

  lemma MapOfUpdate(less: (Key, Key) -> bool, equals: (Key, Key) -> bool, e: seq<Entry>, i: nat, v: object?)
    requires Comparators(less, equals) && Sorted(less, e) && i < |e|
    ensures Sorted(less, e[i := (e[i].0, v)]) && MapOf(e[i := (e[i].0, v)]) == MapOf(e)[e[i].0 := v]
  {
    hide Sorted, MapOf, Comparators;
    var a, b, k := e[..i], e[i + 1..], e[i].0;
    assert e == a + [e[i]] + b && e[i := (k, v)] == a + [(k, v)] + b;
    SortedSplit(less, a, e[i], b);
    MapOfPut(less, equals, a, b, k, e[i].1);
    MapOfPut(less, equals, a, b, k, v);
    assert [e[i]] == [(k, e[i].1)];
    assert MapOf(e) == MapOf(a + b)[k := e[i].1];
    assert MapOf(a + b)[k := e[i].1][k := v] == MapOf(a + b)[k := v];
  }

  lemma MapOfDelete(less: (Key, Key) -> bool, equals: (Key, Key) -> bool, a: seq<Entry>, e: Entry, b: seq<Entry>)
    requires Comparators(less, equals) && Sorted(less, a + [e] + b)
    ensures Sorted(less, a + b) && MapOf(a + b) == MapOf(a + [e] + b) - {e.0}
  {
    SortedSplit(less, a, e, b);
    MapOfPut(less, equals, a, b, e.0, e.1);
    assert [e] == [(e.0, e.1)];
  }

  lemma SortedSplit(less: (Key, Key) -> bool, a: seq<Entry>, e: Entry, b: seq<Entry>)
    requires Sorted(less, a + [e] + b)
    ensures Sorted(less, a + b)
    ensures forall i :: 0 <= i < |a| ==> less(a[i].0, e.0)
    ensures forall i :: 0 <= i < |b| ==> less(e.0, b[i].0)
  {
    var c, d := a + b, a + [e] + b;
    assert forall i :: 0 <= i < |b| ==> d[|a| + 1 + i] == b[i];
    assert forall i :: 0 <= i < |a| ==> d[i] == a[i];
    assert d[|a|] == e;
    forall i, j | 0 <= i < j < |c| ensures less(c[i].0, c[j].0) {
      var i', j' := if i < |a| then i else i + 1, if j < |a| then j else j + 1;
      assert c[i] == d[i'] && c[j] == d[j'];
    }
  }
}
