// The comparators every tree of the daemon is created with: strcmp on keys.
module Strcmp {
  import opened RbNodes
  import opened SortedEntries

  // strcmp(a, b) < 0
  predicate Less(a: Key, b: Key) {
    if b == [] then false
    else if a == [] then true
    else if a[0] != b[0] then a[0] < b[0]
    else Less(a[1..], b[1..])
  }

  // strcmp(a, b) == 0
  predicate Equal(a: Key, b: Key) {
    a == b
  }

  lemma {:induction false} Irreflexive(a: Key)
    ensures !Less(a, a)
  {
    if a != [] {
      Irreflexive(a[1..]);
    }
  }

  lemma {:induction false} Total(a: Key, b: Key)
    ensures a == b || Less(a, b) || Less(b, a)
  {
    if a != [] && b != [] && a[0] == b[0] {
      Total(a[1..], b[1..]);
      assert a == [a[0]] + a[1..] && b == [b[0]] + b[1..];
    }
  }

  lemma {:induction false} Transitive(a: Key, b: Key, c: Key)
    requires Less(a, b) && Less(b, c)
    ensures Less(a, c)
  {
    if a != [] && a[0] == b[0] && b[0] == c[0] {
      Transitive(a[1..], b[1..], c[1..]);
    }
  }

  // They are a strict total order with its equality.
  lemma StrcmpOrders()
    ensures Comparators(Less, Equal)
  {
    forall a: Key ensures !Less(a, a) { Irreflexive(a); }
    forall a: Key, b: Key ensures a == b || Less(a, b) || Less(b, a) { Total(a, b); }
    forall a: Key, b: Key, c: Key | Less(a, b) && Less(b, c) ensures Less(a, c) { Transitive(a, b, c); }
  }

  // The order is that of the first place where the keys differ; a key comes before its continuations.
  lemma {:induction false} LessIff(a: Key, b: Key)
    ensures Less(a, b) <==> exists i | 0 <= i <= |a| && i < |b| :: Differs(a, b, i)
  {
    if a != [] && b != [] && a[0] == b[0] {
      LessIff(a[1..], b[1..]);
      if Less(a, b) {
        var i :| 0 <= i <= |a[1..]| && i < |b[1..]| && Differs(a[1..], b[1..], i);
        assert a[..i + 1] == [a[0]] + a[1..][..i] && b[..i + 1] == [b[0]] + b[1..][..i];
        assert Differs(a, b, i + 1);
      }
      if i :| 0 <= i <= |a| && i < |b| && Differs(a, b, i) {
        assert i > 0;
        assert a[1..][..i - 1] == a[..i][1..] && b[1..][..i - 1] == b[..i][1..];
        assert Differs(a[1..], b[1..], i - 1);
      }
    } else if Less(a, b) {
      assert Differs(a, b, 0);
    }
  }

  // The keys agree before place i, and there a ends or has the smaller character.
  ghost predicate Differs(a: Key, b: Key, i: nat)
    requires i <= |a| && i < |b|
  {
    a[..i] == b[..i] && (i == |a| || a[i] < b[i])
  }
}
