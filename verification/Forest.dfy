// Several trees over the one global sentinel, under any interleaving of their operations.
module Forest {
  import opened RbNodes
  import opened RedBlackTree

  datatype Op =
    | PutOp(i: nat, key: Key, value: object?)
    | GetOp(i: nat, key: Key)
    | DeleteOp(i: nat, key: Key)
    | ClearOp(i: nat)

  type Maps = seq<map<Key, object?>>

  // What one operation does to a finite map, and what it returns.
  ghost function Change(m: map<Key, object?>, op: Op): map<Key, object?> {
    match op
    case PutOp(_, key, value) => m[key := value]
    case GetOp(_, _) => m
    case DeleteOp(_, key) => m - {key}
    case ClearOp(_) => map[]
  }

  ghost function Reply(m: map<Key, object?>, op: Op): object? {
    if op.ClearOp? || op.key !in m then null else m[op.key]
  }

  // Told without the map: a get finds what was put last under its key, put and delete return what a
  // get would have found, and nothing is found after a delete, after a clear, or at first.
  lemma DictionaryLaws(m: map<Key, object?>, i: nat, k: Key, l: Key, v: object?)
    ensures Reply(Change(m, PutOp(i, k, v)), GetOp(i, k)) == v
    ensures Reply(m, PutOp(i, k, v)) == Reply(m, DeleteOp(i, k)) == Reply(m, GetOp(i, k))
    ensures Reply(Change(m, DeleteOp(i, k)), GetOp(i, k)) == Reply(Change(m, ClearOp(i)), GetOp(i, k)) == null
    ensures Reply(map[], GetOp(i, k)) == null
    ensures k != l ==> Reply(Change(m, PutOp(i, k, v)), GetOp(i, l)) == Reply(m, GetOp(i, l))
    ensures k != l ==> Reply(Change(m, DeleteOp(i, k)), GetOp(i, l)) == Reply(m, GetOp(i, l))
    ensures Change(m, GetOp(i, k)) == m
  {
  }

  ghost function After(ms: Maps, op: Op): Maps
    requires op.i < |ms|
  {
    ms[op.i := Change(ms[op.i], op)]
  }

  ghost predicate InRange(ops: seq<Op>, n: nat) {
    forall k | 0 <= k < |ops| :: ops[k].i < n
  }

  ghost function AfterAll(ms: Maps, ops: seq<Op>): (r: Maps)
    requires InRange(ops, |ms|)
    ensures |r| == |ms|
    decreases |ops|
  {
    if ops == [] then ms else AfterAll(After(ms, ops[0]), ops[1..])
  }

  ghost function Answers(ms: Maps, ops: seq<Op>): seq<object?>
    requires InRange(ops, |ms|)
    decreases |ops|
  {
    if ops == [] then [] else [Reply(ms[ops[0].i], ops[0])] + Answers(After(ms, ops[0]), ops[1..])
  }

  ghost function Footprint(trees: seq<RbTree>): set<Node>
    reads trees
  {
    set i, n | 0 <= i < |trees| && n in trees[i].repr :: n
  }

  // Valid trees over one sentinel, their node sets apart, each standing for its own map.
  ghost predicate Agree(trees: seq<RbTree>, nil: Node, ms: Maps)
    reads trees, Footprint(trees), nil`color
  {
    && |ms| == |trees| && nil.color == BLACK
    && (forall i | 0 <= i < |trees| ::
          trees[i].nil == nil && nil !in trees[i].repr && trees[i].repr <= Footprint(trees))
    && (forall i | 0 <= i < |trees| :: trees[i].Valid() && trees[i].Map() == ms[i])
    && (forall i, j | 0 <= i < j < |trees| :: trees[i] != trees[j] && trees[i].repr !! trees[j].repr)
  }

  method Apply(t: RbTree, op: Op) returns (r: object?)
    requires t.Valid() && t.nil !in t.repr
    modifies t, t.repr, t.nil`parent, t.nil`color
    ensures t.Valid() && t.Map() == Change(old(t.Map()), op) && r == Reply(old(t.Map()), op)
    ensures fresh(t.repr - old(t.repr)) && t.nil !in t.repr && t.nil.color == BLACK
  {
    hide RbTree.Valid;
    hide RbTree.Map;
    match op {
      case PutOp(_, key, value) =>
        ghost var added, rotations;
        r, added, rotations := t.Put(key, value);
      case GetOp(_, key) =>
        r := t.Get(key);
      case DeleteOp(_, key) =>
        ghost var keys, nodes, rotations;
        r, keys, nodes, rotations := t.Delete(key);
      case ClearOp(_) =>
        ghost var gone := t.Clear();
        r := null;
    }
    NoSentinel(t);
  }

  lemma NoSentinel(t: RbTree)
    requires t.Valid()
    ensures t.nil !in t.repr && t.nil.color == BLACK
  {
  }

  method Step(trees: seq<RbTree>, nil: Node, op: Op, ghost ms: Maps) returns (r: object?)
    requires Agree(trees, nil, ms) && op.i < |trees|
    modifies trees, Footprint(trees), nil`parent, nil`color
    ensures Agree(trees, nil, After(ms, op)) && r == Reply(ms[op.i], op)
    ensures fresh(Footprint(trees) - old(Footprint(trees)))
  {
    r := ApplyAt(trees[op.i], trees, nil, op.i, op, ms);
  }

  // An operation on one tree of a forest.
  method ApplyAt(t: RbTree, ghost trees: seq<RbTree>, ghost nil: Node, ghost j: nat, op: Op, ghost ms: Maps)
    returns (r: object?)
    requires Agree(trees, nil, ms) && j < |trees| && trees[j] == t
    modifies trees, Footprint(trees), nil`parent, nil`color
    ensures Agree(trees, nil, ms[j := Change(ms[j], op)]) && r == Reply(ms[j], op)
    ensures fresh(Footprint(trees) - old(Footprint(trees)))
  {
    hide RbTree.Valid, RbTree.Map;
    r := Apply(t, op);
    assert forall i | 0 <= i < |trees| && i != j :: trees[i].Valid() && trees[i].Map() == ms[i];
  }

  // Every run of operations, in whatever order they reach the trees, is the run on the maps.
  method Run(trees: seq<RbTree>, nil: Node, ops: seq<Op>, ghost ms: Maps) returns (rs: seq<object?>)
    requires Agree(trees, nil, ms) && InRange(ops, |trees|)
    modifies trees, Footprint(trees), nil`parent, nil`color
    ensures Agree(trees, nil, AfterAll(ms, ops)) && rs == Answers(ms, ops)
    ensures fresh(Footprint(trees) - old(Footprint(trees)))
    decreases |ops|
  {
    hide Agree;
    rs := [];
    AgreeLength(trees, nil, ms);
    if ops != [] {
      var r := Step(trees, nil, ops[0], ms);
      var rest := Run(trees, nil, ops[1..], After(ms, ops[0]));
      rs := [r] + rest;
    }
  }

  lemma AgreeLength(trees: seq<RbTree>, nil: Node, ms: Maps)
    requires Agree(trees, nil, ms)
    ensures |ms| == |trees|
  {
  }
}
