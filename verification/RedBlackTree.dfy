// The tree of src/rbtree.c on the heap: nodes with parent links, one sentinel shared by all trees.
module RedBlackTree {
  import opened RbNodes
  import opened RbShapes
  import opened RbMemory
  import opened SortedEntries

  ghost function EntriesOf(s: seq<Node>): (e: seq<Entry>)
    reads s
    ensures |e| == |s| && forall i :: 0 <= i < |s| ==> e[i] == (s[i].key, s[i].value)
  {
    seq(|s|, i requires 0 <= i < |s| reads s => (s[i].key, s[i].value))
  }

  lemma EntriesConcat(a: seq<Node>, b: seq<Node>)
    ensures EntriesOf(a + b) == EntriesOf(a) + EntriesOf(b)
  {
  }

  lemma EmptyEntries()
    ensures EntriesOf([]) == []
  {
  }

  lemma EntriesAround(a: seq<Node>, n: Node, b: seq<Node>)
    ensures EntriesOf(a + [n] + b) == EntriesOf(a) + [(n.key, n.value)] + EntriesOf(b)
  {
  }

  ghost predicate Below(less: (Key, Key) -> bool, s: seq<Node>, key: Key)
    reads s
  {
    forall i | 0 <= i < |s| :: less(s[i].key, key)
  }

  ghost predicate Above(less: (Key, Key) -> bool, key: Key, s: seq<Node>)
    reads s
  {
    forall i | 0 <= i < |s| :: less(key, s[i].key)
  }

  lemma BelowConcat(less: (Key, Key) -> bool, a: seq<Node>, b: seq<Node>, key: Key)
    ensures Below(less, a + b, key) <==> Below(less, a, key) && Below(less, b, key)
  {
    if Below(less, a + b, key) {
      forall i | 0 <= i < |a| ensures less(a[i].key, key) { assert (a + b)[i] == a[i]; }
      forall i | 0 <= i < |b| ensures less(b[i].key, key) { assert (a + b)[|a| + i] == b[i]; }
    }
  }

  lemma AboveConcat(less: (Key, Key) -> bool, key: Key, a: seq<Node>, b: seq<Node>)
    ensures Above(less, key, a + b) <==> Above(less, key, a) && Above(less, key, b)
  {
    if Above(less, key, a + b) {
      forall i | 0 <= i < |a| ensures less(key, a[i].key) { assert (a + b)[i] == a[i]; }
      forall i | 0 <= i < |b| ensures less(key, b[i].key) { assert (a + b)[|a| + i] == b[i]; }
    }
  }

  // A bound moves past a node.
  lemma AboveLess(less: (Key, Key) -> bool, equals: (Key, Key) -> bool, key: Key, n: Node, s: seq<Node>)
    requires Comparators(less, equals) && less(key, n.key) && Above(less, n.key, s)
    ensures Above(less, key, [n] + s)
  {
  }

  lemma BelowLess(less: (Key, Key) -> bool, equals: (Key, Key) -> bool, s: seq<Node>, n: Node, key: Key)
    requires Comparators(less, equals) && Below(less, s, n.key) && less(n.key, key)
    ensures Below(less, s + [n], key)
  {
  }

  // A key between two stretches is in neither.
  lemma Apart(less: (Key, Key) -> bool, equals: (Key, Key) -> bool, a: seq<Node>, b: seq<Node>, key: Key)
    requires Comparators(less, equals) && Below(less, a, key) && Above(less, key, b)
    ensures key !in MapOf(EntriesOf(a + b))
  {
    var s := a + b;
    MapOfKeys(EntriesOf(s));
    forall i | 0 <= i < |s| ensures EntriesOf(s)[i].0 != key {
      assert s[i] == if i < |a| then a[i] else b[i - |a|];
    }
  }

  lemma KeysAround(less: (Key, Key) -> bool, a: seq<Node>, n: Node, b: seq<Node>)
    requires Sorted(less, EntriesOf(a + [n] + b))
    ensures Below(less, a, n.key) && Above(less, n.key, b)
  {
    EntriesConcat(a, [n]);
    EntriesConcat(a + [n], b);
    assert EntriesOf([n]) == [(n.key, n.value)];
    SortedSplit(less, EntriesOf(a), (n.key, n.value), EntriesOf(b));
  }

  lemma OneNode(s: seq<Node>, i: nat)
    requires i < |s| && DistinctKeys(EntriesOf(s))
    ensures forall j :: 0 <= j < |s| && j != i ==> s[j] != s[i]
  {
    var e := EntriesOf(s);
    forall j | 0 <= j < |s| && j != i ensures s[j] != s[i] {
      assert e[j].0 != e[i].0;
    }
  }

  lemma OnceIn(less: (Key, Key) -> bool, equals: (Key, Key) -> bool, a: seq<Node>, n: Node, y: Node, b: seq<Node>)
    requires Comparators(less, equals) && Sorted(less, EntriesOf(a + [n] + ([y] + b)))
    ensures (forall i | 0 <= i < |a| :: a[i] != n) && (forall i | 0 <= i < |b| :: b[i] != n) && n != y
  {
    var s := a + [n] + ([y] + b);
    SortedDistinct(less, equals, EntriesOf(s));
    hide Sorted, Comparators;
    OneNode(s, |a|);
    assert s[|a|] == n && s[|a| + 1] == y;
    assert forall i | 0 <= i < |a| :: s[i] == a[i];
    assert forall i | 0 <= i < |b| :: s[|a| + 2 + i] == b[i];
  }

  lemma NewEntry(less: (Key, Key) -> bool, equals: (Key, Key) -> bool, a: seq<Node>, x: Node, b: seq<Node>)
    requires Comparators(less, equals) && Sorted(less, EntriesOf(a + b))
    requires Below(less, a, x.key) && Above(less, x.key, b)
    ensures Sorted(less, EntriesOf(a + [x] + b))
    ensures MapOf(EntriesOf(a + [x] + b)) == MapOf(EntriesOf(a + b))[x.key := x.value]
  {
    EntriesConcat(a, b);
    EntriesConcat(a, [x]);
    EntriesConcat(a + [x], b);
    assert EntriesOf([x]) == [(x.key, x.value)];
    MapOfPut(less, equals, EntriesOf(a), EntriesOf(b), x.key, x.value);
  }

  lemma WithoutEntry(less: (Key, Key) -> bool, equals: (Key, Key) -> bool, a: seq<Node>, n: Node, b: seq<Node>)
    requires Comparators(less, equals) && Sorted(less, EntriesOf(a + [n] + b))
    ensures Sorted(less, EntriesOf(a + b)) && MapOf(EntriesOf(a + b)) == MapOf(EntriesOf(a + [n] + b)) - {n.key}
  {
    EntriesConcat(a, b);
    EntriesConcat(a, [n]);
    EntriesConcat(a + [n], b);
    assert EntriesOf([n]) == [(n.key, n.value)];
    MapOfDelete(less, equals, EntriesOf(a), (n.key, n.value), EntriesOf(b));
  }

  lemma EmptyTree(nil: Node)
    ensures Zipped(map[], nil, nil, Top, Leaf) && Balanced(Leaf)
  {
  }

  class RbTree {
    var root: Node
    const nil: Node
    const less: (Key, Key) -> bool
    const equals: (Key, Key) -> bool
    ghost var repr: set<Node>
    ghost var shape: Shape
    ghost var turns: nat  // rotations made so far

    // rbtree_init
    constructor (nil: Node, less: (Key, Key) -> bool, equals: (Key, Key) -> bool)
      requires nil.color == BLACK && Comparators(less, equals)
      ensures Valid() && Map() == map[] && repr == {} && this.nil == nil
    {
      root, this.nil := nil, nil;
      this.less, this.equals := less, equals;
      repr, shape, turns := {}, Leaf, 0;
    }

    ghost predicate Valid()
      reads this, repr, nil`color
    {
      && nil.color == BLACK && Comparators(less, equals)
      && At(Top, shape) && RedBlack(shape)
      && (forall i | 0 <= i < |InOrder(shape)| :: InOrder(shape)[i] in repr)
      && Sorted(less, EntriesOf(InOrder(shape)))
    }

    // The finite map the tree stands for.
    ghost function Map(): map<Key, object?>
      requires Valid()
      reads this, repr, nil`color
    {
      MapOf(EntriesOf(InOrder(shape)))
    }

    ghost function Memory(): Memory
      reads this`repr, repr
    {
      map n | n in repr :: CellOf(n)
    }

    // The tree, seen from the subtree `t` at the end of `z`.
    ghost predicate At(z: Path, t: Shape)
      reads this, repr
    {
      Zipped(Memory(), root, nil, z, t)
    }

    // ----- moving the distinguished subtree, and colouring its root -----

    lemma Up(z: Path, t: Shape)
      requires At(z, t) && z.Down?
      ensures At(z.up, Join(z, t)) && InOrderAt(z.up, Join(z, t)) == InOrderAt(z, t)
    {
      ZipUp(Memory(), root, nil, z, t);
      InOrderUp(z, t);
    }

    lemma Into(z: Path, t: Shape, side: Side)
      requires At(z, t) && t.Fork?
      ensures var z' := Down(side, t.n, t.c, Far(side, t), z);
              At(z', Near(side, t)) && InOrderAt(z', Near(side, t)) == InOrderAt(z, t)
    {
      ZipDown(Memory(), root, nil, z, t, side);
      InOrderUp(Down(side, t.n, t.c, Far(side, t), z), Near(side, t));
    }

    lemma Whole(z: Path, t: Shape)
      requires At(z, t)
      ensures At(Top, Plug(z, t)) && InOrder(Plug(z, t)) == InOrderAt(z, t)
    {
      ZipTop(Memory(), root, nil, z, t);
      InOrderPlug(z, t);
    }

    method Paint(n: Node, c: Color, ghost z: Path, ghost t: Shape)
      requires At(z, t) && t.Fork? && t.n == n
      modifies repr`color
      ensures At(z, t.(c := c)) && InOrderAt(z, t.(c := c)) == InOrderAt(z, t)
    {
      assert n in Nodes(t);
      ghost var m := Memory();
      hide Zipped, Nodes;
      n.color := c;
      ColorWritten(m, n, c);
      PaintedZipped(m, root, nil, z, t, c);
    }

    lemma ColorWritten(m: Memory, n: Node, c: Color)
      requires m.Keys == repr && n in repr
      requires forall k | k in repr :: CellOf(k) == if k == n then m[k].(color := c) else m[k]
      ensures Memory() == Painted(m, n, c)
    {
    }

    // ----- _rbtree_rotate_left, _rbtree_rotate_right -----

    // The nodes a rotation at `x` writes exist and are apart.
    ghost predicate Rotatable(side: Side, x: Node)
      reads this, repr
    {
      && nil !in repr && x in repr
      && RotationApart(Memory(), side, x, nil)
    }

    method RotateLeft(x: Node)
      requires Rotatable(RIGHT, x)
      modifies this`root, this`turns, repr`left, repr`right, repr`parent
      ensures old(x.right) in old(Memory()) && Rotates(old(Memory()), Memory(), RIGHT, x, nil)
      ensures root == if old(x.parent) == null then old(x.right) else old(root)
      ensures turns == old(turns) + 1
    {
      turns := turns + 1;
      var y := x.right;
      x.right := y.left;
      if y.left != nil {
        y.left.parent := x;
      }
      if y != nil {
        y.parent := x.parent;
      }
      if x.parent != null {
        if x == x.parent.left {
          x.parent.left := y;
        } else {
          x.parent.right := y;
        }
      } else {
        root := y;
      }
      y.left := x;
      if x != nil {
        x.parent := y;
      }
    }

    // A left rotation of the distinguished subtree.
    method LeftAt(x: Node, ghost z: Path, ghost t: Shape)
      requires At(z, t) && t.Fork? && t.n == x && t.r.Fork?
      modifies this`root, this`turns, repr`left, repr`right, repr`parent
      ensures At(z, Lift(RIGHT, t)) && InOrderAt(z, Lift(RIGHT, t)) == InOrderAt(z, t)
      ensures turns == old(turns) + 1
    {
      ghost var m, root0 := Memory(), root;
      RotationReady(m, root, nil, z, t, RIGHT);
      RotateLeft(x);
      RotatedZipped(m, Memory(), root0, nil, z, t, RIGHT);
      LiftInOrder(RIGHT, t);
    }

    method RotateRight(x: Node)
      requires Rotatable(LEFT, x)
      modifies this`root, this`turns, repr`left, repr`right, repr`parent
      ensures old(x.left) in old(Memory()) && Rotates(old(Memory()), Memory(), LEFT, x, nil)
      ensures root == if old(x.parent) == null then old(x.left) else old(root)
      ensures turns == old(turns) + 1
    {
      turns := turns + 1;
      var y := x.left;
      x.left := y.right;
      if y.right != nil {
        y.right.parent := x;
      }
      if y != nil {
        y.parent := x.parent;
      }
      if x.parent != null {
        if x == x.parent.right {
          x.parent.right := y;
        } else {
          x.parent.left := y;
        }
      } else {
        root := y;
      }
      y.right := x;
      if x != nil {
        x.parent := y;
      }
    }

    // A right rotation of the distinguished subtree.
    method RightAt(x: Node, ghost z: Path, ghost t: Shape)
      requires At(z, t) && t.Fork? && t.n == x && t.l.Fork?
      modifies this`root, this`turns, repr`left, repr`right, repr`parent
      ensures At(z, Lift(LEFT, t)) && InOrderAt(z, Lift(LEFT, t)) == InOrderAt(z, t)
      ensures turns == old(turns) + 1
    {
      ghost var m, root0 := Memory(), root;
      RotationReady(m, root, nil, z, t, LEFT);
      RotateRight(x);
      RotatedZipped(m, Memory(), root0, nil, z, t, LEFT);
      LiftInOrder(LEFT, t);
    }

    // A rotation lifting the child on `side` of `x`.
    method LiftAt(side: Side, x: Node, ghost z: Path, ghost t: Shape)
      requires At(z, t) && t.Fork? && t.n == x && Near(side, t).Fork?
      modifies this`root, this`turns, repr`left, repr`right, repr`parent
      ensures At(z, Lift(side, t)) && InOrderAt(z, Lift(side, t)) == InOrderAt(z, t)
      ensures turns == old(turns) + 1
    {
      hide Zipped;
      if side == RIGHT {
        LeftAt(x, z, t);
      } else {
        RightAt(x, z, t);
      }
    }

    // Following the links from the root of the distinguished subtree.
    lemma Around(z: Path, t: Shape)
      requires At(z, t) && nil.color == BLACK
      ensures nil !in repr
      ensures t.Fork? ==> t.n in repr && t.n.color == t.c && t.n.parent == PathPtr(z)
      ensures t.Fork? ==> t.n.left == Ptr(t.l, nil) && t.n.right == Ptr(t.r, nil)
      ensures t.Fork? ==> Ptr(t.l, nil) in repr + {nil} && Ptr(t.r, nil) in repr + {nil}
      ensures t.Fork? ==> (Ptr(t.l, nil) == nil <==> t.l.Leaf?) && (Ptr(t.r, nil) == nil <==> t.r.Leaf?)
      ensures z.Top? ==> root == Ptr(t, nil)
      ensures z.Down? ==> root != Ptr(t, nil) && z.n in repr && z.n.color == z.c && z.n.parent == PathPtr(z.up)
      ensures z.Down? ==> Child(Memory()[z.n], z.side) == Ptr(t, nil)
                          && Child(Memory()[z.n], Other(z.side)) == Ptr(z.sib, nil)
      ensures z.Down? ==> Ptr(z.sib, nil) != Ptr(t, nil) || (t.Leaf? && z.sib.Leaf?)
      ensures z.Down? ==> (Ptr(z.sib, nil).color == BLACK <==> IsBlack(z.sib))
      ensures Ptr(t, nil).color == BLACK <==> IsBlack(t)
    {
      assert t.Fork? ==> t.n in Nodes(t);
      assert t.Fork? && t.l.Fork? ==> t.l.n in Nodes(t.l);
      assert t.Fork? && t.r.Fork? ==> t.r.n in Nodes(t.r);
      assert z.Down? ==> z.n in PathNodes(z);
      assert z.Down? && z.sib.Fork? ==> z.sib.n in Nodes(z.sib) && z.sib.n in PathNodes(z);
    }

    // ----- _rbtree_put_fixup -----

    // Red uncle `y`: both branches of the loop do the same.
    method PutRecolor(x: Node, y: Node, ghost z: Path, ghost t: Shape)
      requires nil.color == BLACK && At(z, t) && t.Fork? && t.n == x
      requires z.Down? && z.up.Down? && z.up.sib.Fork? && z.up.sib.n == y
      requires x.parent == z.n && z.n.parent == z.up.n
      modifies repr`color
      ensures var t' := Join(z.up.(c := RED, sib := Blacken(z.up.sib)), Join(z.(c := BLACK), t));
              At(z.up.up, t') && InOrderAt(z.up.up, t') == InOrderAt(z, t)
    {
      hide Zipped;
      ghost var g := z.up;
      ghost var p := Join(z.(c := BLACK), t);
      ghost var u := Down(Other(g.side), g.n, g.c, p, g.up);
      Up(z, t);
      Paint(x.parent, BLACK, g, Join(z, t));
      Up(g, p);
      Into(g.up, Join(g, p), Other(g.side));
      Paint(y, BLACK, u, g.sib);
      Up(u, Blacken(g.sib));
      Paint(x.parent.parent, RED, g.up, Join(u, Blacken(g.sib)));
    }

    // Black uncle and `x` an inner grandchild: make it an outer one.
    method PutCaseInner(side: Side, p: Node, ghost z: Path, ghost t: Shape) returns (ghost z': Path, ghost t': Shape)
      requires At(z, t) && PutInv(z, t) && UnderRed(z) && z.up.Down? && z.up.side == side && z.side != side && z.n == p
      modifies this`root, this`turns, repr`left, repr`right, repr`parent
      ensures At(z', t') && PutInv(z', t') && UnderRed(z') && t'.n == p && z'.side == side && z'.up == z.up
      ensures InOrderAt(z', t') == InOrderAt(z, t)
      ensures turns == old(turns) + 1
    {
      hide Zipped;
      PutInnerStep(z, t);
      Up(z, t);
      LiftAt(Other(side), p, z.up, Join(z, t));
      ghost var r := Lift(z.side, Join(z, t));
      Into(z.up, r, side);
      z', t' := Down(side, r.n, r.c, Far(side, r), z.up), Near(side, r);
    }

    // Black uncle and `x` an outer grandchild: recolour, rotate the grandparent `g`.
    method PutCaseOuter(side: Side, p: Node, g: Node, ghost z: Path, ghost t: Shape) returns (ghost z': Path)
      requires At(z, t) && PutInv(z, t) && UnderRed(z) && z.up.Down? && z.side == z.up.side == side
      requires z.n == p && z.up.n == g && IsBlack(z.up.sib)
      modifies this`root, this`turns, repr`left, repr`right, repr`parent, repr`color
      ensures At(z', t) && PutInv(z', t) && !UnderRed(z') && Depth(z') < Depth(z)
      ensures InOrderAt(z', t) == InOrderAt(z, t)
      ensures turns == old(turns) + 1
    {
      hide Zipped;
      PutOuterStep(z, t);
      ghost var q := Join(z.(c := BLACK), t);
      Up(z, t);
      Paint(p, BLACK, z.up, Join(z, t));
      Up(z.up, q);
      Paint(g, RED, z.up.up, Join(z.up, q));
      LiftAt(side, g, z.up.up, Join(z.up.(c := RED), q));
      ghost var r := Lift(side, Join(z.up.(c := RED), q));
      Into(z.up.up, r, side);
      z' := Down(side, r.n, r.c, Far(side, r), z.up.up);
    }

    // One round of the loop when the parent is a left child.
    method PutStepLeft(x0: Node, ghost z0: Path, ghost t0: Shape)
      returns (x: Node, ghost z: Path, ghost t: Shape, ghost rotations: nat)
      requires nil.color == BLACK && At(z0, t0) && PutInv(z0, t0) && t0.n == x0
      requires UnderRed(z0) && z0.up.Down? && z0.up.side == LEFT
      modifies this`root, this`turns, repr`left, repr`right, repr`parent, repr`color
      ensures At(z, t) && PutInv(z, t) && t.n == x && InOrderAt(z, t) == InOrderAt(z0, t0)
      ensures Depth(z) < Depth(z0)
      ensures rotations == 0 || (rotations <= 2 && !UnderRed(z))
      ensures turns == old(turns) + rotations
    {
      hide Zipped;
      hide InOrderAt;
      hide Fits;
      hide Balanced;
      x, z, t, rotations := x0, z0, t0, 0;
      Around(z, t);
      Up(z, t);
      Around(z.up, Join(z, t));
      var y := x.parent.parent.right;
      if y.color == RED {
        PutRecolorStep(z, t);
        PutRecolor(x, y, z, t);
        x := x.parent.parent;
        z, t := z.up.up, Join(z.up.(c := RED, sib := Blacken(z.up.sib)), Join(z.(c := BLACK), t));
      } else {
        if x == x.parent.right {
          x := x.parent;
          z, t := PutCaseInner(LEFT, x, z, t);
          rotations := 1;
          Around(z, t);
          Up(z, t);
          Around(z.up, Join(z, t));
        }
        z := PutCaseOuter(LEFT, x.parent, x.parent.parent, z, t);
        rotations := rotations + 1;
      }
    }

    // One round of the loop when the parent is a right child.
    method PutStepRight(x0: Node, ghost z0: Path, ghost t0: Shape)
      returns (x: Node, ghost z: Path, ghost t: Shape, ghost rotations: nat)
      requires nil.color == BLACK && At(z0, t0) && PutInv(z0, t0) && t0.n == x0
      requires UnderRed(z0) && z0.up.Down? && z0.up.side == RIGHT
      modifies this`root, this`turns, repr`right, repr`left, repr`parent, repr`color
      ensures At(z, t) && PutInv(z, t) && t.n == x && InOrderAt(z, t) == InOrderAt(z0, t0)
      ensures Depth(z) < Depth(z0)
      ensures rotations == 0 || (rotations <= 2 && !UnderRed(z))
      ensures turns == old(turns) + rotations
    {
      hide Zipped;
      hide InOrderAt;
      hide Fits;
      hide Balanced;
      x, z, t, rotations := x0, z0, t0, 0;
      Around(z, t);
      Up(z, t);
      Around(z.up, Join(z, t));
      var y := x.parent.parent.left;
      if y.color == RED {
        PutRecolorStep(z, t);
        PutRecolor(x, y, z, t);
        x := x.parent.parent;
        z, t := z.up.up, Join(z.up.(c := RED, sib := Blacken(z.up.sib)), Join(z.(c := BLACK), t));
      } else {
        if x == x.parent.left {
          x := x.parent;
          z, t := PutCaseInner(RIGHT, x, z, t);
          rotations := 1;
          Around(z, t);
          Up(z, t);
          Around(z.up, Join(z, t));
        }
        z := PutCaseOuter(RIGHT, x.parent, x.parent.parent, z, t);
        rotations := rotations + 1;
      }
    }

    method PutFixup(x0: Node, ghost z0: Path, ghost t0: Shape) returns (ghost whole: Shape, ghost rotations: nat)
      requires nil.color == BLACK && At(z0, t0) && PutInv(z0, t0) && t0.n == x0
      modifies this`root, this`turns, repr`left, repr`right, repr`parent, repr`color
      ensures At(Top, whole) && RedBlack(whole) && InOrder(whole) == InOrderAt(z0, t0)
      ensures rotations <= 2
      ensures turns == old(turns) + rotations
    {
      hide Zipped;
      var x := x0;
      ghost var z, t := z0, t0;
      rotations := 0;
      Around(z, t);
      while x != root && x.parent.color == RED
        invariant At(z, t) && PutInv(z, t) && t.n == x && InOrderAt(z, t) == InOrderAt(z0, t0)
        invariant rotations == 0 || (rotations <= 2 && !UnderRed(z))
        invariant turns == old(turns) + rotations
        invariant x != root ==> z.Down? && x.parent == z.n && z.n.color == z.c
        invariant x == root ==> z.Top?
        invariant nil.color == BLACK
        decreases Depth(z)
      {
        Around(z, t);
        Up(z, t);
        Around(z.up, Join(z, t));
        if x.parent == x.parent.parent.left {
          x, z, t, rotations := PutStepLeft(x, z, t);
        } else {
          x, z, t, rotations := PutStepRight(x, z, t);
        }
        Around(z, t);
      }
      PutDone(z, t);
      Whole(z, t);
      whole := Plug(z, t);
      Around(Top, whole);
      InOrderPlug(z, t);
      Paint(root, BLACK, Top, whole);
      whole := Blacken(whole);
    }

    // ----- _rbtree_delete_node_fixup -----

    // The same tree, seen from the sibling.
    ghost function Across(z: Path, t: Shape): Path
      requires z.Down?
    {
      Down(Other(z.side), z.n, z.c, t, z.up)
    }

    lemma ToSibling(z: Path, t: Shape)
      requires At(z, t) && z.Down?
      ensures At(Across(z, t), z.sib) && InOrderAt(Across(z, t), z.sib) == InOrderAt(z, t)
    {
      hide Zipped;
      Up(z, t);
      Into(z.up, Join(z, t), Other(z.side));
    }

    lemma FromSibling(z: Path, t: Shape, s: Shape)
      requires z.Down? && At(Across(z, t), s)
      ensures At(z.(sib := s), t) && InOrderAt(z.(sib := s), t) == InOrderAt(Across(z, t), s)
    {
      hide Zipped;
      Up(Across(z, t), s);
      Into(z.up, Join(z.(sib := s), t), z.side);
    }

    method PaintParent(p: Node, c: Color, ghost z: Path, ghost t: Shape)
      requires At(z, t) && z.Down? && z.n == p
      modifies repr`color
      ensures At(z.(c := c), t) && InOrderAt(z.(c := c), t) == InOrderAt(z, t)
    {
      hide Zipped;
      Up(z, t);
      Paint(p, c, z.up, Join(z, t));
      Into(z.up, Join(z.(c := c), t), z.side);
    }

    method PaintSibling(w: Node, c: Color, ghost z: Path, ghost t: Shape)
      requires At(z, t) && z.Down? && z.sib.Fork? && z.sib.n == w
      modifies repr`color
      ensures var z' := z.(sib := z.sib.(c := c));
              At(z', t) && InOrderAt(z', t) == InOrderAt(z, t)
    {
      hide Zipped;
      ToSibling(z, t);
      Paint(w, c, Across(z, t), z.sib);
      FromSibling(z, t, z.sib.(c := c));
    }

    // A child of the sibling turns black.
    method PaintNephew(v: Node, ghost side: Side, ghost z: Path, ghost t: Shape)
      requires At(z, t) && z.Down? && z.sib.Fork? && Near(side, z.sib).Fork? && Near(side, z.sib).n == v
      modifies repr`color
      ensures var w := z.sib;
              var z' := z.(sib := Mk(side, w.n, w.c, Blacken(Near(side, w)), Far(side, w)));
              At(z', t) && InOrderAt(z', t) == InOrderAt(z, t)
    {
      hide Zipped;
      ghost var w := z.sib;
      ToSibling(z, t);
      Into(Across(z, t), w, side);
      ghost var z1 := Down(side, w.n, w.c, Far(side, w), Across(z, t));
      Paint(v, BLACK, z1, Near(side, w));
      Up(z1, Blacken(Near(side, w)));
      FromSibling(z, t, Join(z1, Blacken(Near(side, w))));
    }

    // The sibling `w` of the short subtree is red.
    method DelCaseRed(side: Side, w: Node, p: Node, ghost z: Path, ghost t: Shape) returns (ghost z': Path)
      requires At(z, t) && DelInv(z, t) && DelBusy(z, t) && z.side == side && z.n == p
      requires z.sib.Fork? && z.sib.c.RED? && z.sib.n == w
      modifies this`root, this`turns, repr`left, repr`right, repr`parent, repr`color
      ensures At(z', t) && DelInv(z', t) && z'.Down? && z'.side == side && z'.n == p && z'.c.RED? && IsBlack(z'.sib)
      ensures InOrderAt(z', t) == InOrderAt(z, t) && Depth(z') == Depth(z) + 1
      ensures turns == old(turns) + 1
    {
      hide Zipped;
      DelSibling(z, t);
      DelRedSibling(z, t);
      PaintSibling(w, BLACK, z, t);
      ghost var z1 := z.(c := RED, sib := Blacken(z.sib));
      PaintParent(p, RED, z.(sib := Blacken(z.sib)), t);
      Up(z1, t);
      LiftAt(Other(side), p, z.up, Join(z1, t));
      ghost var r := Lift(Other(side), Join(z1, t));
      Into(z.up, r, side);
      z' := Down(side, r.n, r.c, Far(side, r), z.up);
      Into(z', Near(side, r), side);
      z' := Down(side, z.n, RED, Near(side, z.sib), z');
    }

    // Black sibling `w`, its outer child black: bring its red inner child `v` up.
    method DelCaseInner(side: Side, w: Node, v: Node, ghost z: Path, ghost t: Shape) returns (ghost z': Path)
      requires At(z, t) && DelInv(z, t) && DelBusy(z, t) && z.side == side
      requires z.sib.Fork? && z.sib.n == w && IsBlack(z.sib)
      requires !IsBlack(Near(side, z.sib)) && Near(side, z.sib).n == v && IsBlack(Far(side, z.sib))
      modifies this`root, this`turns, repr`left, repr`right, repr`parent, repr`color
      ensures At(z', t) && DelInv(z', t) && z'.Down? && z' == z.(sib := z'.sib)
      ensures z'.sib.Fork? && IsBlack(z'.sib) && !IsBlack(Far(side, z'.sib))
      ensures InOrderAt(z', t) == InOrderAt(z, t)
      ensures turns == old(turns) + 1
    {
      hide Zipped;
      DelInnerNephew(z, t);
      PaintNephew(v, side, z, t);
      ghost var w1 := Mk(side, w, z.sib.c, Blacken(Near(side, z.sib)), Far(side, z.sib));
      PaintSibling(w, RED, z.(sib := w1), t);
      ghost var w2 := w1.(c := RED);
      ToSibling(z.(sib := w2), t);
      LiftAt(side, w, Across(z, t), w2);
      FromSibling(z, t, Lift(side, w2));
      z' := z.(sib := Lift(side, w2));
    }

    // Black sibling `w` with a red outer child `v`: the shortage ends.
    method DelCaseOuter(side: Side, w: Node, v: Node, p: Node, ghost z: Path, ghost t: Shape)
      returns (ghost whole: Shape)
      requires At(z, t) && DelInv(z, t) && DelBusy(z, t) && z.side == side && z.n == p && p.color == z.c
      requires z.sib.Fork? && z.sib.n == w && IsBlack(z.sib)
      requires !IsBlack(Far(side, z.sib)) && Far(side, z.sib).n == v
      modifies this`root, this`turns, repr`left, repr`right, repr`parent, repr`color
      ensures At(Top, whole) && DelInv(Top, whole) && whole.Fork? && IsBlack(whole)
      ensures InOrderAt(Top, whole) == InOrderAt(z, t)
      ensures turns == old(turns) + 1
    {
      hide Zipped;
      DelOuterNephew(z, t);
      PaintSibling(w, p.color, z, t);
      ghost var w1 := z.sib.(c := z.c);
      PaintParent(p, BLACK, z.(sib := w1), t);
      PaintNephew(v, Other(side), z.(c := BLACK, sib := w1), t);
      ghost var w2 := Mk(side, w, z.c, Near(side, z.sib), Blacken(Far(side, z.sib)));
      ghost var z1 := z.(c := BLACK, sib := w2);
      Up(z1, t);
      LiftAt(Other(side), p, z.up, Join(z1, t));
      ghost var r := Lift(Other(side), Join(z1, t));
      Whole(z.up, r);
      whole := Plug(z.up, r);
      PlugIsFork(z.up, r);
    }

    // One round of the loop when `x` is a left child, once its sibling is black.
    method DelSettleLeft(x0: Node, w0: Node, ghost z0: Path, ghost t0: Shape)
      returns (x: Node, ghost z: Path, ghost t: Shape, ghost rotations: nat)
      requires nil.color == BLACK && At(z0, t0) && DelInv(z0, t0) && DelBusy(z0, t0)
      requires x0 == Ptr(t0, nil) && x0.parent == PathPtr(z0) && z0.side == LEFT
      requires z0.sib.Fork? && z0.sib.n == w0 && IsBlack(z0.sib)
      modifies this`root, this`turns, repr`left, repr`right, repr`parent, repr`color
      ensures At(z, t) && DelInv(z, t) && InOrderAt(z, t) == InOrderAt(z0, t0)
      ensures x == Ptr(t, nil) && x.parent == PathPtr(z)
      ensures if rotations == 0 then Depth(z) + 1 == Depth(z0) && t.Fork? && t.c == z0.c else !DelBusy(z, t) && z.Top?
      ensures rotations <= 2
      ensures turns == old(turns) + rotations
    {
      hide Zipped;
      hide InOrderAt;
      hide DelInv;
      x, z, t, rotations := x0, z0, t0, 0;
      var w := w0;
      Around(z, t);
      Nephews(z, t);
      if w.left.color == BLACK && w.right.color == BLACK {
        DelBlackNephews(z, t);
        PaintSibling(w, RED, z, t);
        Up(z.(sib := z.sib.(c := RED)), t);
        x := x.parent;
        z, t := z.up, Join(z.(sib := z.sib.(c := RED)), t);
        Around(z, t);
      } else {
        if w.right.color == BLACK {
          z := DelCaseInner(LEFT, w, w.left, z, t);
          rotations := rotations + 1;
          Around(z, t);
          w := x.parent.right;
          Nephews(z, t);
        }
        t := DelCaseOuter(LEFT, w, w.right, x.parent, z, t);
        z, rotations := Top, rotations + 1;
        x := root;
        Around(z, t);
      }
    }

    // One round of the loop when `x` is a left child.
    method DelStepLeft(x0: Node, ghost z0: Path, ghost t0: Shape)
      returns (x: Node, ghost z: Path, ghost t: Shape, ghost rotations: nat)
      requires nil.color == BLACK && At(z0, t0) && DelInv(z0, t0) && DelBusy(z0, t0)
      requires x0 == Ptr(t0, nil) && x0.parent == PathPtr(z0) && z0.side == LEFT
      modifies this`root, this`turns, repr`left, repr`right, repr`parent, repr`color
      ensures At(z, t) && DelInv(z, t) && InOrderAt(z, t) == InOrderAt(z0, t0)
      ensures x == Ptr(t, nil) && x.parent == PathPtr(z)
      ensures Depth(z) + Ink(if IsBlack(t) then BLACK else RED) < Depth(z0) + 1
      ensures rotations == 0 || (rotations <= 3 && !DelBusy(z, t))
      ensures turns == old(turns) + rotations
    {
      hide Zipped;
      hide InOrderAt;
      hide DelInv;
      x, z, t, rotations := x0, z0, t0, 0;
      Around(z, t);
      DelSibling(z, t);
      var w := x.parent.right;
      if w.color == RED {
        z := DelCaseRed(LEFT, w, x.parent, z, t);
        rotations := 1;
        Around(z, t);
        DelSibling(z, t);
        w := x.parent.right;
      }
      ghost var more: nat;
      x, z, t, more := DelSettleLeft(x, w, z, t);
      rotations := rotations + more;
    }

    // One round of the loop when `x` is a right child, once its sibling is black.
    method DelSettleRight(x0: Node, w0: Node, ghost z0: Path, ghost t0: Shape)
      returns (x: Node, ghost z: Path, ghost t: Shape, ghost rotations: nat)
      requires nil.color == BLACK && At(z0, t0) && DelInv(z0, t0) && DelBusy(z0, t0)
      requires x0 == Ptr(t0, nil) && x0.parent == PathPtr(z0) && z0.side == RIGHT
      requires z0.sib.Fork? && z0.sib.n == w0 && IsBlack(z0.sib)
      modifies this`root, this`turns, repr`right, repr`left, repr`parent, repr`color
      ensures At(z, t) && DelInv(z, t) && InOrderAt(z, t) == InOrderAt(z0, t0)
      ensures x == Ptr(t, nil) && x.parent == PathPtr(z)
      ensures if rotations == 0 then Depth(z) + 1 == Depth(z0) && t.Fork? && t.c == z0.c else !DelBusy(z, t) && z.Top?
      ensures rotations <= 2
      ensures turns == old(turns) + rotations
    {
      hide Zipped;
      hide InOrderAt;
      hide DelInv;
      x, z, t, rotations := x0, z0, t0, 0;
      var w := w0;
      Around(z, t);
      Nephews(z, t);
      if w.right.color == BLACK && w.left.color == BLACK {
        DelBlackNephews(z, t);
        PaintSibling(w, RED, z, t);
        Up(z.(sib := z.sib.(c := RED)), t);
        x := x.parent;
        z, t := z.up, Join(z.(sib := z.sib.(c := RED)), t);
        Around(z, t);
      } else {
        if w.left.color == BLACK {
          z := DelCaseInner(RIGHT, w, w.right, z, t);
          rotations := rotations + 1;
          Around(z, t);
          w := x.parent.left;
          Nephews(z, t);
        }
        t := DelCaseOuter(RIGHT, w, w.left, x.parent, z, t);
        z, rotations := Top, rotations + 1;
        x := root;
        Around(z, t);
      }
    }

    // One round of the loop when `x` is a right child.
    method DelStepRight(x0: Node, ghost z0: Path, ghost t0: Shape)
      returns (x: Node, ghost z: Path, ghost t: Shape, ghost rotations: nat)
      requires nil.color == BLACK && At(z0, t0) && DelInv(z0, t0) && DelBusy(z0, t0)
      requires x0 == Ptr(t0, nil) && x0.parent == PathPtr(z0) && z0.side == RIGHT
      modifies this`root, this`turns, repr`right, repr`left, repr`parent, repr`color
      ensures At(z, t) && DelInv(z, t) && InOrderAt(z, t) == InOrderAt(z0, t0)
      ensures x == Ptr(t, nil) && x.parent == PathPtr(z)
      ensures Depth(z) + Ink(if IsBlack(t) then BLACK else RED) < Depth(z0) + 1
      ensures rotations == 0 || (rotations <= 3 && !DelBusy(z, t))
      ensures turns == old(turns) + rotations
    {
      hide Zipped;
      hide InOrderAt;
      hide DelInv;
      x, z, t, rotations := x0, z0, t0, 0;
      Around(z, t);
      DelSibling(z, t);
      var w := x.parent.left;
      if w.color == RED {
        z := DelCaseRed(RIGHT, w, x.parent, z, t);
        rotations := 1;
        Around(z, t);
        DelSibling(z, t);
        w := x.parent.left;
      }
      ghost var more: nat;
      x, z, t, more := DelSettleRight(x, w, z, t);
      rotations := rotations + more;
    }

    lemma Nephews(z: Path, t: Shape)
      requires nil.color == BLACK && At(z, t) && z.Down? && z.sib.Fork?
      ensures z.sib.n.left == Ptr(z.sib.l, nil) && (z.sib.n.left.color == BLACK <==> IsBlack(z.sib.l))
      ensures z.sib.n.right == Ptr(z.sib.r, nil) && (z.sib.n.right.color == BLACK <==> IsBlack(z.sib.r))
    {
      hide Zipped;
      ToSibling(z, t);
      Around(Across(z, t), z.sib);
      Into(Across(z, t), z.sib, LEFT);
      Around(Down(LEFT, z.sib.n, z.sib.c, z.sib.r, Across(z, t)), z.sib.l);
      Into(Across(z, t), z.sib, RIGHT);
      Around(Down(RIGHT, z.sib.n, z.sib.c, z.sib.l, Across(z, t)), z.sib.r);
    }

    // The last write of the fixup; `x` may be the sentinel.
    method PaintEnd(x: Node, ghost z: Path, ghost t: Shape)
      requires nil.color == BLACK && At(z, t) && x == Ptr(t, nil)
      modifies repr`color, nil`color
      ensures At(z, Blacken(t)) && InOrderAt(z, Blacken(t)) == InOrderAt(z, t) && nil.color == BLACK
    {
      ghost var m := Memory();
      Around(z, t);
      hide Zipped;
      x.color := BLACK;
      if t.Fork? {
        ColorWritten(m, x, BLACK);
        PaintedZipped(m, root, nil, z, t, BLACK);
      } else {
        assert Memory() == m;
      }
    }

    method DeleteFixup(x0: Node, ghost z0: Path, ghost t0: Shape) returns (ghost whole: Shape, ghost rotations: nat)
      requires nil.color == BLACK && At(z0, t0) && DelInv(z0, t0)
      requires x0 == Ptr(t0, nil) && x0.parent == PathPtr(z0)
      modifies this`root, this`turns, repr`left, repr`right, repr`parent, repr`color, nil`color
      ensures nil.color == BLACK
      ensures At(Top, whole) && RedBlack(whole) && InOrder(whole) == InOrderAt(z0, t0)
      ensures rotations <= 3
      ensures turns == old(turns) + rotations
    {
      hide Zipped;
      var x := x0;
      ghost var z, t := z0, t0;
      rotations := 0;
      Around(z, t);
      while x != root && x.color == BLACK
        invariant nil.color == BLACK && nil !in repr
        invariant At(z, t) && DelInv(z, t) && InOrderAt(z, t) == InOrderAt(z0, t0)
        invariant x == Ptr(t, nil) && x.parent == PathPtr(z)
        invariant rotations == 0 || (rotations <= 3 && !DelBusy(z, t))
        invariant turns == old(turns) + rotations
        decreases Depth(z) + Ink(if IsBlack(t) then BLACK else RED)
      {
        Around(z, t);
        DelSibling(z, t);
        if x == x.parent.left {
          x, z, t, rotations := DelStepLeft(x, z, t);
        } else {
          x, z, t, rotations := DelStepRight(x, z, t);
        }
        Around(z, t);
      }
      Around(z, t);
      DelDone(z, t);
      PaintEnd(x, z, t);
      Whole(z, Blacken(t));
      whole := Plug(z, Blacken(t));
    }

    // ----- _rbtree_find_node -----

    // `t` is the subtree of the tree at the end of `z`.
    ghost predicate Located(z: Path, t: Shape)
      reads this, repr
    {
      && At(z, t) && Plug(z, t) == shape
      && Balanced(t) && Fits(z, BlackHeight(t)) && (UnderRed(z) ==> IsBlack(t)) && (z.Down? || IsBlack(t))
    }

    lemma Descend(z: Path, t: Shape, side: Side)
      requires Located(z, t) && t.Fork?
      ensures Located(Down(side, t.n, t.c, Far(side, t), z), Near(side, t))
    {
      hide Zipped;
      DescendFits(z, t, side);
      Into(z, t, side);
    }

    // Everything left of the subtree is below `key`, everything right of it above.
    ghost predicate Between(z: Path, key: Key)
      reads Before(z), After(z)
    {
      Below(less, Before(z), key) && Above(less, key, After(z))
    }

    // The tree's nodes in order, around a located subtree.
    lemma Spread(z: Path, t: Shape)
      requires Valid() && Located(z, t)
      ensures InOrder(shape) == Before(z) + InOrder(t) + After(z)
      ensures Comparators(less, equals) && Sorted(less, EntriesOf(InOrder(shape)))
      ensures forall i | 0 <= i < |InOrder(shape)| :: InOrder(shape)[i] in repr
    {
      hide Zipped, Balanced, Fits, Sorted, Comparators;
      InOrderPlug(z, t);
    }

    lemma Narrow(z: Path, t: Shape, side: Side, key: Key)
      requires Valid() && Located(z, t) && t.Fork? && Between(z, key)
      requires if side == LEFT then less(key, t.n.key) else less(t.n.key, key)
      ensures Between(Down(side, t.n, t.c, Far(side, t), z), key)
    {
      hide Valid, Located, Sorted, Comparators, Below, Above, Before, After, InOrder;
      Spread(z, t);
      var p, l, r, q := Before(z), InOrder(t.l), InOrder(t.r), After(z);
      OrderOf(t);
      Around4(p, l, t.n, r, q);
      KeysAround(less, p + l, t.n, r + q);
      if side == LEFT {
        AboveLeft(t.n, r, q, key);
      } else {
        BelowRight(p, l, t.n, key);
      }
      DownParts(side, t, z);
    }

    lemma OrderOf(t: Shape)
      requires t.Fork?
      ensures InOrder(t) == InOrder(t.l) + [t.n] + InOrder(t.r)
    {
    }

    lemma Around4(p: seq<Node>, l: seq<Node>, n: Node, r: seq<Node>, q: seq<Node>)
      ensures p + (l + [n] + r) + q == (p + l) + [n] + (r + q)
    {
    }

    lemma DownParts(side: Side, t: Shape, z: Path)
      requires t.Fork?
      ensures var d := Down(side, t.n, t.c, Far(side, t), z);
              && Before(d) == (if side == LEFT then Before(z) else Before(z) + InOrder(t.l) + [t.n])
              && After(d) == if side == LEFT then [t.n] + InOrder(t.r) + After(z) else After(z)
    {
      hide InOrder;
    }

    lemma AboveLeft(n: Node, r: seq<Node>, q: seq<Node>, key: Key)
      requires Comparators(less, equals) && Above(less, n.key, r + q) && less(key, n.key) && Above(less, key, q)
      ensures Above(less, key, [n] + r + q)
    {
      hide Comparators, Above;
      AboveConcat(less, n.key, r, q);
      AboveLess(less, equals, key, n, r);
      AboveConcat(less, key, [n] + r, q);
    }

    lemma BelowRight(p: seq<Node>, l: seq<Node>, n: Node, key: Key)
      requires Comparators(less, equals) && Below(less, p + l, n.key) && less(n.key, key) && Below(less, p, key)
      ensures Below(less, p + l + [n], key)
    {
      hide Comparators, Below;
      BelowConcat(less, p, l, n.key);
      BelowLess(less, equals, l, n, key);
      BelowConcat(less, p, l + [n], key);
      assert p + (l + [n]) == p + l + [n];
    }

    // A node of the tree holds its key's entry; off the end of a search path there is none.
    lemma Found(z: Path, t: Shape)
      requires Valid() && Located(z, t) && t.Fork?
      ensures t.n.key in Map() && Map()[t.n.key] == t.n.value
    {
      hide Valid, Located, Sorted, Comparators, MapOf;
      Spread(z, t);
      var i := |Before(z)| + |InOrder(t.l)|;
      assert InOrder(shape) == (Before(z) + InOrder(t.l)) + [t.n] + (InOrder(t.r) + After(z));
      SortedDistinct(less, equals, EntriesOf(InOrder(shape)));
      MapOfAt(EntriesOf(InOrder(shape)), i);
    }

    lemma Missing(z: Path, key: Key)
      requires Valid() && Located(z, Leaf) && Between(z, key)
      ensures key !in Map()
    {
      hide Valid, Located, Sorted, Comparators, MapOf, Below, Above;
      Spread(z, Leaf);
      assert InOrder(shape) == Before(z) + After(z);
      Apart(less, equals, Before(z), After(z), key);
    }

    method FindNode(key: Key) returns (n: Node?, ghost z: Path, ghost t: Shape, ghost visits: nat)
      requires Valid()
      ensures n == null ==> key !in Map() && Located(z, t) && t.Leaf? && Between(z, key)
      ensures visits == Depth(z) + if n != null then 1 else 0
      ensures n != null ==> Located(z, t) && t.Fork? && t.n == n && n.key == key && n in repr
      ensures n != null ==> key in Map() && Map()[key] == n.value
      ensures Pow2(visits) <= (|Map()| + 1) * (|Map()| + 1)
    {
      hide Zipped;
      hide Balanced;
      hide Fits;
      var current := root;
      z, t, visits := Top, shape, 0;
      LocatedTop();
      Around(z, t);
      while current != nil
        invariant Located(z, t) && current == Ptr(t, nil) && Between(z, key) && visits == Depth(z)
        invariant t.Fork? ==> t.n in repr && t.n != nil
        decreases t
      {
        Around(z, t);
        if equals(key, current.key) {
          n := current;
          Found(z, t);
          visits := visits + 1;
          VisitsBound(z, t, visits);
          return;
        } else {
          ghost var side := if less(key, current.key) then LEFT else RIGHT;
          Narrow(z, t, side, key);
          Descend(z, t, side);
          current := if less(key, current.key) then current.left else current.right;
          z, t, visits := Down(side, t.n, t.c, Far(side, t), z), Near(side, t), visits + 1;
          Around(z, t);
        }
      }
      Missing(z, key);
      VisitsBound(z, t, visits);
      n := null;
    }

    lemma LocatedTop()
      requires Valid()
      ensures Located(Top, shape)
    {
    }

    lemma VisitsBound(z: Path, t: Shape, visits: nat)
      requires Valid() && Located(z, t) && visits <= Depth(z) + (if t.Fork? then 1 else 0)
      ensures Pow2(visits) <= (|Map()| + 1) * (|Map()| + 1)
    {
      hide Zipped;
      hide Balanced;
      hide Fits;
      DepthBound(z, t);
      assert visits <= Height(shape);
      Pow2Mono(visits, Height(shape));
      HeightBound(shape);
      SortedDistinct(less, equals, EntriesOf(InOrder(shape)));
      MapOfSize(EntriesOf(InOrder(shape)));
    }

    // rbtree_get
    method Get(key: Key) returns (r: object?)
      requires Valid()
      ensures r == if key in Map() then Map()[key] else null
    {
      var n, z, t, visits := FindNode(key);
      if n != null {
        r := n.value;
      } else {
        r := null;
      }
    }

    // ----- rbtree_put -----

    // The value of the entry at `n` is replaced; links, colours and keys stay.
    method Overwrite(n: Node, value: object?, ghost z: Path, ghost t: Shape)
      requires Valid() && Located(z, t) && t.Fork? && t.n == n && n in repr
      modifies n`value
      ensures Valid() && Map() == old(Map())[n.key := value]
    {
      hide Zipped;
      hide Balanced;
      hide Fits;
      hide RedBlack;
      hide Sorted;
      hide Comparators;
      ghost var s := InOrder(shape);
      ghost var e, m := EntriesOf(s), Memory();
      ghost var i := Place(z, t);
      n.value := value;
      assert Memory() == m;
      assert EntriesOf(s) == e[i := (e[i].0, value)];
      MapOfUpdate(less, equals, e, i, value);
    }

    // Where a located node stands in the in-order sequence, and nowhere else.
    lemma Place(z: Path, t: Shape) returns (i: nat)
      requires Valid() && Located(z, t) && t.Fork?
      ensures i < |InOrder(shape)| && InOrder(shape)[i] == t.n
      ensures forall j | 0 <= j < |InOrder(shape)| && j != i :: InOrder(shape)[j] != t.n
    {
      hide Valid, Located, Sorted, Comparators;
      var s := InOrder(shape);
      i := |Before(z)| + |InOrder(t.l)|;
      Spread(z, t);
      assert s == (Before(z) + InOrder(t.l)) + [t.n] + (InOrder(t.r) + After(z));
      SortedDistinct(less, equals, EntriesOf(s));
      OneNode(s, i);
    }

    lemma NewEntryAt(z: Path, x: Node)
      requires Valid() && Located(z, Leaf) && Between(z, x.key)
      ensures var s := InOrderAt(z, Fork(x, RED, Leaf, Leaf));
              Sorted(less, EntriesOf(s)) && MapOf(EntriesOf(s)) == Map()[x.key := x.value]
    {
      hide Valid, Located, Sorted, Comparators, MapOf, Below, Above;
      Spread(z, Leaf);
      assert InOrder(shape) == Before(z) + After(z);
      assert InOrder(Fork(x, RED, Leaf, Leaf)) == [x];
      NewEntry(less, equals, Before(z), x, After(z));
    }

    // The nodes of a path of the tree are the tree's.
    lemma PathInside(z: Path, t: Shape)
      requires Valid() && Located(z, t)
      ensures forall i | 0 <= i < |Before(z)| :: Before(z)[i] in repr
      ensures forall i | 0 <= i < |After(z)| :: After(z)[i] in repr
    {
      hide Valid, Located, Sorted, Comparators;
      Spread(z, t);
      var s := InOrder(shape);
      assert forall i | 0 <= i < |Before(z)| :: s[i] == Before(z)[i];
      assert forall i | 0 <= i < |After(z)| :: s[|Before(z)| + |InOrder(t)| + i] == After(z)[i];
    }

    method Insert(key: Key, value: object?, parent: Node?, ghost z: Path)
      returns (x: Node, ghost rotations: nat)
      requires Valid() && Located(z, Leaf) && Between(z, key) && parent == PathPtr(z)
      modifies this, repr`left, repr`right, repr`parent, repr`color
      ensures Valid() && Map() == old(Map())[key := value]
      ensures fresh(x) && repr == old(repr) + {x} && x.key == key
      ensures rotations <= 2
      ensures turns == old(turns) + rotations
    {
      hide Zipped;
      hide Located;
      hide Sorted;
      hide RedBlack;
      hide PutInv;
      PathInside(z, Leaf);
      x := new Node(key, value, parent, nil);
      NewEntryAt(z, x);
      ghost var t := Fork(x, RED, Leaf, Leaf);
      ghost var e := EntriesOf(InOrderAt(z, t));
      Attach(x, key, parent, z);
      assert EntriesOf(InOrderAt(z, t)) == e;
      rotations := Settle(x, z, t);
    }

    // The fixup, and what it means for the tree as a whole.
    method Settle(x: Node, ghost z: Path, ghost t: Shape) returns (ghost rotations: nat)
      requires nil.color == BLACK && Comparators(less, equals)
      requires At(z, t) && PutInv(z, t) && t.n == x && Sorted(less, EntriesOf(InOrderAt(z, t)))
      modifies this`root, this`turns, this`shape, repr`left, repr`right, repr`parent, repr`color
      ensures Valid() && Map() == old(MapOf(EntriesOf(InOrderAt(z, t)))) && rotations <= 2
      ensures turns == old(turns) + rotations
    {
      hide Zipped;
      hide Sorted;
      hide RedBlack;
      ghost var s := InOrderAt(z, t);
      ghost var e := EntriesOf(s);
      Around(z, t);
      ghost var whole;
      whole, rotations := PutFixup(x, z, t);
      WholeNodes(whole);
      shape := whole;
      assert EntriesOf(s) == e;
    }

    lemma WholeNodes(t: Shape)
      requires At(Top, t)
      ensures forall i | 0 <= i < |InOrder(t)| :: InOrder(t)[i] in repr
    {
      InOrderNodes(t);
      assert Memory().Keys == PathNodes(Top) + Nodes(t) == Nodes(t);
    }

    method Attach(x: Node, key: Key, parent: Node?, ghost z: Path)
      requires Valid() && Located(z, Leaf) && Between(z, key) && parent == PathPtr(z)
      requires x !in repr && x != nil && x.left == nil && x.right == nil && x.parent == parent && x.color == RED
      modifies this`root, this`repr, repr`left, repr`right
      ensures At(z, Fork(x, RED, Leaf, Leaf)) && PutInv(z, Fork(x, RED, Leaf, Leaf)) && repr == old(repr) + {x}
    {
      ghost var m, root0 := Memory(), root;
      Around(z, Leaf);
      ParentSide(z, key);
      AttachInv(z, x);
      hide Zipped, PutInv, Balanced, Fits, Between;
      if parent != null {
        if less(key, parent.key) {
          parent.left := x;
        } else {
          parent.right := x;
        }
      } else {
        root := x;
      }
      repr := repr + {x};
      AttachedZipped(m, Memory(), root0, root, nil, z, x);
    }

    lemma AttachInv(z: Path, x: Node)
      requires Located(z, Leaf)
      ensures PutInv(z, Fork(x, RED, Leaf, Leaf))
    {
      hide Zipped;
    }

    lemma ParentSide(z: Path, key: Key)
      requires Comparators(less, equals) && Between(z, key)
      ensures z.Down? ==> (less(key, z.n.key) <==> z.side == LEFT)
    {
      if z.Down? {
        assert z.side == LEFT ==> After(z)[0] == z.n;
        assert z.side == RIGHT ==> Before(z)[|Before(z)| - 1] == z.n;
      }
    }

    method Put(key: Key, value: object?) returns (r: object?, ghost added: Node?, ghost rotations: nat)
      requires Valid()
      modifies this, repr
      ensures Valid() && Map() == old(Map())[key := value]
      ensures r == if key in old(Map()) then old(Map())[key] else null
      ensures key in old(Map()) ==> added == null && repr == old(repr) && shape == old(shape) && rotations == 0
      ensures key !in old(Map()) ==> added != null && fresh(added) && repr == old(repr) + {added}
      ensures forall n | n in old(repr) :: n.key == old(n.key)
      ensures rotations <= 2
      ensures turns == old(turns) + rotations
    {
      hide Zipped;
      hide Balanced;
      hide Fits;
      var current := root;
      var parent: Node? := null;
      ghost var z, t := Top, shape;
      LocatedTop();
      Around(z, t);
      while current != nil
        invariant Located(z, t) && current == Ptr(t, nil) && Between(z, key) && parent == PathPtr(z)
        invariant t.Fork? ==> t.n in repr && t.n != nil
        invariant unchanged(this) && unchanged(repr)
        decreases t
      {
        Around(z, t);
        if equals(key, current.key) {
          Found(z, t);
          r := current.value;
          Overwrite(current, value, z, t);
          added, rotations := null, 0;
          return;
        }
        ghost var side := if less(key, current.key) then LEFT else RIGHT;
        Narrow(z, t, side, key);
        Descend(z, t, side);
        parent := current;
        current := if less(key, current.key) then current.left else current.right;
        z, t := Down(side, t.n, t.c, Far(side, t), z), Near(side, t);
        Around(z, t);
      }
      Missing(z, key);
      added, rotations := Insert(key, value, parent, z);
      r := null;
    }

    // ----- _rbtree_delete_node -----

    // `y`, which has at most the one child `x`, leaves the parent chain; `x` may be the sentinel.
    method Unlink(y: Node, x: Node, ghost z: Path, ghost t: Shape, ghost s: Shape)
      requires nil.color == BLACK && At(z, t) && t.Fork? && t.n == y && x == Ptr(s, nil)
      requires (t.l.Leaf? && s == t.r) || (t.r.Leaf? && s == t.l)
      modifies this`root, this`repr, repr`left, repr`right, repr`parent, nil`parent
      ensures repr == old(repr) - {y} && y in old(repr) && nil !in repr
      ensures At(z, s) && x.parent == PathPtr(z)
    {
      ghost var m, root0 := Memory(), root;
      UnlinkReady(z, t, s);
      hide Zipped, Nodes, PathNodes;
      x.parent := y.parent;
      if y.parent != null {
        if y == y.parent.left {
          y.parent.left := x;
        } else {
          y.parent.right := x;
        }
      } else {
        root := x;
      }
      repr := repr - {y};
      Unlinked(m, root0, z, t, s);
    }

    lemma Unlinked(m: Memory, root0: Node, z: Path, t: Shape, s: Shape)
      requires Zipped(m, root0, nil, z, t) && t.Fork? && repr == m.Keys - {t.n}
      requires (t.l.Leaf? && s == t.r) || (t.r.Leaf? && s == t.l)
      requires s.Fork? ==> s.n in repr && CellOf(s.n) == m[s.n].(parent := PathPtr(z))
      requires z.Down? ==> z.n in repr && CellOf(z.n) == WithChild(m[z.n], z.side, Ptr(s, nil))
      requires forall n | n in repr && n != PathPtr(z) && (s.Leaf? || n != s.n) :: CellOf(n) == m[n]
      requires root == if z.Top? then Ptr(s, nil) else root0
      ensures At(z, s)
    {
      UnlinkedZipped(m, Memory(), root0, root, nil, z, t, s);
    }

    lemma UnlinkReady(z: Path, t: Shape, s: Shape)
      requires nil.color == BLACK && At(z, t) && t.Fork?
      requires (t.l.Leaf? && s == t.r) || (t.r.Leaf? && s == t.l)
      ensures nil !in repr && t.n in repr && t.n.parent == PathPtr(z)
      ensures s.Fork? ==> s.n in repr && s.n != t.n && s.n != PathPtr(z)
      ensures z.Down? ==> z.n in repr && z.n != t.n
                          && (z.n.left == t.n <==> z.side == LEFT) && (z.n.right == t.n <==> z.side == RIGHT)
    {
      Around(z, t);
      ForkParts(t, LEFT);
      assert t.n in Nodes(t) && (s.Fork? ==> s.n in Nodes(s)) && (z.Down? ==> z.n in PathNodes(z));
    }

    // The in-order successor of `n`, which has two children.
    method Successor(n: Node, ghost z0: Path, ghost t0: Shape) returns (y: Node, ghost z: Path, ghost t: Shape)
      requires nil.color == BLACK && Located(z0, t0) && t0.Fork? && t0.n == n && t0.l.Fork? && t0.r.Fork?
      ensures Located(z, t) && t.Fork? && t.n == y && t.l.Leaf?
      ensures Before(z) == Before(z0) + InOrder(t0.l) + [n]
    {
      hide Zipped;
      hide Balanced;
      hide Fits;
      Around(z0, t0);
      y := n.right;
      Descend(z0, t0, RIGHT);
      z, t := Down(RIGHT, t0.n, t0.c, t0.l, z0), t0.r;
      Around(z, t);
      while y.left != nil
        invariant Located(z, t) && t.Fork? && t.n == y && y.left == Ptr(t.l, nil) && (t.l.Leaf? <==> y.left == nil)
        invariant Before(z) == Before(z0) + InOrder(t0.l) + [n]
        decreases t
      {
        Descend(z, t, LEFT);
        y := y.left;
        z, t := Down(LEFT, t.n, t.c, t.r, z), t.l;
        Around(z, t);
      }
    }

    // The entry of `y` moves into `n`.
    method MoveEntry(n: Node, y: Node, ghost a: seq<Node>, ghost b: seq<Node>)
      requires forall i | 0 <= i < |a| :: a[i] != n
      requires forall i | 0 <= i < |b| :: b[i] != n
      modifies n`key, n`value
      ensures EntriesOf(a + [n] + b) == old(EntriesOf(a + [y] + b)) && Memory() == old(Memory())
    {
      n.key := y.key;
      n.value := y.value;
    }

    // Taking the only child of a located node for the node itself.
    lemma ShortOne(z: Path, t: Shape, s: Shape)
      requires Located(z, t) && t.Fork? && ((t.l.Leaf? && s == t.r) || (t.r.Leaf? && s == t.l))
      ensures t.c.BLACK? ==> DelInv(z, s)
      ensures t.c.RED? ==> RedBlack(Plug(z, s))
    {
      hide Zipped;
      assert Balanced(s) && BlackHeight(s) == BlackHeight(t.l);
      if t.c.RED? {
        PlugBalanced(z, s);
      }
    }

    // The fixup when a black node went, and what it means for the tree as a whole.
    method SettleDelete(x: Node, black: bool, ghost z: Path, ghost s: Shape) returns (ghost rotations: nat)
      requires nil.color == BLACK && nil !in repr && Comparators(less, equals) && At(z, s)
      requires if black then DelInv(z, s) else RedBlack(Plug(z, s))
      requires x == Ptr(s, nil) && x.parent == PathPtr(z) && Sorted(less, EntriesOf(InOrderAt(z, s)))
      modifies this`root, this`turns, this`shape, repr`left, repr`right, repr`parent, repr`color, nil`color
      ensures Valid() && Map() == old(MapOf(EntriesOf(InOrderAt(z, s)))) && rotations <= 3
      ensures turns == old(turns) + rotations
    {
      hide Zipped;
      hide Sorted;
      hide DelInv;
      ghost var n := InOrderAt(z, s);
      ghost var e := EntriesOf(n);
      ghost var whole;
      if black {
        whole, rotations := DeleteFixup(x, z, s);
      } else {
        Whole(z, s);
        whole, rotations := Plug(z, s), 0;
      }
      WholeNodes(whole);
      shape := whole;
      assert EntriesOf(n) == e;
    }

    // The entries without those of `n`, when `n` itself goes.
    lemma WithoutNode(z: Path, t: Shape, s: Shape)
      requires Valid() && Located(z, t) && t.Fork? && ((t.l.Leaf? && s == t.r) || (t.r.Leaf? && s == t.l))
      ensures var e := EntriesOf(InOrderAt(z, s));
              Sorted(less, e) && MapOf(e) == Map() - {t.n.key}
    {
      hide Valid, Located, Sorted, Comparators, MapOf;
      Spread(z, t);
      var a, b := Before(z) + InOrder(t.l), InOrder(t.r) + After(z);
      assert InOrder(shape) == a + [t.n] + b;
      assert InOrderAt(z, s) == a + b;
      WithoutEntry(less, equals, a, t.n, b);
    }

    // The entries without those of `n`, when its successor `t.n` goes and `n` stays.
    lemma WithoutSuccessor(z: Path, t: Shape, a: seq<Node>, n: Node)
      requires Valid() && Located(z, t) && t.Fork? && t.l.Leaf? && Before(z) == a + [n]
      ensures var b := InOrder(t.r) + After(z);
              var e := EntriesOf(a + [t.n] + b);
              && Sorted(less, e) && MapOf(e) == Map() - {n.key} && InOrderAt(z, t.r) == a + [n] + b
              && (forall i | 0 <= i < |a| :: a[i] != n) && (forall i | 0 <= i < |b| :: b[i] != n)
              && n in repr && n != t.n
    {
      hide Valid, Located, Comparators, Sorted, MapOf;
      Spread(z, t);
      var b := InOrder(t.r) + After(z);
      assert InOrder(t) == [t.n] + InOrder(t.r);
      assert InOrder(shape) == a + [n] + ([t.n] + b);
      assert InOrder(shape)[|a|] == n;
      assert InOrderAt(z, t.r) == a + [n] + b;
      assert a + ([t.n] + b) == a + [t.n] + b;
      OnceIn(less, equals, a, n, t.n, b);
      WithoutEntry(less, equals, a, n, [t.n] + b);
    }

    method DeleteNode(n: Node, ghost z0: Path, ghost t0: Shape)
      returns (r: object?, freedKey: Key, ghost freed: Node, ghost rotations: nat)
      requires Valid() && Located(z0, t0) && t0.Fork? && t0.n == n
      modifies this, repr, nil`parent, nil`color
      ensures Valid() && Map() == old(Map()) - {old(n.key)}
      ensures r == old(n.value) && freedKey == old(n.key)
      ensures freed in old(repr) && repr == old(repr) - {freed}
      ensures rotations <= 3
      ensures turns == old(turns) + rotations
    {
      hide Zipped;
      hide Balanced;
      hide Fits;
      hide RedBlack;
      Around(z0, t0);
      if n.left == nil || n.right == nil {
        r, freedKey, rotations := TakeOut(n, z0, t0, if t0.l.Fork? then t0.l else t0.r);
        freed := n;
      } else {
        ghost var z, t;
        var y;
        y, z, t := Successor(n, z0, t0);
        r, freedKey, rotations := TakeOutSuccessor(n, y, Before(z0) + InOrder(t0.l), z, t);
        freed := y;
      }
    }

    // The child that takes the place of a node with a sentinel child: the root of the subtree that is
    // left, or the sentinel when none is.
    method OnlyChild(y: Node, ghost z: Path, ghost t: Shape) returns (x: Node)
      requires nil.color == BLACK && At(z, t) && t.Fork? && t.n == y && (t.l.Leaf? || t.r.Leaf?)
      ensures x == Ptr(if t.l.Leaf? then t.r else t.l, nil)
    {
      Around(z, t);
      if y.left != nil {
        x := y.left;
      } else {
        x := y.right;
      }
    }

    // The node `y` goes; it has a sentinel child.
    method TakeOut(y: Node, ghost z: Path, ghost t: Shape, ghost s: Shape)
      returns (r: object?, freedKey: Key, ghost rotations: nat)
      requires Valid() && Located(z, t) && t.Fork? && t.n == y
      requires (t.l.Leaf? && s == t.r) || (t.r.Leaf? && t.l.Fork? && s == t.l)
      modifies this, repr`left, repr`right, repr`parent, repr`color, nil`parent, nil`color
      ensures Valid() && Map() == old(Map()) - {y.key} && r == y.value && freedKey == y.key
      ensures y in old(repr) && repr == old(repr) - {y} && rotations <= 3
      ensures turns == old(turns) + rotations
    {
      hide Zipped;
      hide Balanced;
      hide Fits;
      hide Sorted;
      hide DelInv;
      hide RedBlack;
      Around(z, t);
      ShortOne(z, t, s);
      WithoutNode(z, t, s);
      ghost var q := InOrderAt(z, s);
      ghost var e := EntriesOf(q);
      var x := OnlyChild(y, z, t);
      Unlink(y, x, z, t, s);
      freedKey := y.key;
      r := y.value;
      assert EntriesOf(q) == e;
      rotations := SettleDelete(x, y.color == BLACK, z, s);
    }

    lemma NodeAt(z: Path, t: Shape)
      requires Located(z, t)
      ensures At(z, t)
    {
    }

    // The successor `y` of `n` goes, and its entry moves into `n`.
    method TakeOutSuccessor(n: Node, y: Node, ghost a: seq<Node>, ghost z: Path, ghost t: Shape)
      returns (r: object?, freedKey: Key, ghost rotations: nat)
      requires Valid() && Located(z, t) && t.Fork? && t.n == y && t.l.Leaf? && Before(z) == a + [n]
      modifies this, repr`left, repr`right, repr`parent, repr`color, nil`parent, nil`color, n`key, n`value
      ensures Valid() && Map() == old(Map()) - {old(n.key)} && r == old(n.value) && freedKey == old(n.key)
      ensures y in old(repr) && repr == old(repr) - {y} && rotations <= 3
      ensures turns == old(turns) + rotations
    {
      hide Zipped;
      hide Balanced;
      hide Fits;
      hide Sorted;
      hide DelInv;
      hide RedBlack;
      hide Located;
      hide Comparators;
      hide EntriesOf, MapOf, Before, After;
      NodeAt(z, t);
      Around(z, t);
      ShortOne(z, t, t.r);
      WithoutSuccessor(z, t, a, n);
      ghost var b := InOrder(t.r) + After(z);
      ghost var e := EntriesOf(a + [y] + b);
      var x := OnlyChild(y, z, t);
      Unlink(y, x, z, t, t.r);
      assert EntriesOf(a + [y] + b) == e;
      freedKey := n.key;
      r := n.value;
      MoveEntry(n, y, a, b);
      rotations := SettleDelete(x, y.color == BLACK, z, t.r);
    }

    // rbtree_delete
    method Delete(key: Key)
      returns (r: object?, ghost freedKeys: seq<Key>, ghost freed: set<Node>, ghost rotations: nat)
      requires Valid()
      modifies this, repr, nil`parent, nil`color
      ensures Valid() && Map() == old(Map()) - {key} && nil.color == BLACK
      ensures r == if key in old(Map()) then old(Map())[key] else null
      ensures freedKeys == if key in old(Map()) then [key] else []
      ensures freed <= old(repr) && repr == old(repr) - freed
      ensures |freed| == if key in old(Map()) then 1 else 0
      ensures rotations <= 3
      ensures turns == old(turns) + rotations
    {
      hide Zipped;
      hide Located;
      hide Sorted;
      hide RedBlack;
      hide Comparators;
      var n, z, t, visits := FindNode(key);
      r, freedKeys, freed, rotations := null, [], {}, 0;
      if n != null {
        var k;
        ghost var y;
        r, k, y, rotations := DeleteNode(n, z, t);
        freedKeys, freed := [k], {y};
      }
    }

    // ----- rbtree_clear, rbtree_foreach -----

    // Post-order: the subtrees, then the key, the value and the node itself.
    method ClearNode(node: Node, ghost z: Path, ghost t: Shape) returns (ghost freed: multiset<Node>)
      requires nil.color == BLACK && At(z, t) && node == Ptr(t, nil)
      ensures freed == multiset(InOrder(t))
      decreases t
    {
      hide Zipped;
      hide InOrderAt;
      Around(z, t);
      freed := multiset{};
      if node != nil {
        Into(z, t, LEFT);
        ghost var l := ClearNode(node.left, Down(LEFT, t.n, t.c, t.r, z), t.l);
        Into(z, t, RIGHT);
        ghost var r := ClearNode(node.right, Down(RIGHT, t.n, t.c, t.l, z), t.r);
        freed := l + r + multiset{node};
      }
    }

    // Every node of the tree, and with it its key, is freed exactly once.
    method Clear() returns (ghost freed: multiset<Node>)
      requires Valid()
      modifies this
      ensures Valid() && Map() == map[] && repr == {}
      ensures freed == multiset(old(InOrder(shape))) && |freed| == |old(Map())|
    {
      hide Zipped;
      hide Balanced;
      hide Comparators;
      Count();
      Around(Top, shape);
      freed := ClearNode(root, Top, shape);
      root := nil;
      repr, shape := {}, Leaf;
      assert Memory() == map[];
      EmptyTree(nil);
    }

    lemma Count()
      requires Valid()
      ensures |InOrder(shape)| == |Map()|
    {
      SortedDistinct(less, equals, EntriesOf(InOrder(shape)));
      MapOfSize(EntriesOf(InOrder(shape)));
    }

    // The callback is the log it would see.
    method ForeachNode(node: Node, ghost z: Path, ghost t: Shape) returns (log: seq<Entry>)
      requires nil.color == BLACK && At(z, t) && node == Ptr(t, nil)
      requires forall i | 0 <= i < |InOrder(t)| :: InOrder(t)[i] in repr
      ensures log == EntriesOf(InOrder(t))
      decreases t
    {
      hide Zipped, EntriesOf;
      Around(z, t);
      log := [];
      EmptyEntries();
      if node != nil {
        ghost var l, r := InOrder(t.l), InOrder(t.r);
        assert forall i | 0 <= i < |l| :: InOrder(t)[i] == l[i];
        assert forall i | 0 <= i < |r| :: InOrder(t)[|l| + 1 + i] == r[i];
        EntriesAround(l, t.n, r);
        Into(z, t, LEFT);
        var below := ForeachNode(node.left, Down(LEFT, t.n, t.c, t.r, z), t.l);
        log := below + [(node.key, node.value)];
        Into(z, t, RIGHT);
        var above := ForeachNode(node.right, Down(RIGHT, t.n, t.c, t.l, z), t.r);
        log := log + above;
      }
    }

    method Foreach() returns (log: seq<Entry>)
      requires Valid()
      ensures Sorted(less, log) && MapOf(log) == Map()
    {
      log := ForeachNode(root, Top, shape);
    }
  }
}
