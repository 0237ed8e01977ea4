// How a shape lies in memory.  A `Memory` is the link and colour part of a set of nodes, as a value;
// the heap of src/rbtree.c is related to it field by field, and all reasoning about pointers is
// done here on values.
module RbMemory {
  import opened RbNodes
  import opened RbShapes

  datatype Cell = Cell(left: Node, right: Node, parent: Node?, color: Color)

  type Memory = map<Node, Cell>

  ghost function Ptr(t: Shape, nil: Node): Node {
    if t.Leaf? then nil else t.n
  }

  ghost function PathPtr(z: Path): Node? {
    if z.Top? then null else z.n
  }

  // What the root pointer must be when the subtree at the end of `z` starts at `hole`.
  ghost function RootPtr(z: Path, hole: Node): (r: Node)
    ensures z.Down? ==> r in PathNodes(z)
  {
    if z.Top? then hole else RootPtr(z.up, z.n)
  }

  ghost function ForkCell(side: Side, near: Node, far: Node, parent: Node?, c: Color): Cell {
    if side == LEFT then Cell(near, far, parent, c) else Cell(far, near, parent, c)
  }

  // Memory below `p` is exactly `t`: colours, children, parents.
  ghost predicate Linked(m: Memory, t: Shape, p: Node?, nil: Node) {
    t.Fork? ==>
      && t.n in m && m[t.n] == Cell(Ptr(t.l, nil), Ptr(t.r, nil), p, t.c)
      && Linked(m, t.l, t.n, nil) && Linked(m, t.r, t.n, nil)
  }

  ghost predicate PathLinked(m: Memory, z: Path, hole: Node, nil: Node) {
    z.Down? ==>
      && z.n in m && m[z.n] == ForkCell(z.side, hole, Ptr(z.sib, nil), PathPtr(z.up), z.c)
      && Linked(m, z.sib, z.n, nil) && PathLinked(m, z.up, z.n, nil)
  }

  // The whole tree, seen from the subtree `t` at the end of `z`.
  ghost predicate Zipped(m: Memory, root: Node, nil: Node, z: Path, t: Shape) {
    && m.Keys == PathNodes(z) + Nodes(t) && nil !in m
    && PathNodes(z) !! Nodes(t) && Distinct(t) && PathDistinct(z)
    && PathLinked(m, z, Ptr(t, nil), nil) && Linked(m, t, PathPtr(z), nil)
    && root == RootPtr(z, Ptr(t, nil))
  }

  // ----- frames -----

  ghost predicate SameOn(m: Memory, m': Memory, s: set<Node>) {
    forall n | n in s :: n in m && n in m' && m'[n] == m[n]
  }

  lemma {:induction false} LinkedFrame(m: Memory, m': Memory, t: Shape, p: Node?, nil: Node)
    requires Linked(m, t, p, nil) && SameOn(m, m', Nodes(t))
    ensures Linked(m', t, p, nil)
  {
    if t.Fork? {
      LinkedFrame(m, m', t.l, t.n, nil);
      LinkedFrame(m, m', t.r, t.n, nil);
    }
  }

  lemma {:induction false} PathLinkedFrame(m: Memory, m': Memory, z: Path, hole: Node, nil: Node)
    requires PathLinked(m, z, hole, nil) && SameOn(m, m', PathNodes(z))
    ensures PathLinked(m', z, hole, nil)
  {
    if z.Down? {
      LinkedFrame(m, m', z.sib, z.n, nil);
      PathLinkedFrame(m, m', z.up, z.n, nil);
    }
  }

  // Only the parent of the topmost node differs.
  lemma LinkedUnder(m: Memory, m': Memory, t: Shape, p: Node?, p': Node?, nil: Node)
    requires Linked(m, t, p, nil) && Distinct(t)
    requires t.Fork? ==> SameOn(m, m', Nodes(t) - {t.n}) && t.n in m' && m'[t.n] == m[t.n].(parent := p')
    ensures Linked(m', t, p', nil)
  {
    if t.Fork? {
      LinkedFrame(m, m', t.l, t.n, nil);
      LinkedFrame(m, m', t.r, t.n, nil);
    }
  }

  // Only the child link of the last node of the path differs.
  lemma PathLinkedOver(m: Memory, m': Memory, z: Path, hole: Node, hole': Node, nil: Node)
    requires PathLinked(m, z, hole, nil) && PathDistinct(z)
    requires z.Down? ==> SameOn(m, m', PathNodes(z) - {z.n}) && z.n in m'
    requires z.Down? ==> m'[z.n] == ForkCell(z.side, hole', Ptr(z.sib, nil), PathPtr(z.up), z.c)
    ensures PathLinked(m', z, hole', nil)
  {
    if z.Down? {
      LinkedFrame(m, m', z.sib, z.n, nil);
      PathLinkedFrame(m, m', z.up, z.n, nil);
    }
  }

  // ----- moving the distinguished subtree -----

  lemma ZipUp(m: Memory, root: Node, nil: Node, z: Path, t: Shape)
    requires Zipped(m, root, nil, z, t) && z.Down?
    ensures Zipped(m, root, nil, z.up, Join(z, t))
  {
  }

  lemma ZipDown(m: Memory, root: Node, nil: Node, z: Path, t: Shape, side: Side)
    requires Zipped(m, root, nil, z, t) && t.Fork?
    ensures Zipped(m, root, nil, Down(side, t.n, t.c, Far(side, t), z), Near(side, t))
  {
  }

  lemma {:induction false} ZipTop(m: Memory, root: Node, nil: Node, z: Path, t: Shape)
    requires Zipped(m, root, nil, z, t)
    ensures Zipped(m, root, nil, Top, Plug(z, t))
    decreases z
  {
    if z.Down? {
      ZipUp(m, root, nil, z, t);
      ZipTop(m, root, nil, z.up, Join(z, t));
    }
  }

  // ----- what the pointer writes do to memory -----

  ghost function CellOf(n: Node): Cell
    reads n
  {
    Cell(n.left, n.right, n.parent, n.color)
  }

  ghost function Child(c: Cell, side: Side): Node {
    if side == LEFT then c.left else c.right
  }

  ghost function WithChild(c: Cell, side: Side, n: Node): Cell {
    if side == LEFT then c.(left := n) else c.(right := n)
  }

  ghost function Painted(m: Memory, n: Node, c: Color): Memory
    requires n in m
  {
    m[n := m[n].(color := c)]
  }

  // The six writes of a rotation at `x` lifting its child on `side`, cell by cell.
  ghost predicate Rotates(m: Memory, m': Memory, side: Side, x: Node, nil: Node)
    requires x in m && Child(m[x], side) in m
  {
    var y := Child(m[x], side);
    var b := Child(m[y], Other(side));
    var p := m[x].parent;
    && m'.Keys == m.Keys
    && m'[x] == WithChild(m[x], side, b).(parent := y)
    && m'[y] == WithChild(m[y], Other(side), x).(parent := p)
    && (b != nil && b in m ==> m'[b] == m[b].(parent := x))
    && (p != null && p in m ==>
          m'[p] == WithChild(m[p], if Child(m[p], Other(side)) == x then Other(side) else side, y))
    && (forall n | n in m && n != x && n != y && n != b && n != p :: m'[n] == m[n])
  }

  lemma PaintedZipped(m: Memory, root: Node, nil: Node, z: Path, t: Shape, c: Color)
    requires Zipped(m, root, nil, z, t) && t.Fork?
    ensures Zipped(Painted(m, t.n, c), root, nil, z, t.(c := c))
  {
    var m' := Painted(m, t.n, c);
    LinkedFrame(m, m', t.l, t.n, nil);
    LinkedFrame(m, m', t.r, t.n, nil);
    PathLinkedFrame(m, m', z, t.n, nil);
  }

  lemma ForkParts(t: Shape, side: Side)
    requires t.Fork? && Distinct(t)
    ensures Nodes(t) == {t.n} + Nodes(Near(side, t)) + Nodes(Far(side, t))
    ensures t.n !in Nodes(Near(side, t)) && t.n !in Nodes(Far(side, t))
    ensures Nodes(Near(side, t)) !! Nodes(Far(side, t))
    ensures Distinct(Near(side, t)) && Distinct(Far(side, t))
  {
  }

  lemma RotatedPieces(m: Memory, m': Memory, nil: Node, z: Path, x: Node, y: Node, a: Shape, b: Shape, g: Shape)
    requires x in m && nil !in m && PathDistinct(z) && Distinct(b)
    requires {x, y} !! PathNodes(z) && {x, y} !! Nodes(a) && {x, y} !! Nodes(b) && {x, y} !! Nodes(g)
    requires PathNodes(z) !! Nodes(a) && PathNodes(z) !! Nodes(b) && PathNodes(z) !! Nodes(g)
    requires Nodes(a) !! Nodes(b) && Nodes(b) !! Nodes(g)
    requires m.Keys == m'.Keys && Nodes(a) + Nodes(b) + Nodes(g) + PathNodes(z) <= m.Keys
    requires Linked(m, a, x, nil) && Linked(m, b, y, nil) && Linked(m, g, y, nil) && PathLinked(m, z, x, nil)
    requires b.Fork? ==> m'[b.n] == m[b.n].(parent := x)
    requires z.Down? ==> m'[z.n] == WithChild(m[z.n], z.side, y)
    requires forall n :: n in m && n != x && n != y && n != Ptr(b, nil) && n != PathPtr(z) ==> m'[n] == m[n]
    ensures Linked(m', a, x, nil) && Linked(m', b, x, nil) && Linked(m', g, y, nil) && PathLinked(m', z, y, nil)
  {
    assert b.Fork? ==> b.n in Nodes(b);
    assert z.Down? ==> z.n in PathNodes(z);
    LinkedFrame(m, m', a, x, nil);
    LinkedFrame(m, m', g, y, nil);
    assert SameOn(m, m', Nodes(b) - {Ptr(b, nil)});
    LinkedUnder(m, m', b, y, x, nil);
    assert z.Down? ==> SameOn(m, m', PathNodes(z) - {z.n});
    PathLinkedOver(m, m', z, x, y, nil);
  }

  lemma RotatedZipped(m: Memory, m': Memory, root: Node, nil: Node, z: Path, t: Shape, side: Side)
    requires Zipped(m, root, nil, z, t) && t.Fork? && Near(side, t).Fork?
    requires t.n in m && Child(m[t.n], side) in m && Rotates(m, m', side, t.n, nil)
    ensures Zipped(m', if m[t.n].parent == null then Near(side, t).n else root, nil, z, Lift(side, t))
  {
    RotatedLinks(m, m', root, nil, z, t, side);
    LiftNodes(side, t);
  }

  lemma RotatedLinks(m: Memory, m': Memory, root: Node, nil: Node, z: Path, t: Shape, side: Side)
    requires Zipped(m, root, nil, z, t) && t.Fork? && Near(side, t).Fork?
    requires t.n in m && Child(m[t.n], side) in m && Rotates(m, m', side, t.n, nil)
    ensures Linked(m', Lift(side, t), PathPtr(z), nil) && PathLinked(m', z, Near(side, t).n, nil)
  {
    var y := Near(side, t);
    ForkParts(t, side);
    ForkParts(y, side);
    assert Linked(m, y, t.n, nil);
    var x, a, b, g := t.n, Far(side, t), Far(side, y), Near(side, y);
    assert x in Nodes(t) && y.n in Nodes(y) && (b.Fork? ==> b.n in Nodes(b));
    assert z.Down? ==> z.n in PathNodes(z) && Ptr(z.sib, nil) in PathNodes(z) + {nil};
    RotatedPieces(m, m', nil, z, x, y.n, a, b, g);
  }

  // The nodes a rotation writes exist and are apart.
  ghost predicate RotationApart(m: Memory, side: Side, x: Node, nil: Node)
    requires x in m
  {
    var y := Child(m[x], side);
    var p := m[x].parent;
    && y in m && y != x && (p == null || p in m) && p != x && p != y
    && var b := Child(m[y], Other(side));
    && (b == nil || b in m) && b != x && b != y && b != p
  }

  lemma RotationReady(m: Memory, root: Node, nil: Node, z: Path, t: Shape, side: Side)
    requires Zipped(m, root, nil, z, t) && t.Fork? && Near(side, t).Fork?
    ensures t.n in m && RotationApart(m, side, t.n, nil)
  {
    var y := Near(side, t);
    ForkParts(t, side);
    ForkParts(y, side);
    var b := Far(side, y);
    assert Linked(m, y, t.n, nil);
    assert t.n in Nodes(t) && y.n in Nodes(y) && (b.Fork? ==> b.n in Nodes(b)) && (z.Down? ==> z.n in PathNodes(z));
  }

  // ----- hanging a new node at the end of a path, and taking a node with one child out -----

  lemma AttachedZipped(m: Memory, m': Memory, root: Node, root': Node, nil: Node, z: Path, x: Node)
    requires Zipped(m, root, nil, z, Leaf) && x !in m && x != nil
    requires m'.Keys == m.Keys + {x} && m'[x] == Cell(nil, nil, PathPtr(z), RED)
    requires z.Down? ==> m'[z.n] == WithChild(m[z.n], z.side, x)
    requires forall n | n in m && n != PathPtr(z) :: m'[n] == m[n]
    requires root' == if z.Top? then x else root
    ensures Zipped(m', root', nil, z, Fork(x, RED, Leaf, Leaf))
  {
    assert z.Down? ==> z.n in PathNodes(z);
    PathLinkedOver(m, m', z, nil, x, nil);
  }

  lemma UnlinkedZipped(m: Memory, m': Memory, root: Node, root': Node, nil: Node, z: Path, t: Shape, s: Shape)
    requires Zipped(m, root, nil, z, t) && t.Fork?
    requires (t.l.Leaf? && s == t.r) || (t.r.Leaf? && s == t.l)
    requires m'.Keys == m.Keys - {t.n}
    requires s.Fork? ==> s.n in m' && m'[s.n] == m[s.n].(parent := PathPtr(z))
    requires z.Down? ==> z.n in m' && m'[z.n] == WithChild(m[z.n], z.side, Ptr(s, nil))
    requires forall n | n in m' && n != PathPtr(z) && (s.Leaf? || n != s.n) :: m'[n] == m[n]
    requires root' == if z.Top? then Ptr(s, nil) else root
    ensures Zipped(m', root', nil, z, s)
  {
    assert z.Down? ==> z.n in PathNodes(z);
    assert s.Fork? ==> s.n in Nodes(s);
    LinkedUnder(m, m', s, t.n, PathPtr(z), nil);
    PathLinkedOver(m, m', z, t.n, Ptr(s, nil), nil);
  }
}
