// Colours, nodes and the pure theory of coloured tree shapes.  A `Shape` records which node sits
// where and in which colour; a `Path` is the way from a subtree up to the root, so that a `Path`
// and a `Shape` together are a tree with one distinguished subtree (the node a fixup loop is at).
module RbNodes {

  type Key = string

  datatype Color = BLACK | RED

  class Node {
    var left: Node
    var right: Node
    var parent: Node?
    var color: Color
    var key: Key
    var value: object?

    // The single sentinel: both children are the sentinel itself.
    constructor Sentinel()
      ensures left == this && right == this && parent == null && color == BLACK
    {
      left, right, parent, color, key, value := this, this, null, BLACK, "", null;
    }

    constructor (key: Key, value: object?, parent: Node?, nil: Node)
      ensures this.key == key && this.value == value && this.parent == parent
      ensures left == nil && right == nil && color == RED
    {
      this.key, this.value, this.parent := key, value, parent;
      left, right, color := nil, nil, RED;
    }
  }
}

module RbShapes {
  import opened RbNodes

  datatype Side = LEFT | RIGHT

  datatype Shape = Leaf | Fork(n: Node, c: Color, l: Shape, r: Shape)

  // `Down(side, n, c, sib, up)`: the hole is the child of `n` on `side`, its sibling is `sib`.
  datatype Path = Top | Down(side: Side, n: Node, c: Color, sib: Shape, up: Path)

  function Other(side: Side): Side {
    if side == LEFT then RIGHT else LEFT
  }

  // A fork given by the subtree on `side` and the one opposite: it lets the mirrored halves of
  // both fixup loops share one statement.
  ghost function Mk(side: Side, n: Node, c: Color, near: Shape, far: Shape): Shape {
    if side == LEFT then Fork(n, c, near, far) else Fork(n, c, far, near)
  }

  ghost function Near(side: Side, t: Shape): Shape
    requires t.Fork?
  {
    if side == LEFT then t.l else t.r
  }

  ghost function Far(side: Side, t: Shape): Shape
    requires t.Fork?
  {
    if side == LEFT then t.r else t.l
  }

  ghost function Join(z: Path, t: Shape): Shape
    requires z.Down?
  {
    Mk(z.side, z.n, z.c, t, z.sib)
  }

  ghost function Plug(z: Path, t: Shape): Shape
    decreases z
  {
    if z.Top? then t else Plug(z.up, Join(z, t))
  }

  ghost function Depth(z: Path): nat {
    if z.Top? then 0 else 1 + Depth(z.up)
  }

  ghost function Blacken(t: Shape): Shape {
    if t.Leaf? then t else t.(c := BLACK)
  }

  // ----- nodes -----

  ghost function Nodes(t: Shape): set<Node> {
    if t.Leaf? then {} else {t.n} + Nodes(t.l) + Nodes(t.r)
  }

  ghost function PathNodes(z: Path): set<Node> {
    if z.Top? then {} else {z.n} + Nodes(z.sib) + PathNodes(z.up)
  }

  ghost predicate Distinct(t: Shape) {
    t.Fork? ==>
      && t.n !in Nodes(t.l) && t.n !in Nodes(t.r) && Nodes(t.l) !! Nodes(t.r)
      && Distinct(t.l) && Distinct(t.r)
  }

  ghost predicate PathDistinct(z: Path) {
    z.Down? ==>
      && z.n !in Nodes(z.sib) && z.n !in PathNodes(z.up) && Nodes(z.sib) !! PathNodes(z.up)
      && Distinct(z.sib) && PathDistinct(z.up)
  }

  // ----- in-order sequence -----

  ghost function InOrder(t: Shape): seq<Node> {
    if t.Leaf? then [] else InOrder(t.l) + [t.n] + InOrder(t.r)
  }

  ghost function Before(z: Path): seq<Node> {
    if z.Top? then []
    else if z.side == LEFT then Before(z.up)
    else Before(z.up) + InOrder(z.sib) + [z.n]
  }

  ghost function After(z: Path): seq<Node> {
    if z.Top? then []
    else if z.side == LEFT then [z.n] + InOrder(z.sib) + After(z.up)
    else After(z.up)
  }

  ghost function InOrderAt(z: Path, t: Shape): seq<Node> {
    Before(z) + InOrder(t) + After(z)
  }

  lemma InOrderUp(z: Path, t: Shape)
    requires z.Down?
    ensures InOrderAt(z, t) == InOrderAt(z.up, Join(z, t))
  {
    if z.side == LEFT {
      assert InOrderAt(z, t) == Before(z.up) + (InOrder(t) + [z.n] + InOrder(z.sib)) + After(z.up);
    } else {
      assert InOrderAt(z, t) == Before(z.up) + (InOrder(z.sib) + [z.n] + InOrder(t)) + After(z.up);
    }
  }

  lemma {:induction false} InOrderPlug(z: Path, t: Shape)
    ensures InOrder(Plug(z, t)) == InOrderAt(z, t)
    decreases z
  {
    if z.Down? {
      InOrderUp(z, t);
      InOrderPlug(z.up, Join(z, t));
    }
  }

  lemma {:induction false} PlugIsFork(z: Path, t: Shape)
    requires t.Fork?
    ensures Plug(z, t).Fork?
    decreases z
  {
    if z.Down? {
      PlugIsFork(z.up, Join(z, t));
    }
  }

  lemma {:induction false} InOrderNodes(t: Shape)
    ensures forall i | 0 <= i < |InOrder(t)| :: InOrder(t)[i] in Nodes(t)
  {
    if t.Fork? {
      InOrderNodes(t.l);
      InOrderNodes(t.r);
    }
  }

  // ----- rotation -----

  // Rotating `t` so that its child on `side` comes up: a right rotation for LEFT, a left one for
  // RIGHT.
  ghost function Lift(side: Side, t: Shape): Shape
    requires t.Fork? && Near(side, t).Fork?
  {
    var y := Near(side, t);
    Mk(side, y.n, y.c, Near(side, y), Mk(side, t.n, t.c, Far(side, y), Far(side, t)))
  }

  lemma LiftInOrder(side: Side, t: Shape)
    requires t.Fork? && Near(side, t).Fork?
    ensures InOrder(Lift(side, t)) == InOrder(t)
  {
    var y := Near(side, t);
    var a, b, g := InOrder(Near(side, y)), InOrder(Far(side, y)), InOrder(Far(side, t));
    if side == LEFT {
      assert InOrder(y) == a + [y.n] + b;
      assert InOrder(Fork(t.n, t.c, y.r, t.r)) == b + [t.n] + g;
      assert a + [y.n] + (b + [t.n] + g) == (a + [y.n] + b) + [t.n] + g;
    } else {
      assert InOrder(y) == b + [y.n] + a;
      assert InOrder(Fork(t.n, t.c, t.l, y.l)) == g + [t.n] + b;
      assert (g + [t.n] + b) + [y.n] + a == g + [t.n] + (b + [y.n] + a);
    }
  }

  lemma LiftNodes(side: Side, t: Shape)
    requires t.Fork? && Near(side, t).Fork? && Distinct(t)
    ensures Distinct(Lift(side, t)) && Nodes(Lift(side, t)) == Nodes(t)
  {
    var y := Near(side, t);
    assert Nodes(y) == {y.n} + Nodes(Near(side, y)) + Nodes(Far(side, y)) && Distinct(y);
    var x := Mk(side, t.n, t.c, Far(side, y), Far(side, t));
    assert Nodes(x) == {t.n} + Nodes(Far(side, y)) + Nodes(Far(side, t)) && Distinct(x);
  }

  // ----- red-black balance -----

  ghost predicate IsBlack(t: Shape) {
    t.Leaf? || t.c.BLACK?
  }

  ghost function Ink(c: Color): nat {
    if c.BLACK? then 1 else 0
  }

  // Black nodes on the leftmost path; in a balanced shape, on every path.
  ghost function BlackHeight(t: Shape): nat {
    if t.Leaf? then 0 else BlackHeight(t.l) + Ink(t.c)
  }

  // The subtrees are balanced and agree, but the root may be a red node under or over a red one.
  ghost predicate NearlyBalanced(t: Shape) {
    t.Fork? ==> Balanced(t.l) && Balanced(t.r) && BlackHeight(t.l) == BlackHeight(t.r)
  }

  ghost predicate Balanced(t: Shape) {
    t.Fork? ==>
      && Balanced(t.l) && Balanced(t.r) && BlackHeight(t.l) == BlackHeight(t.r)
      && (t.c.RED? ==> IsBlack(t.l) && IsBlack(t.r))
  }

  ghost predicate RedBlack(t: Shape) {
    Balanced(t) && IsBlack(t)
  }

  // The path is the surroundings of a subtree of black height `h` with a black root.
  ghost predicate Fits(z: Path, h: nat) {
    z.Down? ==>
      && Balanced(z.sib) && BlackHeight(z.sib) == h
      && (z.c.RED? ==> IsBlack(z.sib) && z.up.Down? && z.up.c.BLACK?)
      && Fits(z.up, h + Ink(z.c))
  }

  ghost predicate UnderRed(z: Path) {
    z.Down? && z.c.RED?
  }

  lemma {:induction false} PlugBalanced(z: Path, t: Shape)
    requires Balanced(t) && Fits(z, BlackHeight(t)) && (UnderRed(z) ==> IsBlack(t))
    ensures Balanced(Plug(z, t))
    ensures z.Down? || IsBlack(t) ==> IsBlack(Plug(z, t))
    decreases z
  {
    if z.Down? {
      PlugBalanced(z.up, Join(z, t));
    }
  }

  lemma MkBalanced(side: Side, n: Node, c: Color, near: Shape, far: Shape)
    requires Balanced(near) && Balanced(far) && BlackHeight(near) == BlackHeight(far)
    ensures NearlyBalanced(Mk(side, n, c, near, far))
    ensures BlackHeight(Mk(side, n, c, near, far)) == BlackHeight(near) + Ink(c)
    ensures (c.RED? ==> IsBlack(near) && IsBlack(far)) ==> Balanced(Mk(side, n, c, near, far))
  {
  }

  lemma BlackenBalanced(t: Shape)
    requires NearlyBalanced(t)
    ensures Balanced(Blacken(t))
    ensures BlackHeight(Blacken(t)) == BlackHeight(t) + (if IsBlack(t) then 0 else 1)
  {
  }

  // Going down from a balanced subtree keeps the description exact.
  lemma DescendFits(z: Path, t: Shape, side: Side)
    requires t.Fork? && Balanced(t) && Fits(z, BlackHeight(t)) && (UnderRed(z) ==> IsBlack(t))
    requires z.Down? || IsBlack(t)
    ensures var z' := Down(side, t.n, t.c, Far(side, t), z);
            var t' := Near(side, t);
            && Join(z', t') == t && Balanced(t')
            && Fits(z', BlackHeight(t')) && (UnderRed(z') ==> IsBlack(t'))
  {
  }

  // ----- the put fixup: a red subtree that may hang under a red parent -----

  ghost predicate PutInv(z: Path, t: Shape) {
    t.Fork? && t.c.RED? && Balanced(t) && Fits(z, BlackHeight(t))
  }

  // Red uncle: parent and uncle turn black, the grandparent turns red and becomes the subtree.
  lemma PutRecolorStep(z: Path, t: Shape)
    requires PutInv(z, t) && UnderRed(z) && !IsBlack(z.up.sib)
    ensures var p := Join(z.(c := BLACK), t);
            PutInv(z.up.up, Join(z.up.(c := RED, sib := Blacken(z.up.sib)), p))
  {
    var g := z.up;
    assert Fits(g, BlackHeight(t)) && Balanced(g.sib);
    MkBalanced(z.side, z.n, BLACK, t, z.sib);
    BlackenBalanced(g.sib);
    MkBalanced(g.side, g.n, RED, Join(z.(c := BLACK), t), Blacken(g.sib));
  }

  // Black uncle, inner grandchild: rotating the parent makes it an outer grandchild.
  lemma PutInnerStep(z: Path, t: Shape)
    requires PutInv(z, t) && UnderRed(z) && z.side != z.up.side
    ensures var r := Lift(z.side, Join(z, t));
            var z' := Down(z.up.side, r.n, r.c, Near(z.side, r), z.up);
            && r == Join(z', Far(z.side, r)) && UnderRed(z')
            && PutInv(z', Far(z.side, r)) && Far(z.side, r).n == z.n
  {
    MkBalanced(z.side, z.n, z.c, Far(z.side, t), z.sib);
  }

  // Black uncle, outer grandchild: recolour, rotate the grandparent, and the violation is gone.
  lemma PutOuterStep(z: Path, t: Shape)
    requires PutInv(z, t) && UnderRed(z) && z.side == z.up.side && IsBlack(z.up.sib)
    ensures var r := Lift(z.side, Join(z.up.(c := RED), Join(z.(c := BLACK), t)));
            var z' := Down(z.side, r.n, r.c, Far(z.side, r), z.up.up);
            r == Join(z', t) && PutInv(z', t) && !UnderRed(z')
  {
    assert Fits(z.up, BlackHeight(t));
    MkBalanced(z.side, z.up.n, RED, z.sib, z.up.sib);
  }

  lemma PutDone(z: Path, t: Shape)
    requires PutInv(z, t) && !UnderRed(z)
    ensures RedBlack(Blacken(Plug(z, t)))
  {
    PlugBalanced(z, t);
  }

  // ----- the delete fixup: a subtree one black node short -----

  ghost predicate DelInv(z: Path, t: Shape) {
    NearlyBalanced(t) && Fits(z, BlackHeight(t) + 1)
  }

  ghost predicate DelBusy(z: Path, t: Shape) {
    z.Down? && IsBlack(t)
  }

  // The sibling of a short subtree is a real node, and so are both children of a red one.
  lemma DelSibling(z: Path, t: Shape)
    requires DelInv(z, t) && z.Down?
    ensures z.sib.Fork? && Balanced(z.sib)
    ensures z.sib.c.RED? ==> z.sib.l.Fork? && z.sib.r.Fork? && z.c.BLACK?
  {
  }

  // Red sibling: after recolouring and rotating the parent, the new sibling is black and the
  // parent red.
  lemma DelRedSibling(z: Path, t: Shape)
    requires DelInv(z, t) && DelBusy(z, t) && z.sib.Fork? && z.sib.c.RED?
    ensures var r := Lift(Other(z.side), Join(z.(c := RED, sib := Blacken(z.sib)), t));
            var z' := Down(z.side, z.n, RED, Near(z.side, z.sib), Down(z.side, r.n, r.c, Far(z.side, r), z.up));
            && r == Join(z'.up, Join(z', t))
            && DelInv(z', t) && IsBlack(z'.sib)
  {
  }

  // Black sibling with black children: the sibling turns red and the shortage moves up.
  lemma DelBlackNephews(z: Path, t: Shape)
    requires DelInv(z, t) && DelBusy(z, t) && z.sib.Fork? && IsBlack(z.sib)
    requires IsBlack(z.sib.l) && IsBlack(z.sib.r)
    ensures DelInv(z.up, Join(z.(sib := z.sib.(c := RED)), t))
  {
    MkBalanced(z.side, z.n, z.c, t, z.sib.(c := RED));
  }

  // Black sibling whose outer child is black and inner child red: recolouring and rotating the
  // sibling gives a black sibling with a red outer child.
  lemma DelInnerNephew(z: Path, t: Shape)
    requires DelInv(z, t) && DelBusy(z, t) && z.sib.Fork? && IsBlack(z.sib)
    requires !IsBlack(Near(z.side, z.sib)) && IsBlack(Far(z.side, z.sib))
    ensures var w := z.sib;
            var r := Lift(z.side, Mk(z.side, w.n, RED, Blacken(Near(z.side, w)), Far(z.side, w)));
            DelInv(z.(sib := r), t) && IsBlack(r) && !IsBlack(Far(z.side, r))
  {
    var w := z.sib;
    var a := Near(z.side, w);
    assert Balanced(w) && Balanced(a) && BlackHeight(a) == BlackHeight(Far(z.side, w));
    MkBalanced(z.side, w.n, RED, Far(z.side, a), Far(z.side, w));
    MkBalanced(z.side, a.n, BLACK, Near(z.side, a), Mk(z.side, w.n, RED, Far(z.side, a), Far(z.side, w)));
  }

  // Black sibling with a red outer child: recolouring and rotating the parent ends the shortage.
  lemma DelOuterNephew(z: Path, t: Shape)
    requires DelInv(z, t) && DelBusy(z, t) && z.sib.Fork? && IsBlack(z.sib)
    requires !IsBlack(Far(z.side, z.sib))
    ensures var w := Mk(z.side, z.sib.n, z.c, Near(z.side, z.sib), Blacken(Far(z.side, z.sib)));
            var r := Lift(Other(z.side), Join(z.(c := BLACK, sib := w), t));
            RedBlack(Plug(z.up, r))
  {
    var w := z.sib;
    var b, g := Near(z.side, w), Blacken(Far(z.side, w));
    assert Balanced(w) && Balanced(b) && Balanced(Far(z.side, w));
    BlackenBalanced(Far(z.side, w));
    MkBalanced(z.side, z.n, BLACK, t, b);
    MkBalanced(z.side, w.n, z.c, Mk(z.side, z.n, BLACK, t, b), g);
    PlugBalanced(z.up, Mk(z.side, w.n, z.c, Mk(z.side, z.n, BLACK, t, b), g));
  }

  lemma DelDone(z: Path, t: Shape)
    requires DelInv(z, t) && !DelBusy(z, t)
    ensures RedBlack(Plug(z, Blacken(t)))
  {
    BlackenBalanced(t);
    if z.Down? {
      PlugBalanced(z, Blacken(t));
    }
  }

  // ----- size against height -----

  ghost function Height(t: Shape): nat {
    if t.Leaf? then 0
    else 1 + if Height(t.l) > Height(t.r) then Height(t.l) else Height(t.r)
  }

  ghost function Pow2(n: nat): nat {
    if n == 0 then 1 else 2 * Pow2(n - 1)
  }

  lemma {:induction false} Pow2Sum(a: nat, b: nat)
    ensures Pow2(a + b) == Pow2(a) * Pow2(b)
  {
    if a > 0 {
      Pow2Sum(a - 1, b);
    }
  }

  lemma {:induction false} Pow2Mono(a: nat, b: nat)
    requires a <= b
    ensures Pow2(a) <= Pow2(b)
  {
    if a < b {
      Pow2Mono(a, b - 1);
    }
  }

  lemma {:induction false} BalancedSize(t: Shape)
    requires Balanced(t)
    ensures Pow2(BlackHeight(t)) <= |InOrder(t)| + 1
    ensures Height(t) <= 2 * BlackHeight(t) + (if IsBlack(t) then 0 else 1)
  {
    if t.Fork? {
      BalancedSize(t.l);
      BalancedSize(t.r);
    }
  }

  lemma SquareMono(p: nat, n: nat)
    requires p <= n
    ensures p * p <= n * n
  {
    assert p * p <= p * n;
  }

  // A path of h nodes in a red-black tree of n nodes has h <= 2 log2(n + 1).
  lemma HeightBound(t: Shape)
    requires RedBlack(t)
    ensures Pow2(Height(t)) <= (|InOrder(t)| + 1) * (|InOrder(t)| + 1)
  {
    BalancedSize(t);
    var b := BlackHeight(t);
    Pow2Mono(Height(t), b + b);
    Pow2Sum(b, b);
    SquareMono(Pow2(b), |InOrder(t)| + 1);
  }

  lemma {:induction false} DepthBound(z: Path, t: Shape)
    ensures Depth(z) + Height(t) <= Height(Plug(z, t))
    decreases z
  {
    if z.Down? {
      DepthBound(z.up, Join(z, t));
    }
  }
}
