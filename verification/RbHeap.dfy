/** How a heap of nodes represents a shape, and what rotations and colour changes do to it. A heap is a map from nodes
    to their fields, taken at one moment. A position in the tree is the path from it to the root, and most lemmas carry
    what is known at one position to the next. */
module RbHeap {
  import opened RbShape

  /** The link and colour fields of a node, and of all nodes of a set. */
  datatype Cell = Cell(left: Node?, right: Node?, parent: Node?, red: bool)

  type Heap = map<Node, Cell>

  ghost function Snap(ns: set<Node>): (h: Heap)
    reads ns
    ensures h.Keys == ns
  {
    map n | n in ns :: Cell(n.left, n.right, n.parent, n.red)
  }

  ghost function Below(t: Shape): set<Node> { if t.Br? then Nodes(t.l) + Nodes(t.r) else {} }

  /** The nodes below `p` are exactly `t`: links, colours, and parent links between them. */
  ghost predicate RepT(t: Shape, p: Node?, s: Node, h: Heap) {
    match t
    case Leaf => p == s
    case Br(l, nd, red, r) =>
      && p == nd && nd != s && nd in h && h[nd].red == red
      && RepT(l, h[nd].left, s, h) && RepT(r, h[nd].right, s, h)
      && ParentIs(l, nd, h) && ParentIs(r, nd, h)
  }

  ghost predicate ParentIs(t: Shape, p: Node, h: Heap) {
    t.Br? ==> t.nd in h && h[t.nd].parent == p
  }

  /** The nodes above a position, whose link to the position holds `f`. Nothing is said of the
      root's own parent link, which the code does not maintain. */
  ghost predicate RepC(c: Ctx, f: Node?, root: Node, s: Node, h: Heap) {
    match c
    case Top => root == f
    case In(up, nd, red, sib, onLeft) =>
      && nd != s && nd in h && h[nd].red == red
      && f == (if onLeft then h[nd].left else h[nd].right)
      && RepT(sib, if onLeft then h[nd].right else h[nd].left, s, h)
      && ParentIs(sib, nd, h)
      && (up.In? ==> h[nd].parent == up.nd)
      && RepC(up, nd, root, s, h)
  }

  /** `f` is the node at position `c` with the tree `t` below it. */
  ghost predicate At(c: Ctx, t: Shape, f: Node, root: Node, s: Node, h: Heap) {
    && Apart(c, t)
    && RepC(c, f, root, s, h)
    && RepT(t, f, s, h)
    && (c.In? ==> ParentIs(t, c.nd, h))
  }

  /** Two heaps agree outside `ch`. */
  ghost predicate Agree(h: Heap, h': Heap, ch: set<Node>) {
    forall n :: n in h && n !in ch ==> n in h' && h'[n] == h[n]
  }

  lemma {:induction false} FrameT(t: Shape, p: Node?, s: Node, h: Heap, h': Heap, ch: set<Node>)
    requires RepT(t, p, s, h) && Agree(h, h', ch) && Nodes(t) !! ch
    ensures RepT(t, p, s, h')
  {
    if t.Br? {
      FrameT(t.l, h[t.nd].left, s, h, h', ch);
      FrameT(t.r, h[t.nd].right, s, h, h', ch);
    }
  }

  /** The same when the top node's own parent link changes. */
  lemma FrameBelow(t: Shape, p: Node?, s: Node, h: Heap, h': Heap, ch: set<Node>)
    requires RepT(t, p, s, h) && Agree(h, h', ch) && Below(t) !! ch
    requires t.Br? ==> t.nd in h' && h'[t.nd] == h[t.nd].(parent := h'[t.nd].parent)
    ensures RepT(t, p, s, h')
  {
    if t.Br? {
      FrameT(t.l, h[t.nd].left, s, h, h', ch);
      FrameT(t.r, h[t.nd].right, s, h, h', ch);
    }
  }

  lemma {:induction false} FrameC(c: Ctx, f: Node?, root: Node, s: Node, h: Heap, h': Heap, ch: set<Node>)
    requires RepC(c, f, root, s, h) && Agree(h, h', ch) && CNodes(c) !! ch
    ensures RepC(c, f, root, s, h')
  {
    if c.In? {
      FrameT(c.sib, if c.onLeft then h[c.nd].right else h[c.nd].left, s, h, h', ch);
      FrameC(c.up, c.nd, root, s, h, h', ch);
    }
  }

  lemma {:induction false} RootAbove(c: Ctx, f: Node?, root: Node, s: Node, h: Heap)
    requires RepC(c, f, root, s, h)
    ensures if c.Top? then root == f else root in CNodes(c)
  {
    if c.In? { RootAbove(c.up, c.nd, root, s, h); }
  }

  // ---------- rotations; `left` tells the direction, so that one proof serves both ----------

  ghost function Near(t: Shape, left: bool): Shape requires t.Br? { if left then t.l else t.r }
  ghost function Far(t: Shape, left: bool): Shape requires t.Br? { if left then t.r else t.l }
  ghost function Mk(a: Shape, nd: Node, red: bool, b: Shape, left: bool): Shape {
    if left then Br(a, nd, red, b) else Br(b, nd, red, a)
  }
  ghost function Kid(k: Cell, left: bool): Node? { if left then k.left else k.right }
  ghost function SetKid(k: Cell, n: Node?, left: bool): Cell {
    if left then k.(left := n) else k.(right := n)
  }

  /** What a rotation makes of the shape: the far child comes to the top. */
  ghost function Rot(t: Shape, left: bool): (r: Shape)
    requires t.Br? && Far(t, left).Br?
    ensures r.Br? && r.nd == Far(t, left).nd && Near(r, left).Br? && Near(r, left).nd == t.nd
  {
    var y := Far(t, left);
    Mk(Mk(Near(t, left), t.nd, t.red, Near(y, left), left), y.nd, y.red, Far(y, left), left)
  }

  lemma RotOrder(t: Shape, left: bool)
    requires t.Br? && Far(t, left).Br?
    ensures InOrder(Rot(t, left)) == InOrder(t)
  {
    if left {
      Regroup([], InOrder(t.l), [t.nd], InOrder(t.r.l), [t.r.nd] + InOrder(t.r.r));
      var a, x, b, y, d := InOrder(t.l), [t.nd], InOrder(t.r.l), [t.r.nd], InOrder(t.r.r);
      assert a + x + (b + y + d) == (a + x + b) + y + d;
    } else {
      var a, x, b, y, d := InOrder(t.l.l), [t.l.nd], InOrder(t.l.r), [t.nd], InOrder(t.r);
      assert (a + x + b) + y + d == a + x + (b + y + d);
    }
  }

  lemma RotNodes(t: Shape, left: bool)
    requires t.Br? && Far(t, left).Br?
    ensures Nodes(Rot(t, left)) == Nodes(t)
  {
  }

  lemma RotDistinct(t: Shape, left: bool)
    requires t.Br? && Far(t, left).Br? && Distinct(t)
    ensures Distinct(Rot(t, left))
  {
    assert Distinct(Far(t, left));
  }

  ghost function Tip(t: Shape): set<Node> { if t.Br? then {t.nd} else {} }
  ghost function CTip(c: Ctx): set<Node> { if c.In? then {c.nd} else {} }

  /** The nodes a rotation at `t.nd` writes to. */
  ghost function Touched(c: Ctx, t: Shape, left: bool): set<Node>
    requires t.Br? && Far(t, left).Br?
  {
    {t.nd, Far(t, left).nd} + Tip(Near(Far(t, left), left)) + CTip(c)
  }

  lemma RotTouched(c: Ctx, t: Shape, left: bool)
    requires t.Br? && Far(t, left).Br? && Apart(c, t)
    ensures var y := Far(t, left);
      && Nodes(Near(t, left)) !! Touched(c, t, left)
      && Nodes(Far(y, left)) !! Touched(c, t, left)
      && Below(Near(y, left)) !! Touched(c, t, left)
      && t.nd != y.nd && Tip(Near(y, left)) !! {t.nd, y.nd} && CTip(c) !! {t.nd, y.nd} + Tip(Near(y, left))
  {
    assert Distinct(Far(t, left)) && Distinct(Near(Far(t, left), left));
    assert CTip(c) !! Nodes(t);
  }

  lemma CtxTouched(c: Ctx, t: Shape, left: bool)
    requires c.In? && t.Br? && Far(t, left).Br? && Apart(c, t)
    ensures Nodes(c.sib) !! Touched(c, t, left) && CNodes(c.up) !! Touched(c, t, left)
  {
    assert Nodes(Far(t, left)) <= Nodes(t) && Tip(Near(Far(t, left), left)) <= Nodes(Far(t, left));
    assert c.nd !in Nodes(c.sib) && c.nd !in CNodes(c.up);
  }

  /** The fields a rotation at `t.nd` changes, and no others. */
  ghost predicate RotCells(c: Ctx, t: Shape, left: bool, h: Heap, h': Heap)
    requires t.Br? && Far(t, left).Br?
  {
    var x, y, b := t.nd, Far(t, left).nd, Near(Far(t, left), left);
    && h'.Keys == h.Keys && x in h && y in h && (b.Br? ==> b.nd in h) && (c.In? ==> c.nd in h)
    && (forall n :: n in h && n != x && n != y && !(b.Br? && n == b.nd) && !(c.In? && n == c.nd) ==> h'[n] == h[n])
    && h'[x] == SetKid(h[x], Kid(h[y], left), !left).(parent := y)
    && h'[y] == SetKid(h[y], x, left).(parent := h[x].parent)
    && (b.Br? ==> h'[b.nd] == h[b.nd].(parent := x))
    && (c.In? ==> h'[c.nd] == SetKid(h[c.nd], y, c.onLeft))
  }

  lemma RotAgree(c: Ctx, t: Shape, left: bool, h: Heap, h': Heap)
    requires t.Br? && Far(t, left).Br? && RotCells(c, t, left, h, h')
    ensures Agree(h, h', Touched(c, t, left))
  {
  }

  lemma RotRepT(c: Ctx, t: Shape, left: bool, s: Node, h: Heap, h': Heap)
    requires t.Br? && Far(t, left).Br? && RepT(t, t.nd, s, h) && Apart(c, t)
    requires RotCells(c, t, left, h, h')
    ensures RepT(Rot(t, left), Far(t, left).nd, s, h')
  {
    hide Agree, Touched, Distinct;
    var y, ch := Far(t, left), Touched(c, t, left);
    RotTouched(c, t, left);
    RotAgree(c, t, left, h, h');
    assert RepT(y, Kid(h[t.nd], !left), s, h);
    FrameT(Near(t, left), Kid(h[t.nd], left), s, h, h', ch);
    FrameBelow(Near(y, left), Kid(h[y.nd], left), s, h, h', ch);
    FrameT(Far(y, left), Kid(h[y.nd], !left), s, h, h', ch);
  }

  lemma RotRepC(c: Ctx, t: Shape, left: bool, root: Node, s: Node, h: Heap, h': Heap)
    requires c.In? && t.Br? && Far(t, left).Br? && RepC(c, t.nd, root, s, h) && Apart(c, t)
    requires RotCells(c, t, left, h, h')
    ensures RepC(c, Far(t, left).nd, root, s, h')
  {
    CtxTouched(c, t, left);
    RotAgree(c, t, left, h, h');
    FrameT(c.sib, Kid(h[c.nd], !c.onLeft), s, h, h', Touched(c, t, left));
    FrameC(c.up, c.nd, root, s, h, h', Touched(c, t, left));
  }

  lemma RotRep(c: Ctx, t: Shape, left: bool, root: Node, root': Node, s: Node, h: Heap, h': Heap)
    requires t.Br? && Far(t, left).Br? && At(c, t, t.nd, root, s, h)
    requires RotCells(c, t, left, h, h')
    requires root' == if c.Top? then Far(t, left).nd else root
    ensures At(c, Rot(t, left), Far(t, left).nd, root', s, h')
  {
    RotNodes(t, left);
    RotDistinct(t, left);
    RotRepT(c, t, left, s, h, h');
    if c.In? { RotRepC(c, t, left, root, s, h, h'); }
  }

  /** What the pointers around `t.nd` look like, in the terms the rotation code tests. */
  ghost predicate RotReady(c: Ctx, t: Shape, left: bool, root: Node, s: Node, h: Heap)
    requires t.Br? && Far(t, left).Br?
  {
    var x, y, b := t.nd, Far(t, left).nd, Near(Far(t, left), left);
    && x in h && y in h && x != y && s != x && s != y
    && (b.Br? ==> b.nd in h && b.nd != x && b.nd != y && b.nd != s)
    && (c.In? ==> c.nd in h && c.nd != x && c.nd != y && c.nd != s && !(b.Br? && b.nd == c.nd))
    && Kid(h[x], !left) == y && Kid(h[y], left) == (if b.Br? then b.nd else s)
    && (root == x <==> c.Top?)
    && (c.In? ==> h[x].parent == c.nd && (h[c.nd].left == x <==> c.onLeft) && (h[c.nd].right == x <==> !c.onLeft))
  }

  lemma KidIs(c: Ctx, t: Shape, root: Node, s: Node, h: Heap)
    requires c.In? && t.Br? && At(c, t, t.nd, root, s, h)
    ensures c.nd in h && h[t.nd].parent == c.nd
    ensures (h[c.nd].left == t.nd <==> c.onLeft) && (h[c.nd].right == t.nd <==> !c.onLeft)
  {
    assert c.sib.Br? ==> c.sib.nd in Nodes(c.sib);
  }

  lemma RotReadyAt(c: Ctx, t: Shape, left: bool, root: Node, s: Node, h: Heap)
    requires t.Br? && Far(t, left).Br? && At(c, t, t.nd, root, s, h)
    ensures RotReady(c, t, left, root, s, h)
  {
    RotTouched(c, t, left);
    RootAbove(c, t.nd, root, s, h);
    var y := Far(t, left);
    assert RepT(y, Kid(h[t.nd], !left), s, h);
    assert RepT(Near(y, left), Kid(h[y.nd], left), s, h);
    if c.In? { KidIs(c, t, root, s, h); }
  }

  /** The three steps of a rotation: the near grandchild moves over, */
  ghost function NearMoved(t: Shape, left: bool, h: Heap): Heap
    requires t.Br? && Far(t, left).Br? && t.nd in h && Far(t, left).nd in h
    requires Near(Far(t, left), left).Br? ==> Near(Far(t, left), left).nd in h
  {
    var x, y, b := t.nd, Far(t, left).nd, Near(Far(t, left), left);
    var h' := h[x := SetKid(h[x], Kid(h[y], left), !left)];
    if b.Br? then h'[b.nd := h'[b.nd].(parent := x)] else h'
  }

  /** what led to `x` leads to `y`, */
  ghost function Linked(c: Ctx, x: Node, y: Node, h: Heap): Heap
    requires x in h && y in h && (c.In? ==> c.nd in h)
  {
    var h' := h[y := h[y].(parent := h[x].parent)];
    if c.In? then h'[c.nd := SetKid(h'[c.nd], y, c.onLeft)] else h'
  }

  /** and the two nodes change places. */
  ghost function Hooked(t: Shape, left: bool, h: Heap): Heap
    requires t.Br? && Far(t, left).Br? && t.nd in h && Far(t, left).nd in h
  {
    var x, y := t.nd, Far(t, left).nd;
    var h' := h[y := SetKid(h[y], x, left)];
    h'[x := h'[x].(parent := y)]
  }

  lemma RotSteps(c: Ctx, t: Shape, left: bool, root: Node, s: Node, h: Heap)
    requires t.Br? && Far(t, left).Br? && RotReady(c, t, left, root, s, h)
    ensures var x, y, h1 := t.nd, Far(t, left).nd, NearMoved(t, left, h);
      && h1.Keys == h.Keys && (c.In? ==> h1[x].parent == c.nd && Kid(h1[c.nd], left) == Kid(h[c.nd], left))
      && var h2 := Linked(c, x, y, h1); h2.Keys == h.Keys && RotCells(c, t, left, h, Hooked(t, left, h2))
  {
  }

  // ---------- moving along the path ----------

  ghost function DownC(c: Ctx, t: Shape, left: bool): Ctx
    requires t.Br?
  {
    In(c, t.nd, t.red, Far(t, left), left)
  }

  lemma ApartUp(c: Ctx, t: Shape)
    requires c.In?
    ensures Apart(c, t) <==> Apart(c.up, Up(c, t))
  {
  }

  lemma FocusUp(c: Ctx, t: Shape, f: Node, root: Node, s: Node, h: Heap)
    requires c.In? && At(c, t, f, root, s, h)
    ensures At(c.up, Up(c, t), c.nd, root, s, h)
  {
    ApartUp(c, t);
  }

  lemma FocusDown(c: Ctx, t: Shape, left: bool, f: Node, root: Node, s: Node, h: Heap)
    requires t.Br? && Near(t, left).Br? && At(c, t, f, root, s, h)
    ensures At(DownC(c, t, left), Near(t, left), Near(t, left).nd, root, s, h)
  {
    ApartUp(DownC(c, t, left), Near(t, left));
    assert RepT(Near(t, left), Kid(h[t.nd], left), s, h);
  }

  // ---------- colour changes ----------

  /** `t` with the node `n` painted. */
  ghost function Painted(t: Shape, n: Node, red: bool): Shape {
    match t
    case Leaf => Leaf
    case Br(l, nd, r0, r) => Br(Painted(l, n, red), nd, if nd == n then red else r0, Painted(r, n, red))
  }

  lemma {:induction false} PaintedSame(t: Shape, n: Node, red: bool)
    ensures Nodes(Painted(t, n, red)) == Nodes(t)
    ensures InOrder(Painted(t, n, red)) == InOrder(t)
    ensures Distinct(Painted(t, n, red)) == Distinct(t)
  {
    if t.Br? { PaintedSame(t.l, n, red); PaintedSame(t.r, n, red); }
  }

  lemma {:induction false} PaintedRep(t: Shape, n: Node, red: bool, p: Node?, s: Node, h: Heap, h': Heap)
    requires RepT(t, p, s, h) && Agree(h, h', {n}) && n in h && n in h' && h'[n] == h[n].(red := red)
    ensures RepT(Painted(t, n, red), p, s, h')
  {
    if t.Br? {
      PaintedRep(t.l, n, red, h[t.nd].left, s, h, h');
      PaintedRep(t.r, n, red, h[t.nd].right, s, h, h');
    }
  }

  lemma {:induction false} PaintedAway(t: Shape, n: Node, red: bool)
    requires n !in Nodes(t)
    ensures Painted(t, n, red) == t
  {
    if t.Br? { PaintedAway(t.l, n, red); PaintedAway(t.r, n, red); }
  }

  lemma PaintTop(t: Shape, red: bool)
    requires t.Br? && Distinct(t)
    ensures Painted(t, t.nd, red) == t.(red := red)
  {
    PaintedAway(t.l, t.nd, red);
    PaintedAway(t.r, t.nd, red);
  }

  /** Painting one child of the top node. */
  lemma PaintKid(t: Shape, left: bool, red: bool)
    requires t.Br? && Near(t, left).Br? && Distinct(t)
    ensures var k := Near(t, left); Painted(t, k.nd, red) == Mk(k.(red := red), t.nd, t.red, Far(t, left), left)
  {
    PaintTop(Near(t, left), red);
    PaintedAway(Far(t, left), Near(t, left).nd, red);
  }

  lemma PaintAt(c: Ctx, t: Shape, n: Node, red: bool, f: Node, root: Node, s: Node, h: Heap, h': Heap)
    requires At(c, t, f, root, s, h) && n in Nodes(t)
    requires Agree(h, h', {n}) && n in h && n in h' && h'[n] == h[n].(red := red)
    ensures At(c, Painted(t, n, red), f, root, s, h')
  {
    PaintedSame(t, n, red);
    PaintedRep(t, n, red, f, s, h, h');
    FrameC(c, f, root, s, h, h', {n});
  }
}
