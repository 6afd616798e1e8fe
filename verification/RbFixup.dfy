/** The insertion fixup of ngx_rbtree_insert, case by case, on shapes and on the nodes around a position. */
module RbFixup {
  import opened RbShape
  import opened RbHeap

  // ---------- insertion fixup, on shapes ----------

  /** What the code reads from a position at least two levels down. */
  lemma GrandLinks(c: Ctx, t: Shape, f: Node, root: Node, s: Node, h: Heap)
    requires c.In? && c.up.In? && t.Br? && At(c, t, f, root, s, h)
    ensures f in h && c.nd in h && h[f].parent == c.nd && h[c.nd].parent == c.up.nd && h[c.nd].red == c.red
    ensures f in Nodes(t) && {c.nd, c.up.nd} + Tip(c.up.sib) + Tip(c.sib) <= CNodes(c)
    ensures (h[c.nd].left == f <==> c.onLeft) && (h[c.nd].right == f <==> !c.onLeft)
    ensures c.up.nd in h && (h[c.up.nd].left == c.nd <==> c.up.onLeft)
    ensures Kid(h[c.up.nd], !c.up.onLeft) == (if c.up.sib.Br? then c.up.sib.nd else s)
    ensures c.up.sib.Br? ==> c.up.sib.nd in h && h[c.up.sib.nd].red == c.up.sib.red
    ensures Distinct(Grand(c, t))
    ensures At(c.up.up, Grand(c, t), c.up.nd, root, s, h)
  {
    FocusUp(c, t, f, root, s, h);
    KidIs(c, t, root, s, h);
    KidIs(c.up, Up(c, t), root, s, h);
    FocusUp(c.up, Up(c, t), c.nd, root, s, h);
  }

  ghost function Depth(c: Ctx): nat { if c.Top? then 0 else 1 + Depth(c.up) }

  /** The tree at the position has a red root, and would fit if that root were black. */
  ghost predicate InsInv(c: Ctx, t: Shape, hh: int) {
    t.Br? && t.red && RB(t, hh) && CtxRB(c, hh, false)
  }

  /** The subtree of the grandparent. */
  ghost function Grand(c: Ctx, t: Shape): Shape
    requires c.In? && c.up.In?
  {
    Up(c.up, Up(c, t))
  }

  /** Red uncle: parent and uncle go black, the grandparent red. */
  ghost function Recoloured(c: Ctx, t: Shape): Shape
    requires c.In? && c.up.In? && c.up.sib.Br?
  {
    Mk(Up(c.(red := false), t), c.up.nd, true, c.up.sib.(red := false), c.up.onLeft)
  }

  lemma InsRecolour(c: Ctx, t: Shape, hh: int)
    requires InsInv(c, t, hh) && c.In? && c.red
    ensures c.up.In? && !c.up.red
    ensures IsRed(c.up.sib) ==> InsInv(c.up.up, Recoloured(c, t), hh + 1)
  {
    assert CtxRB(c.up, hh, true);
    if IsRed(c.up.sib) {
      assert CtxRB(c.up.up, hh + 1, false) && RB(c.up.sib, hh);
      assert RB(Up(c.(red := false), t), hh + 1) && RB(c.up.sib.(red := false), hh + 1);
    }
  }

  lemma GrandHas(c: Ctx, t: Shape)
    requires c.In? && c.up.In?
    ensures {c.nd, c.up.nd} + Tip(c.up.sib) <= Nodes(Grand(c, t))
  {
  }

  lemma RecolouredIs(c: Ctx, t: Shape)
    requires c.In? && c.up.In? && c.up.sib.Br? && Distinct(Grand(c, t))
    ensures Painted(Painted(Painted(Grand(c, t), c.nd, false), c.up.sib.nd, false), c.up.nd, true) == Recoloured(c, t)
    ensures InOrder(Recoloured(c, t)) == InOrder(Grand(c, t)) && Nodes(Recoloured(c, t)) == Nodes(Grand(c, t))
  {
    var g := Grand(c, t);
    PaintKid(g, c.up.onLeft, false);
    PaintedSame(g, c.nd, false);
    var g1 := Painted(g, c.nd, false);
    PaintKid(g1, !c.up.onLeft, false);
    PaintedSame(g1, c.up.sib.nd, false);
    var g2 := Painted(g1, c.up.sib.nd, false);
    PaintTop(g2, true);
    PaintedSame(g2, c.up.nd, true);
  }

  /** Red inner child, black uncle: after rotating the parent, the outer case remains. */
  lemma InsInner(c: Ctx, t: Shape, hh: int)
    requires InsInv(c, t, hh) && c.In? && c.red && c.up.In? && c.onLeft != c.up.onLeft
    ensures var left := c.up.onLeft; var p := Rot(Up(c, t), left);
      && Far(Up(c, t), left) == t && IsRed(p)
      && InsInv(DownC(c.up, p, left), Near(p, left), hh) && Near(p, left).nd == c.nd && p.nd == t.nd
  {
    var left := c.up.onLeft;
    var p := Rot(Up(c, t), left);
    assert RB(c.sib, hh) && !IsRed(c.sib) && CtxRB(c.up, hh, true);
    assert RB(Near(p, left), hh);
    assert CtxRB(DownC(c.up, p, left), hh, false);
  }

  /** Outer child: the grandparent, painted red, is rotated below the parent, painted black. */
  ghost function Hung(c: Ctx, t: Shape): (r: Shape)
    requires c.In? && c.up.In?
    ensures r.Br? && r.nd == c.up.nd && Near(r, c.up.onLeft).Br? && Near(r, c.up.onLeft).nd == c.nd
  {
    Mk(Up(c.(red := false), t), c.up.nd, true, c.up.sib, c.up.onLeft)
  }

  lemma HungIs(c: Ctx, t: Shape)
    requires c.In? && c.up.In? && Distinct(Grand(c, t))
    ensures Painted(Painted(Grand(c, t), c.nd, false), c.up.nd, true) == Hung(c, t)
    ensures InOrder(Hung(c, t)) == InOrder(Grand(c, t)) && Nodes(Hung(c, t)) == Nodes(Grand(c, t))
  {
    var g := Grand(c, t);
    PaintKid(g, c.up.onLeft, false);
    PaintedSame(g, c.nd, false);
    var g1 := Painted(g, c.nd, false);
    PaintTop(g1, true);
    PaintedSame(g1, c.up.nd, true);
  }

  lemma InsOuter(c: Ctx, t: Shape, hh: int)
    requires InsInv(c, t, hh) && c.In? && c.red && c.up.In? && c.onLeft == c.up.onLeft && !IsRed(c.up.sib)
    ensures var left := c.up.onLeft; var r := Rot(Hung(c, t), !left);
      InsInv(DownC(c.up.up, r, left), t, hh) && Near(r, left) == t && !r.red
  {
    assert CtxRB(c.up, hh, true) && CtxRB(c.up.up, hh + 1, false);
    assert RB(c.sib, hh) && !IsRed(c.sib) && RB(c.up.sib, hh);
    assert RB(Mk(c.sib, c.up.nd, true, c.up.sib, c.up.onLeft), hh);
  }

  /** The same nodes in the same order. */
  ghost predicate Equiv(a: Shape, b: Shape) {
    Nodes(a) == Nodes(b) && InOrder(a) == InOrder(b)
  }

  lemma FillEquiv(c: Ctx, a: Shape, b: Shape)
    requires Equiv(a, b)
    ensures Equiv(Fill(c, a), Fill(c, b))
  {
    FillNodes(c, a); FillNodes(c, b);
    FillOrder(c, a); FillOrder(c, b);
  }

  /** The whole tree, opened two levels up. */
  lemma FillGrand(c: Ctx, t: Shape)
    requires c.In? && c.up.In?
    ensures Fill(c, t) == Fill(c.up.up, Grand(c, t))
  {
  }

  lemma FillDown(c: Ctx, t: Shape, left: bool)
    requires t.Br?
    ensures Fill(DownC(c, t, left), Near(t, left)) == Fill(c, t)
  {
  }

  lemma RotEquiv(t: Shape, left: bool)
    requires t.Br? && Far(t, left).Br?
    ensures Equiv(Rot(t, left), t)
  {
    RotNodes(t, left);
    RotOrder(t, left);
  }

  /** Everything the insertion loop keeps about its position. */
  ghost predicate InsAt(c: Ctx, t: Shape, hh: int, whole: Shape, node: Node, root: Node, s: Node, ns: set<Node>,
      h: Heap)
  {
    && InsInv(c, t, hh) && node == t.nd && At(c, t, node, root, s, h)
    && Equiv(Fill(c, t), whole) && CNodes(c) + Nodes(t) == ns && h.Keys == ns
  }

  /** The case of a red uncle, seen from the loop. */
  lemma InsAtRecoloured(c: Ctx, t: Shape, hh: int, whole: Shape, node: Node, root: Node, s: Node, ns: set<Node>,
      h: Heap, h': Heap)
    requires InsAt(c, t, hh, whole, node, root, s, ns, h) && c.In? && c.red && c.up.In? && IsRed(c.up.sib)
    requires At(c.up.up, Recoloured(c, t), c.up.nd, root, s, h') && h'.Keys == ns
    ensures InsAt(c.up.up, Recoloured(c, t), hh + 1, whole, c.up.nd, root, s, ns, h')
  {
    hide At, Distinct;
    GrandLinks(c, t, node, root, s, h);
    RecolouredIs(c, t);
    InsRecolour(c, t, hh);
    FillGrand(c, t);
    FillEquiv(c.up.up, Recoloured(c, t), Grand(c, t));
    FillNodes(c, t);
    FillNodes(c.up.up, Recoloured(c, t));
  }

  /** The inner case after its first rotation. */
  lemma InsAtInner(c: Ctx, t: Shape, hh: int, whole: Shape, node: Node, root: Node, root': Node, s: Node, ns: set<Node>,
      h: Heap, h': Heap)
    requires InsAt(c, t, hh, whole, node, root, s, ns, h) && c.In? && c.red && c.up.In? && c.onLeft != c.up.onLeft
    requires At(c.up, Rot(Up(c, t), c.up.onLeft), node, root', s, h') && h'.Keys == ns
    ensures var left := c.up.onLeft; var p := Rot(Up(c, t), left);
      Near(p, left).Br? && p.red && InsAt(DownC(c.up, p, left), Near(p, left), hh, whole, c.nd, root', s, ns, h')
  {
    hide At, Distinct;
    var left := c.up.onLeft;
    var p := Rot(Up(c, t), left);
    InsInner(c, t, hh);
    RotEquiv(Up(c, t), left);
    FillEquiv(c.up, p, Up(c, t));
    FillDown(c.up, p, left);
    FillNodes(c, t);
    FillNodes(DownC(c.up, p, left), Near(p, left));
    FocusDown(c.up, p, left, node, root', s, h');
  }

  /** The outer case after its rotation. */
  lemma InsAtOuter(c: Ctx, t: Shape, hh: int, whole: Shape, node: Node, root: Node, root': Node, s: Node, ns: set<Node>,
      h: Heap, h': Heap)
    requires InsAt(c, t, hh, whole, node, root, s, ns, h) && c.In? && c.red && c.up.In? && c.onLeft == c.up.onLeft
      && !IsRed(c.up.sib)
    requires At(c.up.up, Rot(Hung(c, t), !c.up.onLeft), c.nd, root', s, h') && h'.Keys == ns
    ensures InsAt(DownC(c.up.up, Rot(Hung(c, t), !c.up.onLeft), c.up.onLeft), t, hh, whole, node, root', s, ns, h')
  {
    hide At, Distinct;
    var left := c.up.onLeft;
    var r := Rot(Hung(c, t), !left);
    InsOuter(c, t, hh);
    GrandLinks(c, t, node, root, s, h);
    HungIs(c, t);
    RotEquiv(Hung(c, t), !left);
    FillGrand(c, t);
    FillEquiv(c.up.up, r, Grand(c, t));
    FillDown(c.up.up, r, left);
    FillNodes(c, t);
    FillNodes(DownC(c.up.up, r, left), t);
    FocusDown(c.up.up, r, left, c.nd, root', s, h');
  }

  lemma {:induction false} FillBr(c: Ctx, t: Shape)
    requires t.Br?
    ensures Fill(c, t).Br?
  {
    if c.In? { FillBr(c.up, Up(c, t)); }
  }
}
