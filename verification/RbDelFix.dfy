/** The fixup loop of ngx_rbtree_delete, case by case. `c.onLeft` is the side of the short subtree. */
module RbDelFix {
  import opened RbShape
  import opened RbHeap
  import opened RbFixup
  import opened RbDelete

  /** The tree at the position is one black node short, unless its root is red. */
  ghost predicate DelInv(c: Ctx, t: Shape, hh: int) {
    CtxRB(c, hh, false) && if IsRed(t) then RB(t.(red := false), hh) else RB(t, hh - 1)
  }

  /** Removing a black node with one child leaves that child's tree short; removing a red one changes nothing. */
  lemma DelStart(c: Ctx, t: Shape, d: Shape) returns (hh: int)
    requires RedBlack(Fill(c, t)) && t.Br? && OnlyKid(t, d)
    ensures t.red ==> RB(d, hh) && CtxRB(c, hh, IsRed(d))
    ensures !t.red ==> DelInv(c, d, hh)
  {
    hh := OpenRB(c, t);
    Calmer(c, hh, t.red);
  }

  /** What may be red may be black. */
  lemma {:induction false} Calmer(c: Ctx, hh: int, red: bool)
    requires CtxRB(c, hh, red)
    ensures CtxRB(c, hh, false)
  {
  }

  /** The sibling of a short subtree is never the sentinel. */
  lemma SiblingIsNode(c: Ctx, t: Shape, hh: int)
    requires DelInv(c, t, hh) && !IsRed(t) && c.In?
    ensures c.sib.Br? && RB(c.sib, hh) && hh >= 1 && CtxRB(c.up, if c.red then hh else hh + 1, c.red)
    ensures IsRed(c.sib) ==> !c.red
  {
    BHUnique(t, hh - 1);
  }

  // ---------- red sibling ----------

  ghost function S1(c: Ctx, t: Shape): (r: Shape)
    requires c.In? && c.sib.Br?
    ensures r.Br? && r.nd == c.nd && Far(r, c.onLeft).Br? && Far(r, c.onLeft).nd == c.sib.nd
  {
    Mk(t, c.nd, true, c.sib.(red := false), c.onLeft)
  }

  lemma S1Is(c: Ctx, t: Shape)
    requires c.In? && c.sib.Br? && Distinct(Up(c, t))
    ensures Painted(Painted(Up(c, t), c.sib.nd, false), c.nd, true) == S1(c, t)
    ensures Equiv(S1(c, t), Up(c, t))
  {
    var u := Up(c, t);
    PaintKid(u, !c.onLeft, false);
    PaintedSame(u, c.sib.nd, false);
    var u1 := Painted(u, c.sib.nd, false);
    PaintTop(u1, true);
    PaintedSame(u1, c.nd, true);
  }

  ghost function C1(c: Ctx, t: Shape): (r: Ctx)
    requires c.In? && c.sib.Br?
    ensures r.In? && r.nd == c.nd && r.onLeft == c.onLeft && r.red && r.sib == Near(c.sib, c.onLeft)
  {
    In(In(c.up, c.sib.nd, false, Far(c.sib, c.onLeft), c.onLeft), c.nd, true, Near(c.sib, c.onLeft), c.onLeft)
  }

  lemma DelRed(c: Ctx, t: Shape, hh: int)
    requires DelInv(c, t, hh) && !IsRed(t) && c.In? && IsRed(c.sib)
    ensures DelInv(C1(c, t), t, hh) && !IsRed(C1(c, t).sib)
  {
    SiblingIsNode(c, t, hh);
    assert RB(Near(c.sib, c.onLeft), hh) && RB(Far(c.sib, c.onLeft), hh) && !IsRed(Near(c.sib, c.onLeft));
    Calmer(c.up, hh + 1, c.red);
    assert CtxRB(C1(c, t).up, hh, true);
  }

  // ---------- black sibling with two black children ----------

  ghost function S2(c: Ctx, t: Shape): (r: Shape)
    requires c.In? && c.sib.Br?
    ensures r.Br? && r.nd == c.nd && r.red == c.red
  {
    Mk(t, c.nd, c.red, c.sib.(red := true), c.onLeft)
  }

  lemma S2Is(c: Ctx, t: Shape)
    requires c.In? && c.sib.Br? && Distinct(Up(c, t))
    ensures Painted(Up(c, t), c.sib.nd, true) == S2(c, t) && Equiv(S2(c, t), Up(c, t))
  {
    PaintKid(Up(c, t), !c.onLeft, true);
    PaintedSame(Up(c, t), c.sib.nd, true);
  }

  ghost predicate BothBlack(t: Shape) requires t.Br? { !IsRed(t.l) && !IsRed(t.r) }

  lemma DelBoth(c: Ctx, t: Shape, hh: int)
    requires DelInv(c, t, hh) && !IsRed(t) && c.In? && c.sib.Br? && !c.sib.red && BothBlack(c.sib)
    ensures DelInv(c.up, S2(c, t), if c.red then hh else hh + 1)
  {
    SiblingIsNode(c, t, hh);
    Calmer(c.up, if c.red then hh else hh + 1, c.red);
    assert RB(c.sib.(red := true), hh - 1);
  }

  // ---------- red near child only ----------

  ghost function S3(c: Ctx): (r: Shape)
    requires c.In? && c.sib.Br? && Near(c.sib, c.onLeft).Br?
    ensures r.Br? && r.nd == c.sib.nd && Near(r, c.onLeft).Br? && Near(r, c.onLeft).nd == Near(c.sib, c.onLeft).nd
  {
    Mk(Near(c.sib, c.onLeft).(red := false), c.sib.nd, true, Far(c.sib, c.onLeft), c.onLeft)
  }

  lemma S3Is(c: Ctx)
    requires c.In? && c.sib.Br? && Near(c.sib, c.onLeft).Br? && Distinct(c.sib)
    ensures Painted(Painted(c.sib, Near(c.sib, c.onLeft).nd, false), c.sib.nd, true) == S3(c)
    ensures Equiv(S3(c), c.sib)
  {
    var k := Near(c.sib, c.onLeft);
    PaintKid(c.sib, c.onLeft, false);
    PaintedSame(c.sib, k.nd, false);
    var u1 := Painted(c.sib, k.nd, false);
    PaintTop(u1, true);
    PaintedSame(u1, c.sib.nd, true);
  }

  ghost function C3(c: Ctx): (r: Ctx)
    requires c.In? && c.sib.Br? && Near(c.sib, c.onLeft).Br?
    ensures r.In? && r.nd == c.nd && r.onLeft == c.onLeft && r.sib.Br? && r.sib.nd == Near(c.sib, c.onLeft).nd
      && Depth(r) == Depth(c)
  {
    c.(sib := Rot(S3(c), !c.onLeft))
  }

  lemma DelNear(c: Ctx, t: Shape, hh: int)
    requires DelInv(c, t, hh) && !IsRed(t) && c.In? && c.sib.Br? && !c.sib.red
    requires IsRed(Near(c.sib, c.onLeft)) && !IsRed(Far(c.sib, c.onLeft))
    ensures DelInv(C3(c), t, hh) && !C3(c).sib.red && IsRed(Far(C3(c).sib, c.onLeft))
  {
    SiblingIsNode(c, t, hh);
    var k := Near(c.sib, c.onLeft);
    assert RB(k, hh - 1) && RB(Far(c.sib, c.onLeft), hh - 1);
    assert RB(Mk(Far(k, c.onLeft), c.sib.nd, true, Far(c.sib, c.onLeft), c.onLeft), hh - 1);
    assert RB(C3(c).sib, hh);
  }

  // ---------- red far child ----------

  ghost function S4(c: Ctx, t: Shape): (r: Shape)
    requires c.In? && c.sib.Br? && Far(c.sib, c.onLeft).Br?
    ensures r.Br? && r.nd == c.nd && Far(r, c.onLeft).Br? && Far(r, c.onLeft).nd == c.sib.nd
  {
    Mk(t, c.nd, false, Mk(Near(c.sib, c.onLeft), c.sib.nd, c.red, Far(c.sib, c.onLeft).(red := false), c.onLeft),
      c.onLeft)
  }

  lemma S4Is(c: Ctx, t: Shape)
    requires c.In? && c.sib.Br? && Far(c.sib, c.onLeft).Br? && Distinct(Up(c, t))
    ensures Painted(Painted(Painted(Up(c, t), c.sib.nd, c.red), c.nd, false), Far(c.sib, c.onLeft).nd, false) ==
      S4(c, t)
    ensures Equiv(S4(c, t), Up(c, t))
  {
    var u, w, b := Up(c, t), c.sib, Far(c.sib, c.onLeft);
    PaintKid(u, !c.onLeft, c.red);
    PaintedSame(u, w.nd, c.red);
    var u1 := Painted(u, w.nd, c.red);
    PaintTop(u1, false);
    PaintedSame(u1, c.nd, false);
    var u2 := Painted(u1, c.nd, false);
    PaintKid(Far(u2, c.onLeft), !c.onLeft, false);
    PaintedAway(Near(u2, c.onLeft), b.nd, false);
    PaintedSame(u2, b.nd, false);
  }

  lemma DelFar(c: Ctx, t: Shape, hh: int)
    requires DelInv(c, t, hh) && !IsRed(t) && c.In? && c.sib.Br? && !c.sib.red && IsRed(Far(c.sib, c.onLeft))
    ensures RedBlack(Fill(c.up, Rot(S4(c, t), c.onLeft)))
  {
    SiblingIsNode(c, t, hh);
    var r, hr := Rot(S4(c, t), c.onLeft), if c.red then hh else hh + 1;
    assert RB(Near(c.sib, c.onLeft), hh - 1) && RB(Far(c.sib, c.onLeft), hh - 1);
    assert RB(Mk(t, c.nd, false, Near(c.sib, c.onLeft), c.onLeft), hh);
    assert RB(Far(c.sib, c.onLeft).(red := false), hh);
    assert RB(r, hr);
    FillRB(c.up, r, hr);
  }

  // ---------- the same seen from the loop ----------

  /** Everything the deletion loop keeps about its position. */
  ghost predicate DelAt(c: Ctx, t: Shape, hh: int, whole: Shape, temp: Node, root: Node, s: Node, ns: set<Node>,
      h: Heap)
  {
    && DelInv(c, t, hh) && temp == TopOf(t, s) && At(c, t, temp, root, s, h)
    && Equiv(Fill(c, t), whole) && CNodes(c) + Nodes(t) == ns && h.Keys == ns
  }

  /** Replacing the parent's subtree by an equivalent one keeps nodes and order. */
  lemma SameWhole(c: Ctx, t: Shape, c': Ctx, t': Shape, u: Shape, whole: Shape, ns: set<Node>)
    requires c.In? && Equiv(Fill(c, t), whole) && CNodes(c) + Nodes(t) == ns
    requires Fill(c', t') == Fill(c.up, u) && Equiv(u, Up(c, t))
    ensures Equiv(Fill(c', t'), whole) && CNodes(c') + Nodes(t') == ns
  {
    hide Nodes, CNodes, InOrder;
    FillEquiv(c.up, u, Up(c, t));
    FillNodes(c, t);
    FillNodes(c', t');
  }

  lemma UpDistinct(c: Ctx, t: Shape, f: Node, root: Node, s: Node, h: Heap)
    requires c.In? && At(c, t, f, root, s, h)
    ensures Distinct(Up(c, t)) && Distinct(c.sib)
  {
    ApartUp(c, t);
  }

  lemma DelAtRed(c: Ctx, t: Shape, hh: int, whole: Shape, temp: Node, root: Node, root': Node, s: Node, ns: set<Node>,
      h: Heap, h': Heap)
    requires DelAt(c, t, hh, whole, temp, root, s, ns, h) && !IsRed(t) && c.In? && IsRed(c.sib)
    requires At(c.up, Rot(S1(c, t), c.onLeft), c.sib.nd, root', s, h') && h'.Keys == ns
    ensures DelAt(C1(c, t), t, hh, whole, temp, root', s, ns, h') && !IsRed(C1(c, t).sib)
  {
    hide At, Distinct, Equiv, RB, CtxRB;
    var r := Rot(S1(c, t), c.onLeft);
    UpDistinct(c, t, temp, root, s, h);
    S1Is(c, t);
    DelRed(c, t, hh);
    RotEquiv(S1(c, t), c.onLeft);
    EquivTrans(r, S1(c, t), Up(c, t));
    LookDown(c.up, r, c.onLeft, root', s, h');
    LookDown(DownC(c.up, r, c.onLeft), Near(r, c.onLeft), c.onLeft, root', s, h');
    SameWhole(c, t, C1(c, t), t, r, whole, ns);
  }

  lemma EquivTrans(a: Shape, b: Shape, c: Shape)
    requires Equiv(a, b) && Equiv(b, c)
    ensures Equiv(a, c)
  {
  }

  lemma DelAtBoth(c: Ctx, t: Shape, hh: int, whole: Shape, temp: Node, root: Node, s: Node, ns: set<Node>, h: Heap,
      h': Heap)
    requires DelAt(c, t, hh, whole, temp, root, s, ns, h) && !IsRed(t) && c.In? && c.sib.Br? && !c.sib.red
      && BothBlack(c.sib)
    requires At(c.up, S2(c, t), c.nd, root, s, h') && h'.Keys == ns
    ensures DelAt(c.up, S2(c, t), if c.red then hh else hh + 1, whole, c.nd, root, s, ns, h')
  {
    hide At, Distinct, Equiv, RB, CtxRB;
    UpDistinct(c, t, temp, root, s, h);
    S2Is(c, t);
    DelBoth(c, t, hh);
    SameWhole(c, t, c.up, S2(c, t), S2(c, t), whole, ns);
  }

  lemma DelAtNear(c: Ctx, t: Shape, hh: int, whole: Shape, temp: Node, root: Node, root': Node, s: Node, ns: set<Node>,
      h: Heap, h': Heap)
    requires DelAt(c, t, hh, whole, temp, root, s, ns, h) && !IsRed(t) && c.In? && c.sib.Br? && !c.sib.red
    requires IsRed(Near(c.sib, c.onLeft)) && !IsRed(Far(c.sib, c.onLeft))
    requires At(DownC(c.up, Up(c, t), !c.onLeft), Rot(S3(c), !c.onLeft), Near(c.sib, c.onLeft).nd, root', s, h')
      && h'.Keys == ns
    ensures DelAt(C3(c), t, hh, whole, temp, root', s, ns, h')
    ensures !C3(c).sib.red && IsRed(Far(C3(c).sib, c.onLeft))
  {
    hide At, Distinct, RB, CtxRB;
    UpDistinct(c, t, temp, root, s, h);
    S3Is(c);
    DelNear(c, t, hh);
    var r := Rot(S3(c), !c.onLeft);
    var side := DownC(c.up, Up(c, t), !c.onLeft);
    RotEquiv(S3(c), !c.onLeft);
    EquivTrans(r, S3(c), c.sib);
    FocusUp(side, r, r.nd, root', s, h');
    LookDown(c.up, Up(side, r), c.onLeft, root', s, h');
    EquivUp(c, t, r);
    SameWhole(c, t, C3(c), t, Up(C3(c), t), whole, ns);
  }

  lemma EquivUp(c: Ctx, t: Shape, sib: Shape)
    requires c.In? && Equiv(sib, c.sib)
    ensures Equiv(Up(c.(sib := sib), t), Up(c, t))
  {
  }

  lemma DelAtFar(c: Ctx, t: Shape, hh: int, whole: Shape, temp: Node, root: Node, root': Node, s: Node, ns: set<Node>,
      h: Heap, h': Heap)
    requires DelAt(c, t, hh, whole, temp, root, s, ns, h) && !IsRed(t) && c.In? && c.sib.Br? && !c.sib.red
    requires IsRed(Far(c.sib, c.onLeft))
    requires At(c.up, Rot(S4(c, t), c.onLeft), c.sib.nd, root', s, h') && h'.Keys == ns
    ensures var w := Fill(c.up, Rot(S4(c, t), c.onLeft));
      w.Br? && !w.red && DelAt(Top, w, BH(w) + 1, whole, root', root', s, ns, h')
  {
    hide At, Distinct, Equiv, RB, CtxRB;
    var r := Rot(S4(c, t), c.onLeft);
    var w := Fill(c.up, r);
    UpDistinct(c, t, temp, root, s, h);
    S4Is(c, t);
    DelFar(c, t, hh);
    RotEquiv(S4(c, t), c.onLeft);
    EquivTrans(r, S4(c, t), Up(c, t));
    CloseAt(c.up, r, r.nd, root', s, h');
    SameWhole(c, t, Top, w, r, whole, ns);
    FillBr(c.up, r);
    TopDel(w, root', s, h');
  }

  lemma TopDel(w: Shape, root: Node, s: Node, h: Heap)
    requires RedBlack(w) && w.Br? && At(Top, w, root, root, s, h)
    ensures DelInv(Top, w, BH(w) + 1) && w.nd == root
  {
  }
}
