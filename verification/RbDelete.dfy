/** Deletion, on shapes and on cells: unlinking a node, putting the successor in its place, and the cases of the fixup
    loop. Each lemma says what one step leaves of the representation of the tree; the methods that take the steps are
    those of the class in `RbTree`. */
module RbDelete {
  import opened RbShape
  import opened RbHeap
  import opened RbFixup

  // ---------- opening the tree at a position ----------

  ghost function TopOf(t: Shape, s: Node): Node { if t.Br? then t.nd else s }

  /** A represented tree can be looked at from any of its positions. */
  lemma {:induction false} OpenAt(c: Ctx, t: Shape, root: Node, s: Node, h: Heap)
    requires At(Top, Fill(c, t), root, root, s, h)
    ensures At(c, t, TopOf(t, s), root, s, h)
  {
    if c.In? {
      OpenAt(c.up, Up(c, t), root, s, h);
      LookDown(c.up, Up(c, t), c.onLeft, root, s, h);
    }
  }

  /** Going down one step, to a leaf or to a node. */
  lemma LookDown(c: Ctx, t: Shape, left: bool, root: Node, s: Node, h: Heap)
    requires t.Br? && At(c, t, t.nd, root, s, h)
    ensures At(DownC(c, t, left), Near(t, left), TopOf(Near(t, left), s), root, s, h)
    ensures t.nd in h && Kid(h[t.nd], left) == TopOf(Near(t, left), s)
  {
    ApartUp(DownC(c, t, left), Near(t, left));
    assert RepT(Near(t, left), Kid(h[t.nd], left), s, h);
  }

  lemma {:induction false} CloseAt(c: Ctx, t: Shape, f: Node, root: Node, s: Node, h: Heap)
    requires At(c, t, f, root, s, h)
    ensures At(Top, Fill(c, t), root, root, s, h)
  {
    if c.In? {
      FocusUp(c, t, f, root, s, h);
      CloseAt(c.up, Up(c, t), c.nd, root, s, h);
    }
  }

  // ---------- paths below a position ----------

  /** The path `sp` continued by `base`. */
  ghost function Plus(sp: Ctx, base: Ctx): Ctx {
    if sp.Top? then base else sp.(up := Plus(sp.up, base))
  }

  lemma {:induction false} FillPlus(sp: Ctx, base: Ctx, t: Shape)
    ensures Fill(Plus(sp, base), t) == Fill(base, Fill(sp, t))
  {
    if sp.In? { FillPlus(sp.up, base, Up(sp, t)); }
  }

  /** Only left turns: such a path leads to the first node in order. */
  ghost predicate Spine(sp: Ctx) { sp.In? ==> sp.onLeft && Spine(sp.up) }

  lemma {:induction false} SpinePre(sp: Ctx, base: Ctx)
    requires Spine(sp)
    ensures Pre(Plus(sp, base)) == Pre(base) && Post(Plus(sp, base)) == Post(sp) + Post(base)
  {
    if sp.In? {
      SpinePre(sp.up, base);
      assert [sp.nd] + InOrder(sp.sib) + (Post(sp.up) + Post(base)) ==
        [sp.nd] + InOrder(sp.sib) + Post(sp.up) + Post(base);
    } else {
      assert [] + Post(base) == Post(base);
    }
  }

  /** Colours on a path do not depend on which nodes carry them. */
  lemma {:induction false} PlusColours(sp: Ctx, b: Ctx, b': Ctx, hh: int, red: bool)
    requires b.In? && b'.In? && b' == b.(nd := b'.nd)
    ensures CtxRB(Plus(sp, b), hh, red) <==> CtxRB(Plus(sp, b'), hh, red)
  {
    if sp.In? { PlusColours(sp.up, b, b', if sp.red then hh else hh + 1, sp.red); }
  }

  // ---------- unlinking ----------

  /** The position's link now holds `temp`, the only child of the node that was there;
      `temp`'s parent link may be anything. */
  ghost predicate UnlinkCells(c: Ctx, d: Shape, temp: Node, h: Heap, h': Heap) {
    && c.In? && c.nd in h && h'.Keys == h.Keys
    && h'[c.nd] == SetKid(h[c.nd], temp, c.onLeft)
    && (d.Br? ==> d.nd in h && h'[d.nd] == h[d.nd].(parent := h'[d.nd].parent))
    && Agree(h, h', {c.nd} + Tip(d))
  }

  ghost function Bypassed(c: Ctx, temp: Node, h: Heap): Heap
    requires c.In? && c.nd in h
  {
    h[c.nd := SetKid(h[c.nd], temp, c.onLeft)]
  }

  lemma BypassedKeeps(c: Ctx, temp: Node, h: Heap, n: Node)
    requires c.In? && c.nd in h && n in h
    ensures n in Bypassed(c, temp, h) && Bypassed(c, temp, h)[n].parent == h[n].parent
  {
  }

  /** After the link above only `temp`'s own parent link has changed. */
  lemma UnlinkSplit(c: Ctx, d: Shape, temp: Node, h: Heap, h1: Heap, h2: Heap, s: Node)
    requires c.In? && c.nd in h && h1 == Bypassed(c, temp, h) && temp == TopOf(d, s) && temp != c.nd && s !in h
    requires h2.Keys == h1.Keys && (d.Br? ==> temp in h) && forall n :: n in h1 && n != temp ==> h2[n] == h1[n]
    requires temp in h1 ==> h2[temp] == h1[temp].(parent := h2[temp].parent)
    ensures UnlinkCells(c, d, temp, h, h2)
  {
  }

  ghost function OnlyKid(t: Shape, d: Shape): bool
    requires t.Br?
  {
    (t.l.Leaf? && t.r == d) || (t.r.Leaf? && t.l == d)
  }

  lemma UnlinkApart(c: Ctx, t: Shape, d: Shape)
    requires c.In? && t.Br? && OnlyKid(t, d) && Apart(c, t)
    ensures Apart(c, d) && Nodes(t) == Nodes(d) + {t.nd} && t.nd !in Nodes(d) && t.nd !in CNodes(c)
    ensures Below(d) !! {c.nd} + Tip(d)
    ensures Nodes(c.sib) !! {c.nd} + Tip(d) && CNodes(c.up) !! {c.nd} + Tip(d)
  {
    assert Distinct(d) && Tip(d) <= Nodes(d) <= Nodes(t);
    assert c.nd !in Nodes(c.sib) && c.nd !in CNodes(c.up) && c.nd !in Nodes(t);
  }

  lemma UnlinkReady(c: Ctx, t: Shape, d: Shape, root: Node, s: Node, h: Heap)
    requires c.In? && t.Br? && OnlyKid(t, d) && At(c, t, t.nd, root, s, h)
    ensures t.nd in h && c.nd in h && h[t.nd].parent == c.nd && (h[c.nd].left == t.nd <==> c.onLeft)
    ensures t.nd != c.nd && (d.Br? ==> d.nd in h && d.nd != t.nd && d.nd != c.nd)
  {
    KidIs(c, t, root, s, h);
    UnlinkApart(c, t, d);
    var left := !(t.l.Leaf? && t.r == d);
    assert RepT(d, Kid(h[t.nd], left), s, h);
  }

  lemma UnlinkRep(c: Ctx, t: Shape, d: Shape, root: Node, s: Node, h: Heap, h': Heap)
    requires t.Br? && OnlyKid(t, d) && At(c, t, t.nd, root, s, h)
    requires UnlinkCells(c, d, TopOf(d, s), h, h')
    ensures Apart(c, d) && RepC(c, TopOf(d, s), root, s, h') && RepT(d, TopOf(d, s), s, h')
    ensures CNodes(c) + Nodes(t) == CNodes(c) + Nodes(d) + {t.nd} && t.nd !in CNodes(c) + Nodes(d)
  {
    var ch := {c.nd} + Tip(d);
    UnlinkApart(c, t, d);
    var left := !(t.l.Leaf? && t.r == d);
    assert RepT(d, Kid(h[t.nd], left), s, h);
    assert RepT(d, TopOf(d, s), s, h);
    FrameBelow(d, TopOf(d, s), s, h, h', ch);
    FrameT(c.sib, Kid(h[c.nd], !c.onLeft), s, h, h', ch);
    FrameC(c.up, c.nd, root, s, h, h', ch);
  }

  // ---------- the successor takes the deleted node's place ----------

  /** Like `At` for a node whose right child's parent link need not be right yet. */
  ghost predicate Loose(c: Ctx, t: Shape, root: Node, s: Node, h: Heap) {
    && t.Br? && Apart(c, t) && RepC(c, t.nd, root, s, h)
    && t.nd in h && t.nd != s && h[t.nd].red == t.red
    && RepT(t.l, h[t.nd].left, s, h) && RepT(t.r, h[t.nd].right, s, h)
    && (c.In? ==> h[t.nd].parent == c.nd)
  }

  lemma LooseAt(c: Ctx, t: Shape, root: Node, s: Node, h: Heap)
    requires t.Br? && At(c, t, t.nd, root, s, h)
    ensures Loose(c, t, root, s, h)
  {
  }

  /** The successor was the right child: unlinking it leaves the parent loose. */
  lemma LooseParent(c: Ctx, nd: Node, red: bool, l: Shape, d: Shape, root: Node, s: Node, h: Heap)
    requires var b := In(c, nd, red, l, false);
      Apart(b, d) && RepC(b, TopOf(d, s), root, s, h) && RepT(d, TopOf(d, s), s, h)
    ensures Loose(c, Br(l, nd, red, d), root, s, h)
  {
    ApartUp(In(c, nd, red, l, false), d);
  }

  lemma {:induction false} Climb(sp: Ctx, base: Ctx, t: Shape, f: Node, root: Node, s: Node, h: Heap)
    requires At(Plus(sp, base), t, f, root, s, h) && f == TopOf(t, s)
    ensures At(base, Fill(sp, t), TopOf(Fill(sp, t), s), root, s, h)
  {
    if sp.In? {
      FocusUp(Plus(sp, base), t, f, root, s, h);
      Climb(sp.up, base, Up(sp, t), sp.nd, root, s, h);
    }
  }

  ghost predicate ReplaceCells(c: Ctx, t: Shape, subst: Node, h: Heap, h': Heap)
    requires t.Br?
  {
    && t.nd in h && subst in h && (c.In? ==> c.nd in h) && (t.l.Br? ==> t.l.nd in h) && (t.r.Br? ==> t.r.nd in h)
    && h'.Keys == h.Keys
    && h'[subst] == h[t.nd]
    && (c.In? ==> h'[c.nd] == SetKid(h[c.nd], subst, c.onLeft))
    && (t.l.Br? ==> h'[t.l.nd] == h[t.l.nd].(parent := subst))
    && (t.r.Br? ==> h'[t.r.nd] == h[t.r.nd].(parent := subst))
    && forall n :: n in h && n != subst && n !in CTip(c) && n !in Tip(t.l) && n !in Tip(t.r) ==> h'[n] == h[n]
  }

  ghost function Replaced(c: Ctx, t: Shape, subst: Node): set<Node>
    requires t.Br?
  {
    CTip(c) + {subst} + Tip(t.l) + Tip(t.r)
  }

  lemma ReplaceApart(c: Ctx, t: Shape, subst: Node)
    requires t.Br? && Apart(c, t) && subst !in CNodes(c) + Nodes(t)
    ensures Apart(c, t.(nd := subst))
  {
  }

  lemma ReplaceBelow(c: Ctx, t: Shape, subst: Node)
    requires t.Br? && Apart(c, t) && subst !in CNodes(c) + Nodes(t)
    ensures Below(t.l) !! Replaced(c, t, subst) && Below(t.r) !! Replaced(c, t, subst)
  {
    assert Distinct(t.l) && Tip(t.l) <= Nodes(t.l) && Below(t.l) <= Nodes(t.l);
    assert Distinct(t.r) && Tip(t.r) <= Nodes(t.r) && Below(t.r) <= Nodes(t.r);
    assert CTip(c) <= CNodes(c);
  }

  lemma ReplaceAbove(c: Ctx, t: Shape, subst: Node)
    requires c.In? && t.Br? && Apart(c, t) && subst !in CNodes(c) + Nodes(t)
    ensures Nodes(c.sib) !! Replaced(c, t, subst) && CNodes(c.up) !! Replaced(c, t, subst)
  {
    assert Tip(t.l) <= Nodes(t) && Tip(t.r) <= Nodes(t);
  }

  lemma ReplaceAgree(c: Ctx, t: Shape, subst: Node, h: Heap, h': Heap)
    requires t.Br? && ReplaceCells(c, t, subst, h, h')
    ensures Agree(h, h', Replaced(c, t, subst))
  {
  }

  /** The successor carries the subtrees of the deleted node. */
  lemma ReplaceT(c: Ctx, t: Shape, subst: Node, root: Node, s: Node, h: Heap, h': Heap)
    requires Loose(c, t, root, s, h) && subst !in CNodes(c) + Nodes(t) && subst != s
    requires ReplaceCells(c, t, subst, h, h')
    ensures RepT(t.(nd := subst), subst, s, h') && (c.In? ==> ParentIs(t.(nd := subst), c.nd, h'))
  {
    hide Distinct, CDistinct, Apart, Replaced, Agree, CNodes, RepC;
    ReplaceAgree(c, t, subst, h, h');
    var ch := Replaced(c, t, subst);
    ReplaceBelow(c, t, subst);
    FrameBelow(t.l, h[t.nd].left, s, h, h', ch);
    FrameBelow(t.r, h[t.nd].right, s, h, h', ch);
  }

  /** The rest of the tree has the successor where the deleted node was. */
  lemma ReplaceC(c: Ctx, t: Shape, subst: Node, root: Node, root': Node, s: Node, h: Heap, h': Heap)
    requires Loose(c, t, root, s, h) && subst !in CNodes(c) + Nodes(t) && subst != s
    requires ReplaceCells(c, t, subst, h, h')
    requires root' == if c.Top? then subst else root
    ensures RepC(c, subst, root', s, h')
  {
    hide Distinct, CDistinct, Apart, Replaced, Agree, CNodes, RepT;
    if c.In? {
      ReplaceAgree(c, t, subst, h, h');
      var ch := Replaced(c, t, subst);
      ReplaceAbove(c, t, subst);
      FrameT(c.sib, Kid(h[c.nd], !c.onLeft), s, h, h', ch);
      FrameC(c.up, c.nd, root, s, h, h', ch);
    }
  }

  lemma ReplaceRep(c: Ctx, t: Shape, subst: Node, root: Node, root': Node, s: Node, h: Heap, h': Heap)
    requires Loose(c, t, root, s, h) && subst !in CNodes(c) + Nodes(t) && subst != s
    requires ReplaceCells(c, t, subst, h, h')
    requires root' == if c.Top? then subst else root
    ensures At(c, t.(nd := subst), subst, root', s, h')
  {
    hide Distinct, CDistinct, Apart, RepT, RepC, CNodes, ReplaceCells;
    ReplaceT(c, t, subst, root, s, h, h');
    ReplaceC(c, t, subst, root, root', s, h, h');
    ReplaceApart(c, t, subst);
  }

  /** What the replacement code tests, in terms of cells. */
  ghost predicate PlaceReady(c: Ctx, t: Shape, subst: Node, root: Node, s: Node, h: Heap) {
    && t.Br? && t.nd in h && subst in h && t.nd != subst
    && (root == t.nd <==> c.Top?)
    && (c.In? ==>
      c.nd in h && c.nd != t.nd && c.nd != subst && h[t.nd].parent == c.nd && (h[c.nd].left == t.nd <==> c.onLeft))
  }

  /** The successor has the deleted node's fields, and the link above points to it. */
  ghost predicate PlaceCells(c: Ctx, t: Shape, subst: Node, h: Heap, h': Heap) {
    && t.Br? && t.nd in h && subst in h && (c.In? ==> c.nd in h) && h'.Keys == h.Keys
    && h'[subst] == h[t.nd]
    && (c.In? ==> h'[c.nd] == SetKid(h[c.nd], subst, c.onLeft))
    && forall n :: n in h && n != subst && !(c.In? && n == c.nd) ==> h'[n] == h[n]
  }

  ghost predicate AdoptCells(t: Shape, subst: Node, h: Heap, h': Heap)
    requires t.Br?
  {
    && (t.l.Br? ==> t.l.nd in h) && (t.r.Br? ==> t.r.nd in h) && h'.Keys == h.Keys
    && (t.l.Br? ==> h'[t.l.nd] == h[t.l.nd].(parent := subst))
    && (t.r.Br? ==> h'[t.r.nd] == h[t.r.nd].(parent := subst))
    && forall n :: n in h && !(t.l.Br? && n == t.l.nd) && !(t.r.Br? && n == t.r.nd) ==> h'[n] == h[n]
  }

  lemma ReplaceReady(c: Ctx, t: Shape, subst: Node, root: Node, s: Node, h: Heap)
    requires Loose(c, t, root, s, h) && subst in h && subst !in CNodes(c) + Nodes(t) && s !in CNodes(c) + Nodes(t)
    ensures PlaceReady(c, t, subst, root, s, h)
    ensures h[t.nd].left == TopOf(t.l, s) && h[t.nd].right == TopOf(t.r, s)
    ensures Tip(t.l) + Tip(t.r) <= h.Keys - {subst, s}
  {
    RootAbove(c, t.nd, root, s, h);
    assert t.l.Br? ==> t.l.nd in Nodes(t.l);
    assert t.r.Br? ==> t.r.nd in Nodes(t.r);
    if c.In? { assert c.sib.Br? ==> c.sib.nd in Nodes(c.sib); }
  }

  lemma PlacedFields(c: Ctx, t: Shape, subst: Node, h: Heap, h': Heap)
    requires PlaceCells(c, t, subst, h, h')
    ensures h'[subst] == h[t.nd]
  {
  }

  lemma ReplaceSplit(c: Ctx, t: Shape, subst: Node, root: Node, s: Node, h: Heap, h1: Heap, h2: Heap)
    requires Loose(c, t, root, s, h) && subst !in CNodes(c) + Nodes(t)
    requires PlaceCells(c, t, subst, h, h1) && AdoptCells(t, subst, h1, h2)
    ensures ReplaceCells(c, t, subst, h, h2)
  {
    assert t.l.Br? ==> t.l.nd in Nodes(t.l);
    assert t.r.Br? ==> t.r.nd in Nodes(t.r);
  }

  /** A heap that forgets a node outside the tree still represents it. */
  lemma AtWithout(c: Ctx, t: Shape, f: Node, root: Node, s: Node, h: Heap, h': Heap, n: Node)
    requires At(c, t, f, root, s, h) && Agree(h, h', {n}) && n !in CNodes(c) + Nodes(t)
    ensures At(c, t, f, root, s, h')
  {
    FrameT(t, f, s, h, h', {n});
    FrameC(c, f, root, s, h, h', {n});
  }

  /** In-order effect of deleting `nd`, whose successor `m.nd` lies at the end of the path `sp` below it. */
  lemma SuccessorOrder(c: Ctx, nd: Node, red: bool, l: Shape, sp: Ctx, m: Shape)
    requires Spine(sp) && m.Br? && m.l == Leaf
    ensures var pre, post := Pre(c) + InOrder(l), [m.nd] + (InOrder(m.r) + Post(sp) + Post(c));
      && InOrder(Fill(c, Br(l, nd, red, Fill(sp, m)))) == pre + [nd] + post
      && InOrder(Fill(c, Br(l, m.nd, red, Fill(sp, m.r)))) == pre + post
  {
    SpinePre(sp, Top);
    FillOrder(sp, m);
    FillOrder(sp, m.r);
    PlusTop(sp);
    FillOrder(c, Br(l, nd, red, Fill(sp, m)));
    FillOrder(c, Br(l, m.nd, red, Fill(sp, m.r)));
    Weave(Pre(c), InOrder(l), nd, m.nd, InOrder(m.r), Post(sp), Post(c));
  }

  lemma {:induction false} PlusTop(sp: Ctx)
    ensures Plus(sp, Top) == sp
  {
    if sp.In? { PlusTop(sp.up); }
  }

  lemma Weave(a: seq<Node>, l: seq<Node>, x: Node, y: Node, r: seq<Node>, p: seq<Node>, q: seq<Node>)
    ensures a + (l + [x] + ([] + ([] + [y] + r) + p)) + q == a + l + [x] + ([y] + (r + p + q))
    ensures a + (l + [y] + ([] + r + p)) + q == a + l + ([y] + (r + p + q))
  {
  }

  /** In-order effect of deleting a node with at most one child. */
  lemma OnlyKidOrder(c: Ctx, t: Shape, d: Shape) returns (pre: seq<Node>, post: seq<Node>)
    requires t.Br? && OnlyKid(t, d)
    ensures InOrder(Fill(c, t)) == pre + [t.nd] + post && InOrder(Fill(c, d)) == pre + post
  {
    FillOrder(c, t);
    FillOrder(c, d);
    KidWeave(Pre(c), InOrder(d), t.nd, Post(c));
    if t.l.Leaf? && t.r == d { pre, post := Pre(c), InOrder(d) + Post(c); }
    else { pre, post := Pre(c) + InOrder(d), Post(c); }
  }

  lemma KidWeave(a: seq<Node>, d: seq<Node>, x: Node, q: seq<Node>)
    ensures a + ([] + [x] + d) + q == a + [x] + (d + q)
    ensures a + (d + [x] + []) + q == a + d + [x] + q
    ensures a + d + q == a + (d + q)
  {
  }

  lemma UnlinkedAt(c: Ctx, d: Shape, root: Node, s: Node, h: Heap)
    requires Apart(c, d) && RepC(c, TopOf(d, s), root, s, h) && RepT(d, TopOf(d, s), s, h)
    requires c.In? ==> ParentIs(d, c.nd, h)
    ensures At(c, d, TopOf(d, s), root, s, h)
  {
  }

  /** After the successor is unlinked, the deleted node is loose: only its right child's parent link may be ahead. */
  lemma LooseAfter(c: Ctx, nd: Node, red: bool, l: Shape, sp: Ctx, d: Shape, root: Node, s: Node, h: Heap)
    requires var cs := Plus(sp, In(c, nd, red, l, false));
      Apart(cs, d) && RepC(cs, TopOf(d, s), root, s, h) && RepT(d, TopOf(d, s), s, h)
        && (sp.In? ==> ParentIs(d, sp.nd, h))
    ensures Loose(c, Br(l, nd, red, Fill(sp, d)), root, s, h)
  {
    var b := In(c, nd, red, l, false);
    if sp.Top? {
      LooseParent(c, nd, red, l, d, root, s, h);
    } else {
      UnlinkedAt(Plus(sp, b), d, root, s, h);
      Climb(sp, b, d, TopOf(d, s), root, s, h);
      FocusUp(b, Fill(sp, d), TopOf(Fill(sp, d), s), root, s, h);
      LooseAt(c, Br(l, nd, red, Fill(sp, d)), root, s, h);
    }
  }

  lemma FillRight(c: Ctx, nd: Node, red: bool, l: Shape, r: Shape)
    ensures Fill(In(c, nd, red, l, false), r) == Fill(c, Br(l, nd, red, r))
  {
  }

  /** Looking again at the unlinked place after the replacement. */
  lemma {:induction false} JointAt(c: Ctx, nd: Node, red: bool, l: Shape, sp: Ctx, d: Shape, root: Node, s: Node,
      h: Heap)
    requires At(c, Br(l, nd, red, Fill(sp, d)), nd, root, s, h)
    ensures At(Plus(sp, In(c, nd, red, l, false)), d, TopOf(d, s), root, s, h)
    ensures d.Br? ==> d.nd in h && h[d.nd].parent == if sp.Top? then nd else sp.nd
  {
    hide At, Fill, Plus;
    FillRight(c, nd, red, l, Fill(sp, d));
    var t := Br(l, nd, red, Fill(sp, d));
    var b := In(c, nd, red, l, false);
    CloseAt(c, t, nd, root, s, h);
    FillPlus(sp, b, d);
    OpenAt(Plus(sp, b), d, root, s, h);
    PlusTip(sp, b);
    AtParent(Plus(sp, b), d, TopOf(d, s), root, s, h);
  }

  lemma PlusTip(sp: Ctx, b: Ctx)
    requires b.In?
    ensures Plus(sp, b).In? && Plus(sp, b).nd == if sp.Top? then b.nd else sp.nd
  {
  }

  lemma AtParent(c: Ctx, t: Shape, f: Node, root: Node, s: Node, h: Heap)
    requires c.In? && At(c, t, f, root, s, h)
    ensures t.Br? ==> t.nd in h && h[t.nd].parent == c.nd
  {
  }

  lemma JointNodes(c: Ctx, nd: Node, red: bool, l: Shape, sp: Ctx, d: Shape)
    ensures CNodes(Plus(sp, In(c, nd, red, l, false))) + Nodes(d) == CNodes(c) + Nodes(l) + {nd} + Nodes(Fill(sp, d))
  {
    FillPlus(sp, In(c, nd, red, l, false), d);
    FillNodes(Plus(sp, In(c, nd, red, l, false)), d);
    FillNodes(c, Br(l, nd, red, Fill(sp, d)));
  }

  /** The right subtree loses exactly its first node. */
  lemma ThinnedNodes(sp: Ctx, m: Shape, d: Shape)
    requires m.Br? && OnlyKid(m, d) && Distinct(Fill(sp, m))
    ensures m.nd in Nodes(Fill(sp, m)) && Nodes(Fill(sp, d)) == Nodes(Fill(sp, m)) - {m.nd}
  {
    FillNodes(sp, m);
    FillNodes(sp, d);
    FillDistinct(sp, m);
    assert m.nd !in Nodes(d) && Nodes(m) == Nodes(d) + {m.nd};
  }

  /** Which nodes there are around the joint, before and after the replacement. */
  lemma SpliceSets(c: Ctx, t: Shape, sp: Ctx, m: Shape, d: Shape)
    requires t.Br? && t.r == Fill(sp, m) && m.Br? && OnlyKid(m, d) && Apart(c, t)
    ensures m.nd in Nodes(t) && m.nd != t.nd
    ensures CNodes(c) + Nodes(Br(t.l, t.nd, t.red, Fill(sp, d))) == CNodes(c) + Nodes(t) - {m.nd}
    ensures CNodes(Plus(sp, In(c, m.nd, t.red, t.l, false))) + Nodes(d) == CNodes(c) + Nodes(t) - {t.nd}
  {
    hide Plus, CNodes;
    ThinnedNodes(sp, m, d);
    JointNodes(c, m.nd, t.red, t.l, sp, d);
    SetSplice(CNodes(c), Nodes(t.l), t.nd, Nodes(t.r), m.nd);
  }

  lemma SetSplice(c: set<Node>, l: set<Node>, x: Node, r: set<Node>, y: Node)
    requires y in r && y !in c && y !in l && x !in c + l + r
    ensures c + (l + {x} + (r - {y})) == c + (l + {x} + r) - {y}
    ensures c + l + {y} + (r - {y}) == c + (l + {x} + r) - {x}
  {
  }

  /** A node further down the path is not the node where the path starts. */
  lemma PathNode(sp: Ctx, b: Ctx, t: Shape, f: Node, root: Node, s: Node, h: Heap)
    requires sp.In? && b.In? && At(Plus(sp, b), t, f, root, s, h)
    ensures sp.nd != b.nd
  {
    PlusNodes(sp.up, b);
  }

  lemma {:induction false} PlusNodes(sp: Ctx, b: Ctx)
    ensures CNodes(Plus(sp, b)) == CNodes(sp) + CNodes(b)
  {
    if sp.In? { PlusNodes(sp.up, b); }
  }
}
