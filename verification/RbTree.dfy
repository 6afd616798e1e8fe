/** The red-black tree of Rbtree/ngx_rbtree.c on node objects. */
module RbTree {
  import opened RbShape
  import opened RbHeap
  import opened RbFixup
  import opened RbDelete
  import opened RbDelFix
  import opened RbOrder

  // ---------- the descent of the insertion routines ----------

  /** `node` may go to the position `c`, as far as the part of `whole` passed on the way tells. */
  ghost predicate GoesTo(ord: Order, ks: KeyMap, node: Node, c: Ctx, t: Shape, whole: Shape) {
    Coherent(ord, ks) && Sorted(ord, ks, InOrder(whole)) ==>
      Fits(ord, ks, node, Pre(c), Post(c)) && Sorted(ord, ks, InOrder(t))
  }

  lemma {:induction false} OrderNodes(t: Shape)
    ensures forall i :: 0 <= i < |InOrder(t)| ==> InOrder(t)[i] in Nodes(t)
    ensures forall n :: n in Nodes(t) ==> n in InOrder(t)
  {
    if t.Br? { OrderNodes(t.l); OrderNodes(t.r); }
  }

  lemma {:induction false} OrderKeyed(t: Shape, ks: KeyMap)
    requires Nodes(t) <= ks.Keys
    ensures Keyed(ks, InOrder(t))
  {
    if t.Br? { OrderKeyed(t.l, ks); OrderKeyed(t.r, ks); }
  }

  lemma GoesDown(ord: Order, ks: KeyMap, node: Node, c: Ctx, t: Shape, whole: Shape)
    requires t.Br? && Fill(c, t) == whole && GoesTo(ord, ks, node, c, t, whole)
    requires ks.Keys == Nodes(whole) + {node}
    ensures var left := Before(ord, ks, node, t.nd); GoesTo(ord, ks, node, DownC(c, t, left), Near(t, left), whole)
  {
    if Coherent(ord, ks) && Sorted(ord, ks, InOrder(whole)) {
      FillNodes(c, t);
      assert Nodes(t) <= ks.Keys;
      OrderKeyed(t.l, ks);
      OrderKeyed(t.r, ks);
      FitsStep(ord, ks, node, t.nd, InOrder(t.l), InOrder(t.r), Pre(c), Post(c));
    }
  }

  /** Whether a tree is sorted does not depend on the keys of other nodes. */
  lemma SortedIn(ord: Order, ks: KeyMap, ks': KeyMap, t: Shape)
    requires Nodes(t) <= ks.Keys <= ks'.Keys && forall n :: n in ks ==> ks'[n] == ks[n]
    ensures Sorted(ord, ks, InOrder(t)) <==> Sorted(ord, ks', InOrder(t))
  {
    OrderKeyed(t, ks);
    var q := InOrder(t);
    forall i, j | 0 <= i < j < |q| ensures Before(ord, ks, q[j], q[i]) <==> Before(ord, ks', q[j], q[i]) {
      assert q[i] in ks && q[j] in ks;
    }
  }

  lemma Start(ord: Order, ks: KeyMap, node: Node, whole: Shape)
    ensures GoesTo(ord, ks, node, Top, whole, whole)
  {
  }

  /** The child the code steps to: the sentinel exactly where the shape has a leaf. */
  ghost predicate Steps(c: Ctx, t: Shape, left: bool, root: Node, s: Node, h: Heap)
    requires t.Br? && t.nd in h
  {
    var c', n, p := DownC(c, t, left), Near(t, left), Kid(h[t.nd], left);
    && c'.In? && c'.nd == t.nd && c'.onLeft == left && Fill(c', n) == Fill(c, t) && (t decreases to n)
    && (n.Leaf? ==> p == s && Apart(c', Leaf) && RepC(c', s, root, s, h))
    && (n.Br? ==> p == n.nd && p != s && At(c', n, n.nd, root, s, h))
  }

  lemma StepDown(c: Ctx, t: Shape, temp: Node, root: Node, s: Node, whole: Shape, h: Heap)
    requires t.Br? && At(c, t, temp, root, s, h) && Fill(c, t) == whole && s !in Nodes(whole)
    ensures temp in h && temp == t.nd && temp in Nodes(whole)
    ensures Steps(c, t, true, root, s, h) && Steps(c, t, false, root, s, h)
  {
    FillNodes(c, t);
    StepOne(c, t, true, temp, root, s, h);
    StepOne(c, t, false, temp, root, s, h);
  }

  lemma StepOne(c: Ctx, t: Shape, left: bool, temp: Node, root: Node, s: Node, h: Heap)
    requires t.Br? && At(c, t, temp, root, s, h) && s !in Nodes(t)
    ensures temp in h && Steps(c, t, left, root, s, h)
  {
    var n := Near(t, left);
    ApartUp(DownC(c, t, left), n);
    assert RepT(n, Kid(h[t.nd], left), s, h);
    if n.Br? { FocusDown(c, t, left, temp, root, s, h); }
  }

  /** The cells after a new red node is hung at a free position. */
  ghost predicate LeafCells(c: Ctx, node: Node, s: Node, h: Heap, h': Heap) {
    && c.In? && c.nd in h && c.nd in h' && node in h' && Agree(h, h', {c.nd})
    && h'[c.nd] == SetKid(h[c.nd], node, c.onLeft)
    && h'[node] == Cell(s, s, c.nd, true)
  }

  lemma AddLeaf(c: Ctx, node: Node, root: Node, s: Node, h: Heap, h': Heap)
    requires Apart(c, Leaf) && RepC(c, s, root, s, h) && node !in CNodes(c) && node != s
    requires LeafCells(c, node, s, h, h')
    ensures At(c, Br(Leaf, node, true, Leaf), node, root, s, h')
  {
    FrameT(c.sib, Kid(h[c.nd], !c.onLeft), s, h, h', {c.nd});
    FrameC(c.up, c.nd, root, s, h, h', {c.nd});
  }

  /** The common end of the insertion routines: the free position takes the node, which becomes a red leaf. */
  method Hang(temp: Node, left: bool, root: Node, node: Node, sentinel: Node, ghost c: Ctx, ghost t0: Shape)
    requires Fill(c, Leaf) == t0 && c.In? && c.nd == temp && c.onLeft == left
    requires Apart(c, Leaf) && RepC(c, sentinel, root, sentinel, Snap(Nodes(t0)))
    requires node !in Nodes(t0) && node != sentinel
    modifies Nodes(t0)`left, Nodes(t0)`right, node`left, node`right, node`parent, node`red
    ensures At(c, Br(Leaf, node, true, Leaf), node, root, sentinel, Snap(Nodes(t0) + {node}))
  {
    hide At, RepT, RepC, Apart;
    ghost var h := Snap(Nodes(t0));
    FillNodes(c, Leaf);
    if left { temp.left := node; } else { temp.right := node; }
    node.parent := temp;
    node.left := sentinel;
    node.right := sentinel;
    node.red := true;
    AddLeaf(c, node, root, sentinel, h, Snap(Nodes(t0) + {node}));
  }

  /** ngx_rbtree_insert_value. */
  method InsertValue(root: Node, node: Node, sentinel: Node, ghost t0: Shape) returns (ghost c: Ctx)
    requires t0.Br? && At(Top, t0, root, root, sentinel, Snap(Nodes(t0)))
    requires sentinel !in Nodes(t0) && node !in Nodes(t0) && node != sentinel
    modifies Nodes(t0)`left, Nodes(t0)`right, node`left, node`right, node`parent, node`red
    ensures Fill(c, Leaf) == t0 && GoesTo(Plain, Keys(Nodes(t0) + {node}), node, c, Leaf, t0)
    ensures At(c, Br(Leaf, node, true, Leaf), node, root, sentinel, Snap(Nodes(t0) + {node}))
  {
    hide At, RepT, RepC, Apart, GoesTo, CNodes, DownC, Near;
    var temp: Node := root;
    c := Top;
    ghost var t, h, ks := t0, Snap(Nodes(t0)), Keys(Nodes(t0) + {node});
    Start(Plain, ks, node, t0);
    while true
      invariant t.Br? && Fill(c, t) == t0 && At(c, t, temp, root, sentinel, h) && GoesTo(Plain, ks, node, c, t, t0)
      invariant h == Snap(Nodes(t0)) && ks == Keys(Nodes(t0) + {node})
      decreases t
    {
      StepDown(c, t, temp, root, sentinel, t0, h);
      GoesDown(Plain, ks, node, c, t, t0);
      var left := node.key < temp.key;
      ghost var c0, t1 := c, t;
      c, t := DownC(c0, t1, left), Near(t1, left);
      if (if left then temp.left else temp.right) == sentinel {
        Hang(temp, left, root, node, sentinel, c, t0);
        return;
      }
      temp := if left then temp.left else temp.right;
    }
  }

  /** ngx_rbtree_insert_timer_value. */
  method InsertTimerValue(root: Node, node: Node, sentinel: Node, ghost t0: Shape) returns (ghost c: Ctx)
    requires t0.Br? && At(Top, t0, root, root, sentinel, Snap(Nodes(t0)))
    requires sentinel !in Nodes(t0) && node !in Nodes(t0) && node != sentinel
    modifies Nodes(t0)`left, Nodes(t0)`right, node`left, node`right, node`parent, node`red
    ensures Fill(c, Leaf) == t0 && GoesTo(Timer, Keys(Nodes(t0) + {node}), node, c, Leaf, t0)
    ensures At(c, Br(Leaf, node, true, Leaf), node, root, sentinel, Snap(Nodes(t0) + {node}))
  {
    hide At, RepT, RepC, Apart, GoesTo, CNodes, DownC, Near;
    var temp: Node := root;
    c := Top;
    ghost var t, h, ks := t0, Snap(Nodes(t0)), Keys(Nodes(t0) + {node});
    Start(Timer, ks, node, t0);
    while true
      invariant t.Br? && Fill(c, t) == t0 && At(c, t, temp, root, sentinel, h) && GoesTo(Timer, ks, node, c, t, t0)
      invariant h == Snap(Nodes(t0)) && ks == Keys(Nodes(t0) + {node})
      decreases t
    {
      StepDown(c, t, temp, root, sentinel, t0, h);
      GoesDown(Timer, ks, node, c, t, t0);
      var left := TimerLess(node.key, temp.key);
      ghost var c0, t1 := c, t;
      c, t := DownC(c0, t1, left), Near(t1, left);
      if (if left then temp.left else temp.right) == sentinel {
        Hang(temp, left, root, node, sentinel, c, t0);
        return;
      }
      temp := if left then temp.left else temp.right;
    }
  }

  /** ngx_resolver_rbtree_insert_value. */
  method InsertResolverValue(root: Node, node: Node, sentinel: Node, ghost t0: Shape) returns (ghost c: Ctx)
    requires t0.Br? && At(Top, t0, root, root, sentinel, Snap(Nodes(t0)))
    requires sentinel !in Nodes(t0) && node !in Nodes(t0) && node != sentinel
    modifies Nodes(t0)`left, Nodes(t0)`right, node`left, node`right, node`parent, node`red
    ensures Fill(c, Leaf) == t0 && GoesTo(Resolver, Keys(Nodes(t0) + {node}), node, c, Leaf, t0)
    ensures At(c, Br(Leaf, node, true, Leaf), node, root, sentinel, Snap(Nodes(t0) + {node}))
  {
    hide At, RepT, RepC, Apart, GoesTo, CNodes, DownC, Near;
    var temp: Node := root;
    c := Top;
    ghost var t, h, ks := t0, Snap(Nodes(t0)), Keys(Nodes(t0) + {node});
    Start(Resolver, ks, node, t0);
    while true
      invariant t.Br? && Fill(c, t) == t0 && At(c, t, temp, root, sentinel, h) && GoesTo(Resolver, ks, node, c, t, t0)
      invariant h == Snap(Nodes(t0)) && ks == Keys(Nodes(t0) + {node})
      decreases t
    {
      StepDown(c, t, temp, root, sentinel, t0, h);
      GoesDown(Resolver, ks, node, c, t, t0);
      var left;
      if node.key < temp.key {
        left := true;
      } else if node.key > temp.key {
        left := false;
      } else {
        left := Memn2Cmp(node.name, temp.name) < 0;
      }
      ghost var c0, t1 := c, t;
      c, t := DownC(c0, t1, left), Near(t1, left);
      if (if left then temp.left else temp.right) == sentinel {
        Hang(temp, left, root, node, sentinel, c, t0);
        return;
      }
      temp := if left then temp.left else temp.right;
    }
  }

  // ---------- the insertion loop as a whole ----------

  lemma {:induction false} FocusTop(c: Ctx, t: Shape, f: Node, root: Node, s: Node, h: Heap)
    requires t.Br? && At(c, t, f, root, s, h)
    ensures Fill(c, t).Br? && At(Top, Fill(c, t), root, root, s, h)
  {
    if c.In? {
      FocusUp(c, t, f, root, s, h);
      FocusTop(c.up, Up(c, t), c.nd, root, s, h);
    }
  }

  /** When the loop stops, painting the root black is all that is left to do. */
  lemma InsDone(c: Ctx, t: Shape, hh: int)
    requires InsInv(c, t, hh) && (c.Top? || !c.red)
    ensures Fill(c, t).Br? && RedBlack(Fill(c, t).(red := false))
  {
    if c.Top? {
      BHUnique(t.(red := false), hh + 1);
    } else {
      assert CtxRB(c, hh, true);
      FillRB(c, t, hh);
      FillBr(c, t);
    }
  }

  /** A new red leaf in a red-black tree satisfies the invariant of the insertion loop. */
  lemma InsStart(c: Ctx, node: Node) returns (hh: int)
    requires RedBlack(Fill(c, Leaf))
    ensures InsInv(c, Br(Leaf, node, true, Leaf), hh)
  {
    hh := OpenRB(c, Leaf);
  }

  /** ngx_rbtree_min, below the position `c0` whose tree is `t0`. */
  method Min(node0: Node, sentinel: Node, ghost c0: Ctx, ghost t0: Shape, ghost root: Node, ghost ns: set<Node>)
    returns (node: Node, ghost sp: Ctx, ghost m: Shape)
    requires t0.Br? && At(c0, t0, node0, root, sentinel, Snap(ns)) && sentinel !in Nodes(t0)
    ensures Spine(sp) && Fill(sp, m) == t0 && m.Br? && m.l == Leaf && m.nd == node
    ensures At(Plus(sp, c0), m, node, root, sentinel, Snap(ns))
  {
    hide At, Nodes;
    node, sp, m := node0, Top, t0;
    AtNode(c0, t0, node0, root, sentinel, Snap(ns));
    ghost var c := c0;
    while node.left != sentinel
      invariant Spine(sp) && Fill(sp, m) == t0 && m.Br? && m.nd == node && c == Plus(sp, c0)
      invariant At(c, m, node, root, sentinel, Snap(ns))
      decreases m
    {
      LookDown(c, m, true, root, sentinel, Snap(ns));
      node := node.left;
      c, sp, m := DownC(c, m, true), DownC(sp, m, true), m.l;
    }
    LookDown(c, m, true, root, sentinel, Snap(ns));
    NotSentinel(DownC(c, m, true), m.l, root, sentinel, Snap(ns));
  }

  lemma AtNode(c: Ctx, t: Shape, f: Node, root: Node, s: Node, h: Heap)
    requires t.Br? && At(c, t, f, root, s, h)
    ensures f == t.nd && f in h
  {
  }

  lemma NotSentinel(c: Ctx, t: Shape, root: Node, s: Node, h: Heap)
    requires At(c, t, TopOf(t, s), root, s, h)
    ensures TopOf(t, s) == s ==> t.Leaf?
  {
  }

  lemma SubstIsOther(c: Ctx, t: Shape, sp: Ctx, m: Shape, root: Node, s: Node, h: Heap)
    requires t.Br? && t.r == Fill(sp, m) && m.Br? && At(c, t, t.nd, root, s, h)
    ensures m.nd != t.nd
  {
    FillNodes(sp, m);
    assert m.nd in Nodes(t.r);
  }

  lemma UpTopDistinct(c: Ctx, t: Shape, f: Node, root: Node, s: Node, h: Heap)
    requires At(c, t, f, root, s, h)
    ensures Distinct(t)
  {
  }

  ghost function Blackened(t: Shape): Shape { if t.Br? then t.(red := false) else t }

  lemma BlackenedEquiv(t: Shape)
    ensures Equiv(Blackened(t), t)
  {
  }

  /** When the deletion loop stops, painting `temp` black is all that is left to do. */
  lemma DelDone(c: Ctx, t: Shape, hh: int)
    requires DelInv(c, t, hh) && (c.Top? || IsRed(t))
    ensures RedBlack(Fill(c, Blackened(t)))
  {
    if IsRed(t) { FillRB(c, Blackened(t), hh); }
    else { BHUnique(t, hh - 1); }
  }

  class Tree {
    var root: Node
    const sentinel: Node
    const order: Order
    ghost var shape: Shape

    /** A red-black tree hanging below `root`; the sentinel is black and outside. */
    ghost predicate Valid()
      reads this, sentinel, Nodes(shape)
    {
      && !sentinel.red && sentinel !in Nodes(shape)
      && At(Top, shape, root, root, sentinel, Snap(Nodes(shape)))
      && RedBlack(shape)
    }

    ghost function NodeKeys(): KeyMap
      reads this, Nodes(shape)`key
    {
      Keys(Nodes(shape))
    }

    /** In-order keys are non-decreasing. */
    ghost predicate IsSorted()
      reads this, Nodes(shape)`key
    {
      Sorted(order, NodeKeys(), InOrder(shape))
    }

    /** ngx_rbtree_init. */
    constructor (s: Node, order: Order)
      modifies s`red
      ensures Valid() && shape == Leaf && sentinel == s && this.order == order
    {
      root, sentinel, shape := s, s, Leaf;
      this.order := order;
      new;
      s.red := false;
    }

    /** Whatever led to `node` now leads to `temp`. The left rotation looks at the left side first, */
    method LinkLeft(node: Node, temp: Node, ghost c: Ctx, ghost ns: set<Node>)
      requires node in ns && temp in ns && node != temp && (root == node <==> c.Top?)
      requires c.In? ==> c.nd in ns && c.nd != temp && node.parent == c.nd && (c.nd.left == node <==> c.onLeft)
      modifies this`root, ns`left, ns`right, temp`parent
      ensures root == if c.Top? then temp else old(root)
      ensures Snap(ns) == Linked(c, node, temp, old(Snap(ns)))
    {
      temp.parent := node.parent;
      if node == root {
        root := temp;
      } else if node == node.parent.left {
        node.parent.left := temp;
      } else {
        node.parent.right := temp;
      }
    }

    /** and the right rotation at the right side. */
    method LinkRight(node: Node, temp: Node, ghost c: Ctx, ghost ns: set<Node>)
      requires node in ns && temp in ns && node != temp && (root == node <==> c.Top?)
      requires c.In? ==> c.nd in ns && c.nd != temp && node.parent == c.nd && (c.nd.right == node <==> !c.onLeft)
      modifies this`root, ns`left, ns`right, temp`parent
      ensures root == if c.Top? then temp else old(root)
      ensures Snap(ns) == Linked(c, node, temp, old(Snap(ns)))
    {
      temp.parent := node.parent;
      if node == root {
        root := temp;
      } else if node == node.parent.right {
        node.parent.right := temp;
      } else {
        node.parent.left := temp;
      }
    }

    /** In the left rotation: `temp` gives its left child to `node`, */
    method GiveLeft(node: Node, temp: Node, ghost t: Shape, ghost ns: set<Node>)
      requires t.Br? && Far(t, true).Br? && t.nd == node != temp == Far(t, true).nd && node in ns && temp in ns
      requires var b := Near(Far(t, true), true); temp.left == (if b.Br? then b.nd else sentinel)
      requires var b := Near(Far(t, true), true); b.Br? ==> b.nd in ns && b.nd != sentinel && b.nd != node
      modifies ns`right, ns`parent
      ensures Snap(ns) == NearMoved(t, true, old(Snap(ns)))
    {
      node.right := temp.left;
      if temp.left != sentinel {
        temp.left.parent := node;
      }
    }

    /** and in the end becomes its parent. */
    method HookLeft(node: Node, temp: Node, ghost t: Shape, ghost ns: set<Node>)
      requires t.Br? && Far(t, true).Br? && t.nd == node != temp == Far(t, true).nd && node in ns && temp in ns
      modifies temp`left, node`parent
      ensures Snap(ns) == Hooked(t, true, old(Snap(ns)))
    {
      temp.left := node;
      node.parent := temp;
    }

    /** ngx_rbtree_left_rotate, at the position `c` whose tree is `t`. */
    method LeftRotate(node: Node, ghost c: Ctx, ghost t: Shape, ghost ns: set<Node>)
      requires t.Br? && t.r.Br? && t.nd == node && At(c, t, node, root, sentinel, Snap(ns))
      modifies this`root, ns`left, ns`right, ns`parent
      ensures At(c, Rot(t, true), t.r.nd, root, sentinel, Snap(ns))
    {
      hide At, RepT, RepC, Nodes, CNodes, RotCells, NearMoved, Linked, Hooked;
      ghost var h := Snap(ns);
      RotReadyAt(c, t, true, root, sentinel, h);
      RotSteps(c, t, true, root, sentinel, h);
      var temp := node.right;
      GiveLeft(node, temp, t, ns);
      LinkLeft(node, temp, c, ns);
      HookLeft(node, temp, t, ns);
      RotRep(c, t, true, old(root), root, sentinel, h, Snap(ns));
    }

    /** In the right rotation: `temp` gives its right child to `node`, */
    method GiveRight(node: Node, temp: Node, ghost t: Shape, ghost ns: set<Node>)
      requires t.Br? && Far(t, false).Br? && t.nd == node != temp == Far(t, false).nd && node in ns && temp in ns
      requires var b := Near(Far(t, false), false); temp.right == (if b.Br? then b.nd else sentinel)
      requires var b := Near(Far(t, false), false); b.Br? ==> b.nd in ns && b.nd != sentinel && b.nd != node
      modifies ns`left, ns`parent
      ensures Snap(ns) == NearMoved(t, false, old(Snap(ns)))
    {
      node.left := temp.right;
      if temp.right != sentinel {
        temp.right.parent := node;
      }
    }

    /** and in the end becomes its parent. */
    method HookRight(node: Node, temp: Node, ghost t: Shape, ghost ns: set<Node>)
      requires t.Br? && Far(t, false).Br? && t.nd == node != temp == Far(t, false).nd && node in ns && temp in ns
      modifies temp`right, node`parent
      ensures Snap(ns) == Hooked(t, false, old(Snap(ns)))
    {
      temp.right := node;
      node.parent := temp;
    }

    /** ngx_rbtree_right_rotate, at the position `c` whose tree is `t`. */
    method RightRotate(node: Node, ghost c: Ctx, ghost t: Shape, ghost ns: set<Node>)
      requires t.Br? && t.l.Br? && t.nd == node && At(c, t, node, root, sentinel, Snap(ns))
      modifies this`root, ns`left, ns`right, ns`parent
      ensures At(c, Rot(t, false), t.l.nd, root, sentinel, Snap(ns))
    {
      hide At, RepT, RepC, Nodes, CNodes, RotCells, NearMoved, Linked, Hooked;
      ghost var h := Snap(ns);
      RotReadyAt(c, t, false, root, sentinel, h);
      RotSteps(c, t, false, root, sentinel, h);
      var temp := node.left;
      GiveRight(node, temp, t, ns);
      LinkRight(node, temp, c, ns);
      HookRight(node, temp, t, ns);
      RotRep(c, t, false, old(root), root, sentinel, h, Snap(ns));
    }

    /** ngx_rbt_red and ngx_rbt_black, for a node below the position `c`. */
    method Paint(n: Node, red: bool, ghost c: Ctx, ghost t: Shape, ghost f: Node, ghost ns: set<Node>)
      requires n in Nodes(t) && n in ns && At(c, t, f, root, sentinel, Snap(ns))
      modifies n`red
      ensures At(c, Painted(t, n, red), f, root, sentinel, Snap(ns))
    {
      ghost var h := Snap(ns);
      n.red := red;
      PaintAt(c, t, n, red, f, root, sentinel, h, Snap(ns));
    }

    /** The case of a red uncle `temp`. */
    method InsertRecolour(node0: Node, temp: Node, ghost c: Ctx, ghost t: Shape, ghost ns: set<Node>)
      returns (node: Node)
      requires c.In? && c.up.In? && c.up.sib.Br? && temp == c.up.sib.nd && t.Br?
      requires CNodes(c) + Nodes(t) <= ns && At(c, t, node0, root, sentinel, Snap(ns))
      modifies ns`red
      ensures node == c.up.nd && At(c.up.up, Recoloured(c, t), node, root, sentinel, Snap(ns))
    {
      hide At, RepT, RepC, Painted, Distinct, Nodes, CNodes, Grand, Recoloured;
      ghost var g := Grand(c, t);
      GrandLinks(c, t, node0, root, sentinel, Snap(ns));
      GrandHas(c, t);
      RecolouredIs(c, t);
      Paint(node0.parent, false, c.up.up, g, c.up.nd, ns);
      ghost var g1 := Painted(g, c.nd, false);
      PaintedSame(g, c.nd, false);
      Paint(temp, false, c.up.up, g1, c.up.nd, ns);
      PaintedSame(g1, temp, false);
      Paint(node0.parent.parent, true, c.up.up, Painted(g1, temp, false), c.up.nd, ns);
      node := node0.parent.parent;
    }

    /** Parent black, grandparent red, before the final rotation. */
    method InsertHang(node: Node, ghost c: Ctx, ghost t: Shape, ghost ns: set<Node>)
      requires c.In? && c.up.In? && t.Br?
      requires CNodes(c) + Nodes(t) <= ns && At(c, t, node, root, sentinel, Snap(ns))
      modifies ns`red
      ensures At(c.up.up, Hung(c, t), c.up.nd, root, sentinel, Snap(ns))
    {
      hide At, RepT, RepC, Painted, Distinct;
      ghost var g := Grand(c, t);
      GrandLinks(c, t, node, root, sentinel, Snap(ns));
      HungIs(c, t);
      Paint(node.parent, false, c.up.up, g, c.up.nd, ns);
      PaintedSame(g, c.nd, false);
      Paint(node.parent.parent, true, c.up.up, Painted(g, c.nd, false), c.up.nd, ns);
    }

    /** What the loop body reads around `node`. */
    lemma Around(node: Node, c: Ctx, t: Shape, hh: int, whole: Shape, ns: set<Node>)
      requires InsAt(c, t, hh, whole, node, root, sentinel, ns, Snap(ns)) && c.In? && c.red
      ensures t.Br? && t.nd == node && At(c, t, node, root, sentinel, Snap(ns)) && CNodes(c) + Nodes(t) <= ns
      ensures c.up.In? && node.parent == c.nd && c.nd.parent == c.up.nd && {node, c.nd, c.up.nd} <= ns
      ensures (c.nd.left == node <==> c.onLeft) && (c.nd.right == node <==> !c.onLeft)
      ensures c.up.nd.left == c.nd <==> c.up.onLeft
      ensures (if c.up.onLeft then c.up.nd.right else c.up.nd.left) == (if c.up.sib.Br? then c.up.sib.nd else sentinel)
      ensures c.up.sib.Br? ==> c.up.sib.nd.red == c.up.sib.red
      ensures At(c.up, Up(c, t), c.nd, root, sentinel, Snap(ns))
    {
      hide At, RepT, RepC, Distinct, Equiv;
      InsRecolour(c, t, hh);
      GrandLinks(c, t, node, root, sentinel, Snap(ns));
      FocusUp(c, t, node, root, sentinel, Snap(ns));
    }

    /** One turn of the insertion loop when the parent is a left child. */
    method InsertLeft(node0: Node, ghost c: Ctx, ghost t: Shape, ghost hh: int, ghost whole: Shape, ghost ns: set<Node>)
      returns (node: Node, ghost c': Ctx, ghost t': Shape, ghost hh': int)
      requires InsAt(c, t, hh, whole, node0, root, sentinel, ns, Snap(ns)) && !sentinel.red
      requires c.In? && c.red && c.up.In? && c.up.onLeft == true
      modifies this`root, ns`left, ns`right, ns`parent, ns`red
      ensures InsAt(c', t', hh', whole, node, root, sentinel, ns, Snap(ns)) && Depth(c') < Depth(c)
    {
      hide At, Distinct, Equiv, Rot, Hung, Recoloured, InsAt, InsInv, Nodes, CNodes, Snap;
      Around(node0, c, t, hh, whole, ns);
      node, c', t', hh' := node0, c, t, hh;
      var temp := node.parent.parent.right;
      if temp.red {
        ghost var h := Snap(ns);
        node := InsertRecolour(node, temp, c, t, ns);
        InsAtRecoloured(c, t, hh, whole, node0, root, sentinel, ns, h, Snap(ns));
        c', t', hh' := c.up.up, Recoloured(c, t), hh + 1;
      } else {
        if node == node.parent.right {
          ghost var h, root0 := Snap(ns), root;
          node := node.parent;
          LeftRotate(node, c.up, Up(c, t), ns);
          InsAtInner(c, t, hh, whole, node0, root0, root, sentinel, ns, h, Snap(ns));
          ghost var p := Rot(Up(c, t), true);
          c', t' := DownC(c.up, p, true), Near(p, true);
        }
        ghost var h, root0 := Snap(ns), root;
        Around(node, c', t', hh, whole, ns);
        InsertHang(node, c', t', ns);
        RightRotate(node.parent.parent, c'.up.up, Hung(c', t'), ns);
        InsAtOuter(c', t', hh, whole, node, root0, root, sentinel, ns, h, Snap(ns));
        c' := DownC(c'.up.up, Rot(Hung(c', t'), false), true);
      }
    }

    /** One turn of the insertion loop when the parent is a right child. */
    method InsertRight(node0: Node, ghost c: Ctx, ghost t: Shape, ghost hh: int, ghost whole: Shape,
        ghost ns: set<Node>)
      returns (node: Node, ghost c': Ctx, ghost t': Shape, ghost hh': int)
      requires InsAt(c, t, hh, whole, node0, root, sentinel, ns, Snap(ns)) && !sentinel.red
      requires c.In? && c.red && c.up.In? && c.up.onLeft == false
      modifies this`root, ns`left, ns`right, ns`parent, ns`red
      ensures InsAt(c', t', hh', whole, node, root, sentinel, ns, Snap(ns)) && Depth(c') < Depth(c)
    {
      hide At, Distinct, Equiv, Rot, Hung, Recoloured, InsAt, InsInv, Nodes, CNodes, Snap;
      Around(node0, c, t, hh, whole, ns);
      node, c', t', hh' := node0, c, t, hh;
      var temp := node.parent.parent.left;
      if temp.red {
        ghost var h := Snap(ns);
        node := InsertRecolour(node, temp, c, t, ns);
        InsAtRecoloured(c, t, hh, whole, node0, root, sentinel, ns, h, Snap(ns));
        c', t', hh' := c.up.up, Recoloured(c, t), hh + 1;
      } else {
        if node == node.parent.left {
          ghost var h, root0 := Snap(ns), root;
          node := node.parent;
          RightRotate(node, c.up, Up(c, t), ns);
          InsAtInner(c, t, hh, whole, node0, root0, root, sentinel, ns, h, Snap(ns));
          ghost var p := Rot(Up(c, t), false);
          c', t' := DownC(c.up, p, false), Near(p, false);
        }
        ghost var h, root0 := Snap(ns), root;
        Around(node, c', t', hh, whole, ns);
        InsertHang(node, c', t', ns);
        LeftRotate(node.parent.parent, c'.up.up, Hung(c', t'), ns);
        InsAtOuter(c', t', hh, whole, node, root0, root, sentinel, ns, h, Snap(ns));
        c' := DownC(c'.up.up, Rot(Hung(c', t'), true), false);
      }
    }

    /** What the loop guard reads. */
    lemma Guard(node: Node, c: Ctx, t: Shape, hh: int, whole: Shape, ns: set<Node>)
      requires InsAt(c, t, hh, whole, node, root, sentinel, ns, Snap(ns))
      ensures node == root <==> c.Top?
      ensures c.In? ==> node.parent == c.nd && c.nd.red == c.red && (c.red ==> c.up.In?)
    {
      RootAbove(c, node, root, sentinel, Snap(ns));
      if c.In? && c.red { InsRecolour(c, t, hh); }
    }

    /** The re-balancing loop of ngx_rbtree_insert and the final `ngx_rbt_black(*root)`. */
    method InsertFixup(node0: Node, ghost c0: Ctx, ghost t0: Shape, ghost hh0: int, ghost whole: Shape,
        ghost ns: set<Node>)
      requires InsAt(c0, t0, hh0, whole, node0, root, sentinel, ns, Snap(ns)) && !sentinel.red && sentinel !in ns
      modifies this`root, this`shape, ns`left, ns`right, ns`parent, ns`red
      ensures Valid() && Nodes(shape) == ns && InOrder(shape) == InOrder(whole)
    {
      hide InsAt, At, Equiv, RedBlack, Distinct, InsInv, Painted, Nodes, CNodes, InOrder;
      var node := node0;
      ghost var c, t, hh := c0, t0, hh0;
      Guard(node, c, t, hh, whole, ns);
      while node != root && node.parent.red
        invariant InsAt(c, t, hh, whole, node, root, sentinel, ns, Snap(ns)) && !sentinel.red
        invariant node == root <==> c.Top?
        invariant c.In? ==> node.parent == c.nd && c.nd.red == c.red && (c.red ==> c.up.In?)
        decreases Depth(c)
      {
        Around(node, c, t, hh, whole, ns);
        if node.parent == node.parent.parent.left {
          node, c, t, hh := InsertLeft(node, c, t, hh, whole, ns);
        } else {
          node, c, t, hh := InsertRight(node, c, t, hh, whole, ns);
        }
        Guard(node, c, t, hh, whole, ns);
      }
      BlackRoot(node, c, t, hh, whole, ns);
    }

    /** The end of ngx_rbtree_insert: the root is painted black. */
    method BlackRoot(node: Node, ghost c: Ctx, ghost t: Shape, ghost hh: int, ghost whole: Shape, ghost ns: set<Node>)
      requires InsAt(c, t, hh, whole, node, root, sentinel, ns, Snap(ns)) && (c.Top? || !c.red)
      requires !sentinel.red && sentinel !in ns
      modifies this`shape, ns`red
      ensures Valid() && Nodes(shape) == ns && InOrder(shape) == InOrder(whole)
    {
      hide InsAt, At, RedBlack, Painted, InOrder;
      Finish(node, c, t, hh, whole, ns);
      shape := Fill(c, t);
      Paint(root, false, Top, shape, root, ns);
      shape := shape.(red := false);
    }

    lemma Finish(node: Node, c: Ctx, t: Shape, hh: int, whole: Shape, ns: set<Node>)
      requires InsAt(c, t, hh, whole, node, root, sentinel, ns, Snap(ns)) && (c.Top? || !c.red)
      ensures Fill(c, t).Br? && Fill(c, t).nd == root && root in Nodes(Fill(c, t)) && Nodes(Fill(c, t)) == ns
      ensures At(Top, Fill(c, t), root, root, sentinel, Snap(ns))
      ensures Painted(Fill(c, t), root, false) == Fill(c, t).(red := false) && RedBlack(Fill(c, t).(red := false))
      ensures Nodes(Fill(c, t).(red := false)) == ns && InOrder(Fill(c, t).(red := false)) == InOrder(whole)
    {
      InsDone(c, t, hh);
      FocusTop(c, t, node, root, sentinel, Snap(ns));
      FillNodes(c, t);
      PaintTop(Fill(c, t), false);
    }

    /** ngx_rbtree_insert. The new node goes between `pre` and `post`; in a sorted tree that is
        right after every node it may follow, so that equal keys keep their insertion order. */
    method Insert(node: Node) returns (ghost pre: seq<Node>, ghost post: seq<Node>)
      requires Valid() && node !in Nodes(shape) && node != sentinel
      modifies this`root, this`shape, Nodes(shape)`left, Nodes(shape)`right, Nodes(shape)`parent, Nodes(shape)`red
      modifies node`left, node`right, node`parent, node`red
      ensures Valid() && Nodes(shape) == old(Nodes(shape)) + {node}
      ensures old(InOrder(shape)) == pre + post && InOrder(shape) == pre + [node] + post
      ensures Coherent(order, NodeKeys()) && old(IsSorted()) ==> IsSorted() && Fits(order, NodeKeys(), node, pre, post)
    {
      hide At, RedBlack, Distinct, InsInv, InsAt, Fits, Sorted, Coherent, InOrder, Nodes, Fill, Pre, Post, GoesTo, Snap;
      ghost var ns, ks, t0 := Nodes(shape) + {node}, Keys(Nodes(shape) + {node}), shape;
      SortedIn(order, Keys(Nodes(shape)), ks, shape);
      if root == sentinel {
        EmptyShape();
        node.parent := null;
        node.left := sentinel;
        node.right := sentinel;
        node.red := false;
        root := node;
        shape := Br(Leaf, node, false, Leaf);
        pre, post := [], [];
        Singleton(node, ks);
        return;
      }
      RootShape();
      ghost var c;
      match order {
        case Plain => c := InsertValue(root, node, sentinel, shape);
        case Timer => c := InsertTimerValue(root, node, sentinel, shape);
        case Resolver => c := InsertResolverValue(root, node, sentinel, shape);
      }
      ghost var leaf := Br(Leaf, node, true, Leaf);
      ghost var hh := InsStart(c, node);
      pre, post := Pre(c), Post(c);
      Placed(order, ks, node, c, t0);
      InsAtStart(node, c, hh, t0, ns);
      InsertFixup(node, c, leaf, hh, Fill(c, leaf), ns);
    }

    lemma EmptyShape()
      requires Valid() && root == sentinel
      ensures shape == Leaf && Nodes(shape) == {} && InOrder(shape) == []
    {
    }

    lemma RootShape()
      requires Valid() && root != sentinel
      ensures shape.Br? && shape.nd == root && At(Top, shape, root, root, sentinel, Snap(Nodes(shape)))
        && RedBlack(shape)
    {
    }

    lemma Singleton(node: Node, ks: KeyMap)
      requires shape == Br(Leaf, node, false, Leaf) && root == node && node != sentinel && !sentinel.red
      requires node.left == node.right == sentinel && !node.red
      ensures Valid() && Nodes(shape) == {node} && InOrder(shape) == [node]
      ensures Fits(order, ks, node, [], []) && Sorted(order, ks, [node])
    {
      assert RB(Leaf, 0) && BH(shape) == 1;
      assert Nodes(shape) == {node};
      ghost var h := Snap(Nodes(shape));
      assert h[node].left == sentinel && h[node].right == sentinel && h[node].red == false;
      assert RepT(Leaf, sentinel, sentinel, h);
      assert RepT(shape, root, sentinel, h);
      assert Distinct(shape);
    }

    lemma InsAtStart(node: Node, c: Ctx, hh: int, whole: Shape, ns: set<Node>)
      requires InsInv(c, Br(Leaf, node, true, Leaf), hh) && ns == Nodes(whole) + {node} && Fill(c, Leaf) == whole
      requires At(c, Br(Leaf, node, true, Leaf), node, root, sentinel, Snap(ns))
      ensures InsAt(c, Br(Leaf, node, true, Leaf), hh, Fill(c, Br(Leaf, node, true, Leaf)), node, root, sentinel, ns,
        Snap(ns))
    {
      FillNodes(c, Leaf);
    }

    lemma Placed(ord: Order, ks: KeyMap, node: Node, c: Ctx, whole: Shape)
      requires Fill(c, Leaf) == whole && GoesTo(ord, ks, node, c, Leaf, whole) && ks.Keys == Nodes(whole) + {node}
      ensures InOrder(whole) == Pre(c) + Post(c)
      ensures InOrder(Fill(c, Br(Leaf, node, true, Leaf))) == Pre(c) + [node] + Post(c)
      ensures Nodes(Fill(c, Br(Leaf, node, true, Leaf))) == Nodes(whole) + {node}
      ensures Coherent(ord, ks) && Sorted(ord, ks, InOrder(whole)) ==>
        Fits(ord, ks, node, Pre(c), Post(c)) && Sorted(ord, ks, Pre(c) + [node] + Post(c))
    {
      hide Fits, Sorted, Coherent, Fill, Pre, Post, Before;
      FillOrder(c, Leaf);
      FillOrder(c, Br(Leaf, node, true, Leaf));
      FillNodes(c, Leaf);
      FillNodes(c, Br(Leaf, node, true, Leaf));
      assert Pre(c) + [] + Post(c) == Pre(c) + Post(c);
      if Coherent(ord, ks) && Sorted(ord, ks, InOrder(whole)) {
        OrderKeyed(whole, ks);
        FitsSorted(ord, ks, node, Pre(c), Post(c));
      }
    }

    // ---------- deletion ----------

    /** The deletion loop ends because it climbs, or because it reaches a red node. */
    ghost static function Work(c: Ctx, t: Shape): nat { Depth(c) + (if IsRed(t) then 0 else 1) }

    lemma ParentOfTemp(temp: Node, c: Ctx, t: Shape, hh: int, whole: Shape, ns: set<Node>)
      requires DelAt(c, t, hh, whole, temp, root, sentinel, ns, Snap(ns)) && !IsRed(t) && c.In? && sentinel !in ns
      ensures temp != sentinel ==> temp.parent == c.nd
      ensures (if c.onLeft then c.nd.right else c.nd.left) == TopOf(c.sib, sentinel)
      ensures c.nd in ns && TopOf(t, sentinel) == temp && c.sib.Br?
    {
      SiblingIsNode(c, t, hh);
    }

    /** What the deletion loop reads around the sibling. */
    lemma Sibling(temp: Node, c: Ctx, t: Shape, hh: int, whole: Shape, ns: set<Node>)
      requires DelAt(c, t, hh, whole, temp, root, sentinel, ns, Snap(ns)) && !IsRed(t) && c.In? && !sentinel.red
        && sentinel !in ns
      ensures c.sib.Br? && {c.nd, c.sib.nd} <= Nodes(Up(c, t)) && Nodes(Up(c, t)) <= ns && c.sib.nd in Nodes(c.sib)
        && Nodes(c.sib) <= ns
      ensures Tip(c.sib.l) + Tip(c.sib.r) <= Nodes(c.sib) && Nodes(c.sib) <= Nodes(Up(c, t))
      ensures (if c.onLeft then c.nd.right else c.nd.left) == c.sib.nd && (c.nd.left == temp <==> c.onLeft)
      ensures c.sib.nd.red == c.sib.red && c.nd.red == c.red
      ensures c.sib.nd.left == TopOf(c.sib.l, sentinel) && TopOf(c.sib.l, sentinel).red == IsRed(c.sib.l)
      ensures c.sib.nd.right == TopOf(c.sib.r, sentinel) && TopOf(c.sib.r, sentinel).red == IsRed(c.sib.r)
      ensures At(c.up, Up(c, t), c.nd, root, sentinel, Snap(ns)) && Distinct(Up(c, t))
      ensures At(DownC(c.up, Up(c, t), !c.onLeft), c.sib, c.sib.nd, root, sentinel, Snap(ns)) && Distinct(c.sib)
      ensures c.up.In? ==> c.nd.parent == c.up.nd
    {
      hide Distinct, Apart, CtxRB, RB, Equiv;
      ghost var h := Snap(ns);
      SiblingIsNode(c, t, hh);
      FocusUp(c, t, temp, root, sentinel, h);
      UpDistinct(c, t, temp, root, sentinel, h);
      LookDown(c.up, Up(c, t), !c.onLeft, root, sentinel, h);
      ghost var cw := DownC(c.up, Up(c, t), !c.onLeft);
      LookDown(cw, c.sib, true, root, sentinel, h);
      LookDown(cw, c.sib, false, root, sentinel, h);
    }

    /** Sibling black, parent red: the colours before the first rotation. */
    method PaintS1(temp: Node, w: Node, ghost c: Ctx, ghost t: Shape, ghost ns: set<Node>)
      requires c.In? && c.sib.Br? && w == c.sib.nd && temp.parent == c.nd && Distinct(Up(c, t))
      requires {c.nd, w} <= Nodes(Up(c, t)) <= ns && At(c.up, Up(c, t), c.nd, root, sentinel, Snap(ns))
      modifies ns`red
      ensures At(c.up, S1(c, t), c.nd, root, sentinel, Snap(ns))
    {
      hide At, Painted, Distinct;
      S1Is(c, t);
      Paint(w, false, c.up, Up(c, t), c.nd, ns);
      PaintedSame(Up(c, t), w, false);
      Paint(temp.parent, true, c.up, Painted(Up(c, t), w, false), c.nd, ns);
    }

    /** Near nephew black, sibling red: the colours before the sibling is rotated. */
    method PaintS3(k: Node, w: Node, ghost c: Ctx, ghost cw: Ctx, ghost ns: set<Node>)
      requires c.In? && c.sib.Br? && Near(c.sib, c.onLeft).Br? && k == Near(c.sib, c.onLeft).nd && w == c.sib.nd
        && Distinct(c.sib)
      requires {k, w} <= Nodes(c.sib) <= ns && At(cw, c.sib, w, root, sentinel, Snap(ns))
      modifies ns`red
      ensures At(cw, S3(c), w, root, sentinel, Snap(ns))
    {
      hide At, Painted, Distinct;
      S3Is(c);
      Paint(k, false, cw, c.sib, w, ns);
      PaintedSame(c.sib, k, false);
      Paint(w, true, cw, Painted(c.sib, k, false), w, ns);
    }

    /** Sibling takes the parent's colour, parent and far nephew go black. */
    method PaintS4(temp: Node, w: Node, far: Node, ghost c: Ctx, ghost t: Shape, ghost ns: set<Node>)
      requires c.In? && c.sib.Br? && Far(c.sib, c.onLeft).Br? && far == Far(c.sib, c.onLeft).nd
      requires w == c.sib.nd && temp.parent == c.nd && c.nd.red == c.red && Distinct(Up(c, t))
      requires {c.nd, w, far} <= Nodes(Up(c, t)) <= ns && At(c.up, Up(c, t), c.nd, root, sentinel, Snap(ns))
      modifies ns`red
      ensures At(c.up, S4(c, t), c.nd, root, sentinel, Snap(ns))
    {
      hide At, Painted, Distinct;
      S4Is(c, t);
      ghost var u := Up(c, t);
      Paint(w, temp.parent.red, c.up, u, c.nd, ns);
      PaintedSame(u, w, c.red);
      ghost var u1 := Painted(u, w, c.red);
      Paint(temp.parent, false, c.up, u1, c.nd, ns);
      PaintedSame(u1, c.nd, false);
      Paint(far, false, c.up, Painted(u1, c.nd, false), c.nd, ns);
    }

    /** Deletion loop, `temp` a left child with a red sibling. */
    method DeleteRedLeft(temp: Node, w0: Node, ghost c: Ctx, ghost t: Shape, ghost hh: int, ghost whole: Shape,
        ghost ns: set<Node>)
      returns (w: Node)
      requires DelAt(c, t, hh, whole, temp, root, sentinel, ns, Snap(ns)) && !IsRed(t) && !sentinel.red
        && sentinel !in ns
      requires c.In? && c.onLeft == true && temp.parent == c.nd && IsRed(c.sib) && w0 == c.sib.nd
      modifies this`root, ns`left, ns`right, ns`parent, ns`red
      ensures DelAt(C1(c, t), t, hh, whole, temp, root, sentinel, ns, Snap(ns)) && !IsRed(C1(c, t).sib)
      ensures temp.parent == C1(c, t).nd && w == TopOf(C1(c, t).sib, sentinel)
    {
      hide At, Distinct, Equiv, DelAt, S1, Rot, DelInv;
      Sibling(temp, c, t, hh, whole, ns);
      ghost var h, root0 := Snap(ns), root;
      PaintS1(temp, w0, c, t, ns);
      LeftRotate(temp.parent, c.up, S1(c, t), ns);
      DelAtRed(c, t, hh, whole, temp, root0, root, sentinel, ns, h, Snap(ns));
      ParentOfTemp(temp, C1(c, t), t, hh, whole, ns);
      w := temp.parent.right;
    }

    /** Deletion loop, `temp` a left child, black sibling whose only red child is the near one. */
    method DeleteNearLeft(temp: Node, w0: Node, ghost c: Ctx, ghost t: Shape, ghost hh: int, ghost whole: Shape,
        ghost ns: set<Node>)
      returns (w: Node)
      requires DelAt(c, t, hh, whole, temp, root, sentinel, ns, Snap(ns)) && !IsRed(t) && !sentinel.red
        && sentinel !in ns
      requires c.In? && c.onLeft == true && temp.parent == c.nd && c.sib.Br? && !c.sib.red && w0 == c.sib.nd
      requires IsRed(c.sib.l) && !IsRed(c.sib.r)
      modifies this`root, ns`left, ns`right, ns`parent, ns`red
      ensures DelAt(C3(c), t, hh, whole, temp, root, sentinel, ns, Snap(ns))
      ensures !C3(c).sib.red && IsRed(C3(c).sib.r) && temp.parent == c.nd && w == C3(c).sib.nd
    {
      hide At, Distinct, Equiv, DelAt, S3, Rot, DelInv, C3, RB, CtxRB, InOrder, Fill, Nodes, CNodes;
      Sibling(temp, c, t, hh, whole, ns);
      ghost var h, root0 := Snap(ns), root;
      ghost var cw := DownC(c.up, Up(c, t), false);
      PaintS3(w0.left, w0, c, cw, ns);
      RightRotate(w0, cw, S3(c), ns);
      DelAtNear(c, t, hh, whole, temp, root0, root, sentinel, ns, h, Snap(ns));
      ParentOfTemp(temp, C3(c), t, hh, whole, ns);
      w := temp.parent.right;
    }

    /** Deletion loop, `temp` a left child, black sibling with a red child. */
    method DeleteRotateLeft(temp0: Node, w0: Node, ghost c: Ctx, ghost t: Shape, ghost hh: int, ghost whole: Shape,
        ghost ns: set<Node>)
      returns (temp: Node, ghost t': Shape, ghost hh': int)
      requires DelAt(c, t, hh, whole, temp0, root, sentinel, ns, Snap(ns)) && !IsRed(t) && !sentinel.red
        && sentinel !in ns
      requires c.In? && c.onLeft == true && temp0.parent == c.nd && c.sib.Br? && !c.sib.red && !BothBlack(c.sib)
        && w0 == c.sib.nd
      modifies this`root, ns`left, ns`right, ns`parent, ns`red
      ensures DelAt(Top, t', hh', whole, temp, root, sentinel, ns, Snap(ns)) && !IsRed(t') && temp == root
    {
      hide At, Distinct, Equiv, DelAt, S4, Rot, DelInv, C3, RB, CtxRB, InOrder, Fill, Nodes, CNodes;
      Sibling(temp0, c, t, hh, whole, ns);
      var w := w0;
      ghost var c' := c;
      if !w.right.red {
        w := DeleteNearLeft(temp0, w, c, t, hh, whole, ns);
        c' := C3(c);
      }
      ghost var h, root0 := Snap(ns), root;
      Sibling(temp0, c', t, hh, whole, ns);
      PaintS4(temp0, w, w.right, c', t, ns);
      LeftRotate(temp0.parent, c'.up, S4(c', t), ns);
      DelAtFar(c', t, hh, whole, temp0, root0, root, sentinel, ns, h, Snap(ns));
      temp := root;
      t' := Fill(c'.up, Rot(S4(c', t), true));
      hh' := BH(t') + 1;
    }

    /** One turn of the deletion loop when `temp` is a left child. */
    method DeleteLeft(temp0: Node, ghost c: Ctx, ghost t: Shape, ghost hh: int, ghost whole: Shape, ghost ns: set<Node>)
      returns (temp: Node, ghost c': Ctx, ghost t': Shape, ghost hh': int)
      requires DelAt(c, t, hh, whole, temp0, root, sentinel, ns, Snap(ns)) && !IsRed(t) && !sentinel.red
        && sentinel !in ns
      requires c.In? && c.onLeft == true && temp0.parent == c.nd
      modifies this`root, ns`left, ns`right, ns`parent, ns`red
      ensures DelAt(c', t', hh', whole, temp, root, sentinel, ns, Snap(ns)) && (c'.In? ==> temp.parent == c'.nd)
      ensures Work(c', t') < Work(c, t)
    {
      hide At, Distinct, Equiv, DelAt, S1, S2, Rot, DelInv, CNodes, RB, CtxRB, InOrder;
      Sibling(temp0, c, t, hh, whole, ns);
      temp, c', t', hh' := temp0, c, t, hh;
      var w := temp.parent.right;
      if w.red {
        w := DeleteRedLeft(temp, w, c, t, hh, whole, ns);
        c' := C1(c, t);
      }
      Sibling(temp, c', t, hh, whole, ns);
      if !w.left.red && !w.right.red {
        ghost var h := Snap(ns);
        S2Is(c', t);
        Paint(w, true, c'.up, Up(c', t), c'.nd, ns);
        DelAtBoth(c', t, hh, whole, temp, root, sentinel, ns, h, Snap(ns));
        temp := temp.parent;
        t', hh' := S2(c', t), if c'.red then hh else hh + 1;
        c' := c'.up;
      } else {
        temp, t', hh' := DeleteRotateLeft(temp, w, c', t, hh, whole, ns);
        c' := Top;
      }
    }

    /** Deletion loop, `temp` a right child with a red sibling. */
    method DeleteRedRight(temp: Node, w0: Node, ghost c: Ctx, ghost t: Shape, ghost hh: int, ghost whole: Shape,
        ghost ns: set<Node>)
      returns (w: Node)
      requires DelAt(c, t, hh, whole, temp, root, sentinel, ns, Snap(ns)) && !IsRed(t) && !sentinel.red
        && sentinel !in ns
      requires c.In? && c.onLeft == false && temp.parent == c.nd && IsRed(c.sib) && w0 == c.sib.nd
      modifies this`root, ns`left, ns`right, ns`parent, ns`red
      ensures DelAt(C1(c, t), t, hh, whole, temp, root, sentinel, ns, Snap(ns)) && !IsRed(C1(c, t).sib)
      ensures temp.parent == C1(c, t).nd && w == TopOf(C1(c, t).sib, sentinel)
    {
      hide At, Distinct, Equiv, DelAt, S1, Rot, DelInv;
      Sibling(temp, c, t, hh, whole, ns);
      ghost var h, root0 := Snap(ns), root;
      PaintS1(temp, w0, c, t, ns);
      RightRotate(temp.parent, c.up, S1(c, t), ns);
      DelAtRed(c, t, hh, whole, temp, root0, root, sentinel, ns, h, Snap(ns));
      ParentOfTemp(temp, C1(c, t), t, hh, whole, ns);
      w := temp.parent.left;
    }

    /** Deletion loop, `temp` a right child, black sibling whose only red child is the near one. */
    method DeleteNearRight(temp: Node, w0: Node, ghost c: Ctx, ghost t: Shape, ghost hh: int, ghost whole: Shape,
        ghost ns: set<Node>)
      returns (w: Node)
      requires DelAt(c, t, hh, whole, temp, root, sentinel, ns, Snap(ns)) && !IsRed(t) && !sentinel.red
        && sentinel !in ns
      requires c.In? && c.onLeft == false && temp.parent == c.nd && c.sib.Br? && !c.sib.red && w0 == c.sib.nd
      requires IsRed(c.sib.r) && !IsRed(c.sib.l)
      modifies this`root, ns`left, ns`right, ns`parent, ns`red
      ensures DelAt(C3(c), t, hh, whole, temp, root, sentinel, ns, Snap(ns))
      ensures !C3(c).sib.red && IsRed(C3(c).sib.l) && temp.parent == c.nd && w == C3(c).sib.nd
    {
      hide At, Distinct, Equiv, DelAt, S3, Rot, DelInv, C3, RB, CtxRB, InOrder, Fill, Nodes, CNodes;
      Sibling(temp, c, t, hh, whole, ns);
      ghost var h, root0 := Snap(ns), root;
      ghost var cw := DownC(c.up, Up(c, t), true);
      PaintS3(w0.right, w0, c, cw, ns);
      LeftRotate(w0, cw, S3(c), ns);
      DelAtNear(c, t, hh, whole, temp, root0, root, sentinel, ns, h, Snap(ns));
      ParentOfTemp(temp, C3(c), t, hh, whole, ns);
      w := temp.parent.left;
    }

    /** Deletion loop, `temp` a right child, black sibling with a red child. */
    method DeleteRotateRight(temp0: Node, w0: Node, ghost c: Ctx, ghost t: Shape, ghost hh: int, ghost whole: Shape,
        ghost ns: set<Node>)
      returns (temp: Node, ghost t': Shape, ghost hh': int)
      requires DelAt(c, t, hh, whole, temp0, root, sentinel, ns, Snap(ns)) && !IsRed(t) && !sentinel.red
        && sentinel !in ns
      requires c.In? && c.onLeft == false && temp0.parent == c.nd && c.sib.Br? && !c.sib.red && !BothBlack(c.sib)
        && w0 == c.sib.nd
      modifies this`root, ns`left, ns`right, ns`parent, ns`red
      ensures DelAt(Top, t', hh', whole, temp, root, sentinel, ns, Snap(ns)) && !IsRed(t') && temp == root
    {
      hide At, Distinct, Equiv, DelAt, S4, Rot, DelInv, C3, RB, CtxRB, InOrder, Fill, Nodes, CNodes;
      Sibling(temp0, c, t, hh, whole, ns);
      var w := w0;
      ghost var c' := c;
      if !w.left.red {
        w := DeleteNearRight(temp0, w, c, t, hh, whole, ns);
        c' := C3(c);
      }
      ghost var h, root0 := Snap(ns), root;
      Sibling(temp0, c', t, hh, whole, ns);
      PaintS4(temp0, w, w.left, c', t, ns);
      RightRotate(temp0.parent, c'.up, S4(c', t), ns);
      DelAtFar(c', t, hh, whole, temp0, root0, root, sentinel, ns, h, Snap(ns));
      temp := root;
      t' := Fill(c'.up, Rot(S4(c', t), false));
      hh' := BH(t') + 1;
    }

    /** One turn of the deletion loop when `temp` is a right child. */
    method DeleteRight(temp0: Node, ghost c: Ctx, ghost t: Shape, ghost hh: int, ghost whole: Shape,
        ghost ns: set<Node>)
      returns (temp: Node, ghost c': Ctx, ghost t': Shape, ghost hh': int)
      requires DelAt(c, t, hh, whole, temp0, root, sentinel, ns, Snap(ns)) && !IsRed(t) && !sentinel.red
        && sentinel !in ns
      requires c.In? && c.onLeft == false && temp0.parent == c.nd
      modifies this`root, ns`left, ns`right, ns`parent, ns`red
      ensures DelAt(c', t', hh', whole, temp, root, sentinel, ns, Snap(ns)) && (c'.In? ==> temp.parent == c'.nd)
      ensures Work(c', t') < Work(c, t)
    {
      hide At, Distinct, Equiv, DelAt, S1, S2, Rot, DelInv, CNodes, RB, CtxRB, InOrder;
      Sibling(temp0, c, t, hh, whole, ns);
      temp, c', t', hh' := temp0, c, t, hh;
      var w := temp.parent.left;
      if w.red {
        w := DeleteRedRight(temp, w, c, t, hh, whole, ns);
        c' := C1(c, t);
      }
      Sibling(temp, c', t, hh, whole, ns);
      if !w.left.red && !w.right.red {
        ghost var h := Snap(ns);
        S2Is(c', t);
        Paint(w, true, c'.up, Up(c', t), c'.nd, ns);
        DelAtBoth(c', t, hh, whole, temp, root, sentinel, ns, h, Snap(ns));
        temp := temp.parent;
        t', hh' := S2(c', t), if c'.red then hh else hh + 1;
        c' := c'.up;
      } else {
        temp, t', hh' := DeleteRotateRight(temp, w, c', t, hh, whole, ns);
        c' := Top;
      }
    }

    /** What the guard of the deletion loop reads. */
    lemma DelGuard(temp: Node, c: Ctx, t: Shape, hh: int, whole: Shape, ns: set<Node>)
      requires DelAt(c, t, hh, whole, temp, root, sentinel, ns, Snap(ns)) && !sentinel.red && sentinel !in ns
      ensures (temp == root <==> c.Top?) && temp.red == IsRed(t) && temp in ns + {sentinel}
      ensures !IsRed(t) && c.In? ==> (c.nd.left == temp <==> c.onLeft)
    {
      RootAbove(c, temp, root, sentinel, Snap(ns));
      if !IsRed(t) && c.In? { Sibling(temp, c, t, hh, whole, ns); }
    }

    /** The fixup loop of ngx_rbtree_delete and the final `ngx_rbt_black(temp)`. */
    method DeleteFixup(temp0: Node, ghost c0: Ctx, ghost t0: Shape, ghost hh0: int, ghost whole: Shape,
        ghost ns: set<Node>)
      requires DelAt(c0, t0, hh0, whole, temp0, root, sentinel, ns, Snap(ns)) && !sentinel.red && sentinel !in ns
      requires c0.In? ==> temp0.parent == c0.nd
      modifies this`root, this`shape, ns`left, ns`right, ns`parent, ns`red, sentinel`red
      ensures Valid() && Nodes(shape) == ns && InOrder(shape) == InOrder(whole)
    {
      hide DelAt, At, Equiv, RedBlack, Distinct, DelInv, Painted, Nodes, CNodes, InOrder, Fill;
      var temp := temp0;
      ghost var c, t, hh := c0, t0, hh0;
      DelGuard(temp, c, t, hh, whole, ns);
      while temp != root && !temp.red
        invariant DelAt(c, t, hh, whole, temp, root, sentinel, ns, Snap(ns)) && !sentinel.red
        invariant c.In? ==> temp.parent == c.nd
        invariant (temp == root <==> c.Top?) && temp.red == IsRed(t) && temp in ns + {sentinel}
        invariant !IsRed(t) && c.In? ==> (c.nd.left == temp <==> c.onLeft)
        decreases Work(c, t)
      {
        if temp == temp.parent.left {
          temp, c, t, hh := DeleteLeft(temp, c, t, hh, whole, ns);
        } else {
          temp, c, t, hh := DeleteRight(temp, c, t, hh, whole, ns);
        }
        DelGuard(temp, c, t, hh, whole, ns);
      }
      ghost var h := Snap(ns);
      temp.red := false;
      shape := Fill(c, Blackened(t));
      DelFinish(temp, c, t, hh, whole, h, ns);
    }

    lemma DelFinish(temp: Node, c: Ctx, t: Shape, hh: int, whole: Shape, h: Heap, ns: set<Node>)
      requires DelAt(c, t, hh, whole, temp, root, sentinel, ns, h) && (c.Top? || IsRed(t)) && sentinel !in ns
        && !sentinel.red
      requires Agree(h, Snap(ns), {temp}) && (temp in ns ==> Snap(ns)[temp] == h[temp].(red := false))
      requires shape == Fill(c, Blackened(t))
      ensures Valid() && Nodes(shape) == ns && InOrder(shape) == InOrder(whole)
    {
      hide At, RB, CtxRB, Distinct, RepT, RepC;
      DelDone(c, t, hh);
      if t.Br? {
        assert temp in Nodes(t);
        UpTopDistinct(c, t, temp, root, sentinel, h);
        PaintTop(t, false);
        PaintAt(c, t, temp, false, temp, root, sentinel, h, Snap(ns));
      } else {
        assert Snap(ns) == h;
      }
      CloseAt(c, Blackened(t), temp, root, sentinel, Snap(ns));
      BlackenedEquiv(t);
      FillEquiv(c, Blackened(t), t);
      FillNodes(c, t);
    }

    /** ngx_rbtree_delete before anything is changed: which node is taken out of its place, and its only child. */
    method FindSubst(node: Node, ghost c: Ctx, ghost t: Shape, ghost ns: set<Node>)
      returns (subst: Node, temp: Node, ghost sp: Ctx, ghost m: Shape, ghost d: Shape)
      requires t.Br? && t.nd == node && At(c, t, node, root, sentinel, Snap(ns)) && sentinel !in CNodes(c) + Nodes(t)
      ensures m.Br? && m.nd == subst && OnlyKid(m, d) && temp == TopOf(d, sentinel)
      ensures subst == node ==> m == t && sp == Top && At(c, t, subst, root, sentinel, Snap(ns))
      ensures subst != node ==> Spine(sp) && m.l == Leaf && m.r == d && t.r == Fill(sp, m)
      ensures subst != node ==> At(Plus(sp, In(c, node, t.red, t.l, false)), m, subst, root, sentinel, Snap(ns))
    {
      hide At;
      ghost var h := Snap(ns);
      AtNode(c, t, node, root, sentinel, h);
      LookDown(c, t, true, root, sentinel, h);
      LookDown(c, t, false, root, sentinel, h);
      NotSentinel(DownC(c, t, true), t.l, root, sentinel, h);
      NotSentinel(DownC(c, t, false), t.r, root, sentinel, h);
      sp, m := Top, t;
      if node.left == sentinel {
        temp := node.right;
        subst, d := node, t.r;
      } else if node.right == sentinel {
        temp := node.left;
        subst, d := node, t.l;
      } else {
        subst, sp, m := Min(node.right, sentinel, DownC(c, t, false), t.r, root, ns);
        SubstIsOther(c, t, sp, m, root, sentinel, h);
        LookDown(Plus(sp, DownC(c, t, false)), m, true, root, sentinel, h);
        LookDown(Plus(sp, DownC(c, t, false)), m, false, root, sentinel, h);
        // the code tests for a left child first, but a minimum has none
        assert subst.left == sentinel;
        temp := subst.right;
        d := m.r;
      }
    }

    /** ngx_rbtree_delete, the successor's own fields and the link to it. */
    method TakePlace(node: Node, subst: Node, ghost c: Ctx, ghost t: Shape, ghost ns: set<Node>)
      requires PlaceReady(c, t, subst, root, sentinel, Snap(ns)) && node == t.nd
      modifies this`root, ns`left, ns`right, subst`parent, subst`red
      ensures PlaceCells(c, t, subst, old(Snap(ns)), Snap(ns))
      ensures root == if c.Top? then subst else old(root)
    {
      subst.left := node.left;
      subst.right := node.right;
      subst.parent := node.parent;
      subst.red := node.red;
      if node == root {
        root := subst;
      } else if node == node.parent.left {
        node.parent.left := subst;
      } else {
        node.parent.right := subst;
      }
    }

    /** ngx_rbtree_delete, the parent links of the successor's new children. */
    method AdoptChildren(subst: Node, ghost t: Shape, ghost ns: set<Node>)
      requires t.Br? && subst.left == TopOf(t.l, sentinel) && subst.right == TopOf(t.r, sentinel) && subst in ns
      requires Tip(t.l) + Tip(t.r) <= ns - {subst, sentinel}
      modifies ns`parent
      ensures AdoptCells(t, subst, old(Snap(ns)), Snap(ns))
    {
      if subst.left != sentinel {
        subst.left.parent := subst;
      }
      if subst.right != sentinel {
        subst.right.parent := subst;
      }
    }

    /** The whole replacement of `node` by its successor. */
    method Replace(node: Node, subst: Node, ghost c: Ctx, ghost t: Shape, ghost ns: set<Node>)
      requires Loose(c, t, root, sentinel, Snap(ns)) && node == t.nd
      requires subst in ns && subst != sentinel && subst !in CNodes(c) + Nodes(t) && sentinel !in CNodes(c) + Nodes(t)
      modifies this`root, ns`left, ns`right, ns`parent, ns`red
      ensures At(c, t.(nd := subst), subst, root, sentinel, Snap(ns))
    {
      hide Loose, At, Nodes, CNodes, PlaceCells, AdoptCells;
      ghost var h := Snap(ns);
      ReplaceReady(c, t, subst, root, sentinel, h);
      TakePlace(node, subst, c, t, ns);
      ghost var h1 := Snap(ns);
      PlacedFields(c, t, subst, h, h1);
      AdoptChildren(subst, t, ns);
      ReplaceSplit(c, t, subst, old(root), sentinel, h, h1, Snap(ns));
      ReplaceRep(c, t, subst, old(root), root, sentinel, h, Snap(ns));
    }

    /** The link above `subst` now leads to its only child. */
    method Bypass(subst: Node, temp: Node, ghost cs: Ctx, ghost ns: set<Node>)
      requires cs.In? && subst in ns && cs.nd in ns && subst.parent == cs.nd && (cs.nd.left == subst <==> cs.onLeft)
      modifies ns`left, ns`right
      ensures Snap(ns) == Bypassed(cs, temp, old(Snap(ns)))
    {
      if subst == subst.parent.left {
        subst.parent.left := temp;
      } else {
        subst.parent.right := temp;
      }
    }

    /** Taking `subst` out of its place: the link above it and `temp`'s parent link. */
    method Unlink(node: Node, subst: Node, temp: Node, ghost cs: Ctx, ghost m: Shape, ghost d: Shape,
        ghost ns: set<Node>)
      requires m.Br? && m.nd == subst && OnlyKid(m, d) && temp == TopOf(d, sentinel) && cs.In?
      requires At(cs, m, subst, root, sentinel, Snap(ns)) && sentinel !in ns
      modifies ns`left, ns`right, ns`parent, sentinel`parent
      ensures UnlinkCells(cs, d, temp, old(Snap(ns)), Snap(ns))
      ensures temp.parent == (if cs.nd == node && subst != node then subst else cs.nd)
      ensures subst.parent == cs.nd
    {
      hide At, Nodes, CNodes, UnlinkCells, Bypassed;
      ghost var h := Snap(ns);
      UnlinkReady(cs, m, d, root, sentinel, h);
      Bypass(subst, temp, cs, ns);
      ghost var h1 := Snap(ns);
      BypassedKeeps(cs, temp, h, subst);
      HangFrom(node, subst, temp, cs);
      UnlinkSplit(cs, d, temp, h, h1, Snap(ns), sentinel);
    }

    /** Where the only child finds its parent. */
    method HangFrom(node: Node, subst: Node, temp: Node, ghost cs: Ctx)
      requires cs.In? && subst.parent == cs.nd && temp != subst
      modifies temp`parent
      ensures temp.parent == (if cs.nd == node && subst != node then subst else cs.nd)
    {
      if subst == node {
        temp.parent := subst.parent;
      } else if subst.parent == node {
        temp.parent := subst;
      } else {
        temp.parent := subst.parent;
      }
    }

    /** Where `temp` hangs once `subst` has been taken out and, if it is another node, put in `node`'s place. */
    ghost static function Joint(node: Node, subst: Node, c: Ctx, t: Shape, sp: Ctx): Ctx
      requires t.Br?
    {
      if subst == node then c else Plus(sp, In(c, subst, t.red, t.l, false))
    }

    lemma SpliceNodes(node: Node, subst: Node, c: Ctx, t: Shape, sp: Ctx, m: Shape, d: Shape, h: Heap)
      requires t.Br? && t.nd == node && m.Br? && m.nd == subst && OnlyKid(m, d) && At(c, t, node, root, sentinel, h)
      requires if subst == node then m == t && c.In? else t.r == Fill(sp, m)
      ensures CNodes(Joint(node, subst, c, t, sp)) + Nodes(d) == CNodes(c) + Nodes(t) - {node}
      ensures subst in Nodes(t)
      ensures subst != node ==> CNodes(c) + Nodes(Br(t.l, node, t.red, Fill(sp, d))) == CNodes(c) + Nodes(t) - {subst}
    {
      if subst == node { UnlinkApart(c, t, d); } else { SpliceSets(c, t, sp, m, d); }
    }

    /** The splicing part of ngx_rbtree_delete. */
    method Splice(node: Node, subst: Node, temp: Node, ghost c: Ctx, ghost t: Shape, ghost sp: Ctx, ghost m: Shape,
        ghost d: Shape, ghost ns: set<Node>)
      requires t.Br? && t.nd == node && m.Br? && m.nd == subst && OnlyKid(m, d) && temp == TopOf(d, sentinel)
      requires CNodes(c) + Nodes(t) == ns && sentinel !in ns && At(c, t, node, root, sentinel, Snap(ns))
      requires subst == node ==> m == t && c.In?
      requires subst != node ==> t.r == Fill(sp, m)
      requires subst != node ==> At(Plus(sp, In(c, node, t.red, t.l, false)), m, subst, root, sentinel, Snap(ns))
      modifies this`root, ns`left, ns`right, ns`parent, ns`red, sentinel`parent
      ensures var c' := Joint(node, subst, c, t, sp);
        c'.In? && temp.parent == c'.nd && At(c', d, temp, root, sentinel, Snap(ns))
      ensures CNodes(Joint(node, subst, c, t, sp)) + Nodes(d) == ns - {node}
    {
      hide At, Nodes, CNodes, UnlinkCells, Loose, RepT, RepC, Apart, OnlyKid;
      ghost var h := Snap(ns);
      ghost var b := In(c, node, t.red, t.l, false);
      SpliceNodes(node, subst, c, t, sp, m, d, h);
      ghost var cs := if subst == node then c else Plus(sp, b);
      if subst != node && sp.In? { PathNode(sp, b, m, subst, root, sentinel, h); }
      Unlink(node, subst, temp, cs, m, d, ns);
      ghost var h1 := Snap(ns);
      UnlinkRep(cs, m, d, root, sentinel, h, h1);
      if subst == node {
        UnlinkedAt(cs, d, root, sentinel, h1);
      } else {
        ghost var t1 := Br(t.l, node, t.red, Fill(sp, d));
        LooseAfter(c, node, t.red, t.l, sp, d, root, sentinel, h1);
        Replace(node, subst, c, t1, ns);
        JointAt(c, subst, t.red, t.l, sp, d, root, sentinel, Snap(ns));
      }
    }

    /** ngx_rbtree_delete: exactly `node` disappears from the in-order sequence. */
    method Delete(node: Node) returns (ghost pre: seq<Node>, ghost post: seq<Node>)
      requires Valid() && node in Nodes(shape)
      modifies this`root, this`shape, Nodes(shape)`left, Nodes(shape)`right, Nodes(shape)`parent, Nodes(shape)`red
      modifies node`key, sentinel`parent, sentinel`red
      ensures Valid() && Nodes(shape) == old(Nodes(shape)) - {node}
      ensures old(InOrder(shape)) == pre + [node] + post && InOrder(shape) == pre + post
      ensures node.left == null && node.right == null && node.parent == null && node.key == 0
      ensures old(IsSorted()) ==> IsSorted()
    {
      hide At, RedBlack, Distinct, Nodes, CNodes, InOrder, Sorted, OnlyKid, CtxRB, RB, DelInv;
      ghost var ns, ks := Nodes(shape), Keys(Nodes(shape));
      ghost var c, t := Locate(shape, node);
      Opened(c, t);
      var subst, temp;
      ghost var sp, m, d;
      subst, temp, sp, m, d := FindSubst(node, c, t, ns);
      SubstIsRoot(subst, c, t, sp, m, Snap(ns));
      pre, post := OrderWithout(node, subst, c, t, sp, m, d);
      ghost var hh := ColoursWithout(node, subst, c, t, sp, m, d);
      if subst == root {
        DropRoot(node, temp, t, d, hh);
      } else {
        SpliceAndFix(node, subst, temp, c, t, sp, m, d, hh);
      }
      StillSorted(ks, pre, node, post);
    }

    /** ngx_rbtree_delete when the root itself is taken out. */
    method DropRoot(node: Node, temp: Node, ghost t: Shape, ghost d: Shape, ghost hh: int)
      requires t == shape && t.Br? && t.nd == node && OnlyKid(t, d) && At(Top, t, node, root, sentinel, Snap(Nodes(t)))
      requires !sentinel.red && sentinel !in Nodes(t) && temp == TopOf(d, sentinel)
      requires DelInv(Top, d, hh)
      modifies this`root, this`shape, Nodes(shape)`red, node`left, node`right, node`parent, node`key, sentinel`red
      ensures Valid() && Nodes(shape) == old(Nodes(shape)) - {node} && InOrder(shape) == InOrder(d)
      ensures node.left == null && node.right == null && node.parent == null && node.key == 0
    {
      hide At, InOrder, CtxRB, RB, RepT, Distinct, OnlyKid, DelInv;
      ghost var ns, h := Nodes(t), Snap(Nodes(t));
      RootKid(node, t, d, h);
      root := temp;
      temp.red := false;
      Clear(node);
      shape := Blackened(d);
      RootGone(d, hh, h, ns - {node}, node);
      BlackenedEquiv(d);
    }

    /** ngx_rbtree_delete when the taken-out node has a parent. */
    method SpliceAndFix(node: Node, subst: Node, temp: Node, ghost c: Ctx, ghost t: Shape, ghost sp: Ctx,
        ghost m: Shape, ghost d: Shape, ghost hh: int)
      requires t.Br? && t.nd == node && m.Br? && m.nd == subst && OnlyKid(m, d) && temp == TopOf(d, sentinel)
      requires CNodes(c) + Nodes(t) == Nodes(shape) && sentinel !in Nodes(shape) && !sentinel.red
      requires At(c, t, node, root, sentinel, Snap(Nodes(shape)))
      requires subst == node ==> m == t && c.In?
      requires subst != node ==> t.r == Fill(sp, m)
      requires subst != node ==>
        At(Plus(sp, In(c, node, t.red, t.l, false)), m, subst, root, sentinel, Snap(Nodes(shape)))
      requires var c' := Joint(node, subst, c, t, sp);
        if m.red then RB(d, hh) && CtxRB(c', hh, IsRed(d)) else DelInv(c', d, hh)
      requires subst.red == m.red && node in Nodes(shape)
      modifies this`root, this`shape, Nodes(shape)`left, Nodes(shape)`right, Nodes(shape)`parent, Nodes(shape)`red
      modifies node`key, sentinel`parent, sentinel`red
      ensures Valid() && Nodes(shape) == old(Nodes(shape)) - {node}
      ensures InOrder(shape) == InOrder(Fill(Joint(node, subst, c, t, sp), d))
      ensures node.left == null && node.right == null && node.parent == null && node.key == 0
    {
      hide At, RedBlack, Distinct, Nodes, CNodes, InOrder, Fill, OnlyKid, CtxRB, RB, DelInv, Joint, Plus, TopOf, IsRed;
      ghost var ns, c' := Nodes(shape), Joint(node, subst, c, t, sp);
      var red := subst.red;
      Splice(node, subst, temp, c, t, sp, m, d, ns);
      ghost var h := Snap(ns);
      Clear(node);
      AtWithout(c', d, temp, root, sentinel, h, Snap(ns - {node}), node);
      Repair(temp, red, c', d, hh, ns - {node});
    }

    /** The end of ngx_rbtree_delete: nothing is to be repaired if the node taken out was red. */
    method Repair(temp: Node, red: bool, ghost c: Ctx, ghost d: Shape, ghost hh: int, ghost ns: set<Node>)
      requires !sentinel.red && sentinel !in ns && CNodes(c) + Nodes(d) == ns && temp == TopOf(d, sentinel)
      requires At(c, d, temp, root, sentinel, Snap(ns)) && c.In? && temp.parent == c.nd
      requires if red then RB(d, hh) && CtxRB(c, hh, IsRed(d)) else DelInv(c, d, hh)
      modifies this`root, this`shape, ns`left, ns`right, ns`parent, ns`red, sentinel`red
      ensures Valid() && Nodes(shape) == ns && InOrder(shape) == InOrder(Fill(c, d))
    {
      hide At, RedBlack, Distinct, Nodes, CNodes, InOrder, Fill, CtxRB, RB, DelInv, TopOf, IsRed;
      if red {
        shape := Fill(c, d);
        RedGone(c, d, hh, temp, ns);
        return;
      }
      DelAtStart(c, d, hh, temp, ns);
      DeleteFixup(temp, c, d, hh, Fill(c, d), ns);
    }

    /** The fields the code wipes for debugging. */
    method Clear(node: Node)
      modifies node`left, node`right, node`parent, node`key
      ensures node.left == null && node.right == null && node.parent == null && node.key == 0
    {
      node.left := null;
      node.right := null;
      node.parent := null;
      node.key := 0;
    }

    lemma Opened(c: Ctx, t: Shape)
      requires Valid() && Fill(c, t) == shape && t.Br?
      ensures At(c, t, t.nd, root, sentinel, Snap(Nodes(shape))) && CNodes(c) + Nodes(t) == Nodes(shape)
      ensures sentinel !in Nodes(shape) && !sentinel.red && RedBlack(shape) && (c.Top? ==> t == shape && !t.red)
    {
      OpenAt(c, t, root, sentinel, Snap(Nodes(shape)));
      FillNodes(c, t);
    }

    /** The taken-out node is the root only if it is the deleted node and has no parent. */
    lemma SubstIsRoot(subst: Node, c: Ctx, t: Shape, sp: Ctx, m: Shape, h: Heap)
      requires t.Br? && m.Br? && m.nd == subst
      requires At(if subst == t.nd then c else Plus(sp, In(c, t.nd, t.red, t.l, false)), m, subst, root, sentinel, h)
      ensures subst == root <==> (subst == t.nd && c.Top?)
      ensures subst in h && h[subst].red == m.red
    {
      RootAbove(if subst == t.nd then c else Plus(sp, In(c, t.nd, t.red, t.l, false)), subst, root, sentinel, h);
    }

    /** In-order effect of the splice. */
    lemma OrderWithout(node: Node, subst: Node, c: Ctx, t: Shape, sp: Ctx, m: Shape, d: Shape)
      returns (pre: seq<Node>, post: seq<Node>)
      requires t.Br? && t.nd == node && m.Br? && m.nd == subst && OnlyKid(m, d)
      requires subst == node ==> m == t
      requires subst != node ==> Spine(sp) && m.l == Leaf && m.r == d && t.r == Fill(sp, m)
      ensures InOrder(Fill(c, t)) == pre + [node] + post
      ensures InOrder(Fill(Joint(node, subst, c, t, sp), d)) == pre + post
    {
      hide InOrder, Fill;
      if subst == node {
        pre, post := OnlyKidOrder(c, t, d);
      } else {
        SuccessorOrder(c, node, t.red, t.l, sp, m);
        FillPlus(sp, In(c, subst, t.red, t.l, false), d);
        FillRight(c, subst, t.red, t.l, Fill(sp, d));
        pre, post := Pre(c) + InOrder(t.l), [m.nd] + (InOrder(m.r) + Post(sp) + Post(c));
      }
    }

    /** Colour effect of the splice. */
    lemma ColoursWithout(node: Node, subst: Node, c: Ctx, t: Shape, sp: Ctx, m: Shape, d: Shape) returns (hh: int)
      requires t.Br? && t.nd == node && m.Br? && m.nd == subst && OnlyKid(m, d) && RedBlack(Fill(c, t))
      requires subst == node ==> m == t
      requires subst != node ==> t.r == Fill(sp, m)
      ensures var c' := Joint(node, subst, c, t, sp);
        if m.red then RB(d, hh) && CtxRB(c', hh, IsRed(d)) else DelInv(c', d, hh)
    {
      hide OnlyKid, RB;
      if subst == node {
        hh := DelStart(c, t, d);
      } else {
        var b, b' := In(c, node, t.red, t.l, false), In(c, subst, t.red, t.l, false);
        FillPlus(sp, b, m);
        hh := DelStart(Plus(sp, b), m, d);
        PlusColours(sp, b, b', hh, false);
        PlusColours(sp, b, b', hh, IsRed(d));
      }
    }

    lemma RootKid(node: Node, t: Shape, d: Shape, h: Heap)
      requires t.Br? && t.nd == node && OnlyKid(t, d) && At(Top, t, node, root, sentinel, h)
      ensures RepT(d, TopOf(d, sentinel), sentinel, h) && Distinct(d) && Nodes(d) == Nodes(t) - {node}
    {
      var left := !(t.l.Leaf? && t.r == d);
      assert RepT(d, Kid(h[t.nd], left), sentinel, h);
    }

    /** The root was taken out: its only child, painted black, is the whole tree. */
    lemma RootGone(d: Shape, hh: int, h: Heap, ns: set<Node>, node: Node)
      requires RepT(d, TopOf(d, sentinel), sentinel, h) && Distinct(d) && Nodes(d) == ns && node !in ns
        && sentinel !in ns
      requires DelInv(Top, d, hh) && !sentinel.red && root == TopOf(d, sentinel) && shape == Blackened(d)
      requires Agree(h, Snap(ns), {node} + Tip(d)) && (d.Br? ==> Snap(ns)[d.nd] == h[d.nd].(red := false))
      ensures Valid() && Nodes(shape) == ns
    {
      DelDone(Top, d, hh);
      ghost var h' := Snap(ns);
      if d.Br? {
        FrameT(d.l, h[d.nd].left, sentinel, h, h', {node} + Tip(d));
        FrameT(d.r, h[d.nd].right, sentinel, h, h', {node} + Tip(d));
      }
    }

    /** A red node was taken out: nothing is left to repair. */
    lemma RedGone(c: Ctx, d: Shape, hh: int, temp: Node, ns: set<Node>)
      requires RB(d, hh) && CtxRB(c, hh, IsRed(d)) && CNodes(c) + Nodes(d) == ns && sentinel !in ns && !sentinel.red
      requires At(c, d, temp, root, sentinel, Snap(ns)) && shape == Fill(c, d)
      ensures Valid() && Nodes(shape) == ns
    {
      FillRB(c, d, hh);
      CloseAt(c, d, temp, root, sentinel, Snap(ns));
      FillNodes(c, d);
    }

    lemma DelAtStart(c: Ctx, d: Shape, hh: int, temp: Node, ns: set<Node>)
      requires DelInv(c, d, hh) && CNodes(c) + Nodes(d) == ns && temp == TopOf(d, sentinel)
      requires At(c, d, temp, root, sentinel, Snap(ns))
      ensures DelAt(c, d, hh, Fill(c, d), temp, root, sentinel, ns, Snap(ns))
    {
    }

    lemma StillSorted(ks: KeyMap, pre: seq<Node>, node: Node, post: seq<Node>)
      requires InOrder(shape) == pre + post && ks.Keys == Nodes(shape) + {node}
      requires forall n :: n in Nodes(shape) ==> ks[n] == n.key
      ensures Sorted(order, ks, pre + [node] + post) ==> IsSorted()
    {
      if Sorted(order, ks, pre + [node] + post) { SortedWithout(order, ks, NodeKeys(), node, pre, post); }
    }
  }
}
