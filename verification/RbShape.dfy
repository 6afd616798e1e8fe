/** Node objects of the nginx red-black tree, and the pure shapes that describe a heap of them. */
module RbShape {

  /** Keys are C `unsigned int`. */
  type Key = k: int | 0 <= k < 0x1_0000_0000

  type Byte = b: int | 0 <= b < 0x100

  /** A node; `name` stands for the resolver record the node is embedded in. */
  class Node {
    var key: Key
    var left: Node?
    var right: Node?
    var parent: Node?
    var red: bool
    const name: seq<Byte>

    constructor (key: Key, name: seq<Byte>)
      ensures this.key == key && this.name == name
    {
      this.key, this.name := key, name;
      left, right, parent, red := null, null, null, false;
    }
  }

  /** A (sub)tree: which nodes hang where, and their colours. `Leaf` is the sentinel. */
  datatype Shape = Leaf | Br(l: Shape, nd: Node, red: bool, r: Shape)

  /** The path from a position up to the root; `sib` is the subtree on the other side. */
  datatype Ctx = Top | In(up: Ctx, nd: Node, red: bool, sib: Shape, onLeft: bool)

  // ---------- contents ----------

  ghost function Nodes(t: Shape): set<Node> {
    match t
    case Leaf => {}
    case Br(l, nd, _, r) => Nodes(l) + {nd} + Nodes(r)
  }

  ghost function CNodes(c: Ctx): set<Node> {
    match c
    case Top => {}
    case In(up, nd, _, sib, _) => CNodes(up) + {nd} + Nodes(sib)
  }

  /** The in-order sequence of nodes. */
  ghost function InOrder(t: Shape): seq<Node> {
    match t
    case Leaf => []
    case Br(l, nd, _, r) => InOrder(l) + [nd] + InOrder(r)
  }

  /** What precedes (follows) the position in order. */
  ghost function Pre(c: Ctx): seq<Node> {
    match c
    case Top => []
    case In(up, nd, _, sib, onLeft) => if onLeft then Pre(up) else Pre(up) + InOrder(sib) + [nd]
  }

  ghost function Post(c: Ctx): seq<Node> {
    match c
    case Top => []
    case In(up, nd, _, sib, onLeft) => if onLeft then [nd] + InOrder(sib) + Post(up) else Post(up)
  }

  /** No node occurs twice. */
  ghost predicate Distinct(t: Shape) {
    match t
    case Leaf => true
    case Br(l, nd, _, r) =>
      Distinct(l) && Distinct(r) && nd !in Nodes(l) && nd !in Nodes(r) && Nodes(l) !! Nodes(r)
  }

  ghost predicate CDistinct(c: Ctx) {
    match c
    case Top => true
    case In(up, nd, _, sib, _) =>
      CDistinct(up) && Distinct(sib) && nd !in CNodes(up) && nd !in Nodes(sib) && CNodes(up) !! Nodes(sib)
  }

  ghost predicate Apart(c: Ctx, t: Shape) {
    CDistinct(c) && Distinct(t) && CNodes(c) !! Nodes(t)
  }

  ghost function Up(c: Ctx, t: Shape): Shape
    requires c.In?
  {
    if c.onLeft then Br(t, c.nd, c.red, c.sib) else Br(c.sib, c.nd, c.red, t)
  }

  /** The whole tree with `t` at the position. */
  ghost function Fill(c: Ctx, t: Shape): Shape {
    if c.Top? then t else Fill(c.up, Up(c, t))
  }

  lemma {:induction false} FillNodes(c: Ctx, t: Shape)
    ensures Nodes(Fill(c, t)) == CNodes(c) + Nodes(t)
  {
    if c.In? { FillNodes(c.up, Up(c, t)); }
  }

  lemma Regroup<T>(a: seq<T>, b: seq<T>, c: seq<T>, d: seq<T>, e: seq<T>)
    ensures a + (b + c + d) + e == a + b + (c + d + e)
    ensures a + (b + c + d) + e == (a + b + c) + d + e
  {
  }

  lemma {:induction false} FillOrder(c: Ctx, t: Shape)
    ensures InOrder(Fill(c, t)) == Pre(c) + InOrder(t) + Post(c)
  {
    if c.In? {
      FillOrder(c.up, Up(c, t));
      if c.onLeft {
        Regroup(Pre(c.up), InOrder(t), [c.nd], InOrder(c.sib), Post(c.up));
      } else {
        Regroup(Pre(c.up), InOrder(c.sib), [c.nd], InOrder(t), Post(c.up));
      }
    } else {
      assert [] + InOrder(t) + [] == InOrder(t);
    }
  }

  lemma {:induction false} FillDistinct(c: Ctx, t: Shape)
    ensures Distinct(Fill(c, t)) <==> Apart(c, t)
  {
    if c.In? {
      FillDistinct(c.up, Up(c, t));
      assert Apart(c.up, Up(c, t)) <==> Apart(c, t);
    }
  }

  // ---------- colours ----------

  predicate IsRed(t: Shape) { t.Br? && t.red }

  /** A red-black tree of black height `h`; its root may be red. */
  ghost predicate RB(t: Shape, h: int) {
    match t
    case Leaf => h == 0
    case Br(l, nd, red, r) =>
      if red then RB(l, h) && RB(r, h) && !IsRed(l) && !IsRed(r)
      else RB(l, h - 1) && RB(r, h - 1)
  }

  /** Putting a tree of black height `h` whose root has colour `red` here gives a red-black tree. */
  ghost predicate CtxRB(c: Ctx, h: int, red: bool) {
    match c
    case Top => !red
    case In(up, nd, ndRed, sib, _) =>
      && (ndRed ==> !red && !IsRed(sib))
      && RB(sib, h)
      && CtxRB(up, if ndRed then h else h + 1, ndRed)
  }

  ghost function BH(t: Shape): int {
    match t
    case Leaf => 0
    case Br(l, _, red, _) => if red then BH(l) else BH(l) + 1
  }

  lemma {:induction false} BHUnique(t: Shape, h: int)
    requires RB(t, h)
    ensures h == BH(t) && h >= 0
  {
    if t.Br? { BHUnique(t.l, if t.red then h else h - 1); }
  }

  /** The invariant of the whole tree: black root, no red node with a red child, equal black heights. */
  ghost predicate RedBlack(t: Shape) {
    !IsRed(t) && RB(t, BH(t))
  }

  lemma {:induction false} FillRB(c: Ctx, t: Shape, h: int)
    requires RB(t, h) && CtxRB(c, h, IsRed(t))
    ensures RedBlack(Fill(c, t))
  {
    if c.Top? { BHUnique(t, h); } else { FillRB(c.up, Up(c, t), if c.red then h else h + 1); }
  }

  /** Conversely a red-black tree can be opened at any position. */
  lemma {:induction false} OpenRB(c: Ctx, t: Shape) returns (h: int)
    requires RedBlack(Fill(c, t))
    ensures RB(t, h) && CtxRB(c, h, IsRed(t))
  {
    if c.Top? {
      h := BH(t);
    } else {
      var h' := OpenRB(c.up, Up(c, t));
      h := if c.red then h' else h' - 1;
    }
  }

  lemma {:induction false} Locate(t: Shape, n: Node) returns (c: Ctx, s: Shape)
    requires n in Nodes(t)
    ensures Fill(c, s) == t && s.Br? && s.nd == n
  {
    c, s := LocateIn(Top, t, n);
  }

  lemma {:induction false} LocateIn(c0: Ctx, t: Shape, n: Node) returns (c: Ctx, s: Shape)
    requires n in Nodes(t)
    ensures Fill(c, s) == Fill(c0, t) && s.Br? && s.nd == n
    decreases t
  {
    if t.nd == n { c, s := c0, t; }
    else if n in Nodes(t.l) { c, s := LocateIn(In(c0, t.nd, t.red, t.r, true), t.l, n); }
    else { c, s := LocateIn(In(c0, t.nd, t.red, t.l, false), t.r, n); }
  }

  // ---------- height ----------

  ghost function Height(t: Shape): nat {
    match t
    case Leaf => 0
    case Br(l, _, _, r) => 1 + (if Height(l) < Height(r) then Height(r) else Height(l))
  }

  ghost function Pow2(n: nat): nat { if n == 0 then 1 else 2 * Pow2(n - 1) }

  lemma {:induction false} HeightVsBlack(t: Shape, h: int)
    requires RB(t, h)
    ensures h >= 0
    ensures Height(t) <= 2 * h + (if IsRed(t) then 1 else 0)
    ensures |InOrder(t)| + 1 >= Pow2(h)
  {
    if t.Br? {
      var h' := if t.red then h else h - 1;
      HeightVsBlack(t.l, h');
      HeightVsBlack(t.r, h');
    }
  }

  lemma {:induction false} Pow2Double(h: nat)
    ensures Pow2(2 * h) == Pow2(h) * Pow2(h)
  {
    if h > 0 {
      Pow2Double(h - 1);
      assert Pow2(2 * h) == 4 * Pow2(2 * (h - 1)) by { assert 2 * h - 2 == 2 * (h - 1); }
      var p := Pow2(h - 1);
      assert (2 * p) * (2 * p) == 4 * (p * p);
    }
  }

  lemma {:induction false} Pow2Mono(a: nat, b: nat)
    requires a <= b
    ensures Pow2(a) <= Pow2(b)
    decreases b - a
  {
    if a < b { Pow2Mono(a + 1, b); }
  }

  /** Height at most 2 log2(n + 1). */
  lemma HeightBound(t: Shape)
    requires RedBlack(t)
    ensures var n := |InOrder(t)|; Pow2(Height(t)) <= (n + 1) * (n + 1)
  {
    var h := BH(t);
    HeightVsBlack(t, h);
    Pow2Double(h);
    Pow2Mono(Height(t), 2 * h);
    SquareMono(Pow2(h), |InOrder(t)| + 1);
  }

  lemma SquareMono(p: nat, m: nat)
    requires p <= m
    ensures p * p <= m * m
  {
    assert p * p <= p * m <= m * m;
  }
}
