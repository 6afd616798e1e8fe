/** What users of the tree rely on: the resolver's name lookup, the earliest timer, and tearing the tree down. */
module RbClient {
  import opened RbShape
  import opened RbHeap
  import opened RbDelete
  import opened RbOrder
  import opened RbTree
  import C = Crc32

  /** The node the resolver looks for. */
  predicate IsRecord(n: Node, name: seq<Byte>, hash: Key)
    reads n`key
  {
    n.key == hash && n.name == name
  }

  /** How a lookup compares with a node's (hash, name) pair. */
  function Compare(name: seq<Byte>, hash: Key, key: Key, other: seq<Byte>): int {
    if hash < key then -1 else if hash > key then 1 else Memn2Cmp(name, other)
  }

  /** In a sorted tree a lookup that goes left of `x` cannot miss a record on the right, and vice versa. */
  lemma SideIsSafe(ks: KeyMap, x: Node, l: seq<Node>, r: seq<Node>, name: seq<Byte>, hash: Key, e: Node)
    requires x in ks && e in ks && Sorted(Resolver, ks, l + [x] + r) && ks[e] == hash && e.name == name
    ensures e in r ==> Compare(name, hash, ks[x], x.name) >= 0
    ensures e in l ==> Compare(name, hash, ks[x], x.name) <= 0
    ensures Compare(name, hash, ks[x], x.name) == 0 ==> ks[x] == hash && x.name == name
  {
    var q := l + [x] + r;
    Memn2CmpIsLex(name, x.name);
    Memn2CmpIsLex(x.name, name);
    assert q[|l|] == x;
    if e in r { var j :| 0 <= j < |r| && r[j] == e; assert q[|l| + 1 + j] == e; }
    if e in l { var j :| 0 <= j < |l| && l[j] == e; assert q[j] == e; }
  }

  lemma SortedParts(ord: Order, ks: KeyMap, l: seq<Node>, x: Node, r: seq<Node>)
    requires Sorted(ord, ks, l + [x] + r)
    ensures Sorted(ord, ks, l) && Sorted(ord, ks, r)
  {
    var q := l + [x] + r;
    assert forall i :: 0 <= i < |l| ==> q[i] == l[i];
    assert forall i :: 0 <= i < |r| ==> q[|l| + 1 + i] == r[i];
  }

  /** One step of the lookup: every record still lies below the child the code steps to. */
  lemma LookupStep(ks: KeyMap, t: Shape, name: seq<Byte>, hash: Key)
    requires t.Br? && Nodes(t) <= ks.Keys && Sorted(Resolver, ks, InOrder(t))
    ensures Sorted(Resolver, ks, InOrder(t.l)) && Sorted(Resolver, ks, InOrder(t.r))
    ensures Compare(name, hash, ks[t.nd], t.nd.name) == 0 <==> ks[t.nd] == hash && t.nd.name == name
    ensures forall e :: e in Nodes(t) && ks[e] == hash && e.name == name ==>
      var d := Compare(name, hash, ks[t.nd], t.nd.name);
      if d == 0 then true else if d < 0 then e in Nodes(t.l) else e in Nodes(t.r)
  {
    SortedParts(Resolver, ks, InOrder(t.l), t.nd, InOrder(t.r));
    Memn2CmpIsLex(name, t.nd.name);
    forall e | e in Nodes(t) && ks[e] == hash && e.name == name
      ensures var d := Compare(name, hash, ks[t.nd], t.nd.name);
        if d == 0 then true else if d < 0 then e in Nodes(t.l) else e in Nodes(t.r)
    {
      OrderNodes(t.l);
      OrderNodes(t.r);
      SideIsSafe(ks, t.nd, InOrder(t.l), InOrder(t.r), name, hash, e);
    }
  }

  /** ngx_resolver_lookup_name: finds a record exactly when the tree holds one. */
  method Lookup(tree: Tree, name: seq<Byte>, hash: Key) returns (r: Node?)
    requires tree.Valid() && tree.order == Resolver && tree.IsSorted()
    ensures r != null ==> r in Nodes(tree.shape) && IsRecord(r, name, hash)
    ensures r == null ==> forall n :: n in Nodes(tree.shape) ==> !IsRecord(n, name, hash)
  {
    hide At, Sorted, Memn2Cmp;
    var node: Node := tree.root;
    var sentinel := tree.sentinel;
    ghost var c, t, ks, h := Top, tree.shape, tree.NodeKeys(), Snap(Nodes(tree.shape));
    TopNode(tree.shape, tree.root, sentinel, h);
    while node != sentinel
      invariant At(c, t, node, tree.root, sentinel, h) && node == TopOf(t, sentinel) && (t.Leaf? <==> node == sentinel)
      invariant Fill(c, t) == tree.shape && Nodes(t) <= Nodes(tree.shape)
      invariant Sorted(Resolver, ks, InOrder(t))
      invariant forall n :: n in Nodes(tree.shape) && ks[n] == hash && n.name == name ==> n in Nodes(t)
      decreases t
    {
      LookupStep(ks, t, name, hash);
      LookDown(c, t, true, tree.root, sentinel, h);
      LookDown(c, t, false, tree.root, sentinel, h);
      NotSentinel(DownC(c, t, true), t.l, tree.root, sentinel, h);
      NotSentinel(DownC(c, t, false), t.r, tree.root, sentinel, h);
      if hash < node.key {
        node := node.left;
        c, t := DownC(c, t, true), t.l;
        continue;
      }
      if hash > node.key {
        node := node.right;
        c, t := DownC(c, t, false), t.r;
        continue;
      }
      var rc := Memn2Cmp(name, node.name);
      if rc == 0 {
        return node;
      }
      if rc < 0 {
        node := node.left;
        c, t := DownC(c, t, true), t.l;
      } else {
        node := node.right;
        c, t := DownC(c, t, false), t.r;
      }
    }
    return null;
  }

  lemma TopNode(t: Shape, root: Node, s: Node, h: Heap)
    requires At(Top, t, root, root, s, h)
    ensures root == TopOf(t, s) && (t.Leaf? <==> root == s)
  {
  }

  lemma {:induction false} AllAllocated(t: Shape)
    ensures forall n :: n in Nodes(t) ==> allocated(n)
  {
    if t.Br? { AllAllocated(t.l); AllAllocated(t.r); }
  }

  // ---------- records are filed under the CRC-32 of their names ----------

  /** A byte as memcmp sees it. */
  function ToByte(b: bv8): Byte { b as int }

  lemma ByteOne(a: bv8, b: bv8)
    requires ToByte(a) == ToByte(b)
    ensures a == b
  {
  }

  function NameOf(p: seq<bv8>): seq<Byte> { seq(|p|, i requires 0 <= i < |p| => ToByte(p[i])) }

  lemma NameOne(p: seq<bv8>, q: seq<bv8>)
    requires NameOf(p) == NameOf(q)
    ensures p == q
  {
    hide ToByte;
    forall i | 0 <= i < |p| ensures p[i] == q[i] {
      assert NameOf(p)[i] == NameOf(q)[i];
      ByteOne(p[i], q[i]);
    }
  }

  function ToKey(c: bv32): Key { c as int }

  /** The key is the CRC-32 of the name. */
  ghost predicate FiledAs(key: Key, name: seq<Byte>) {
    exists q :: NameOf(q) == name && key == ToKey(C.Crc(q))
  }

  lemma FiledOnce(key: Key, p: seq<bv8>)
    ensures FiledAs(key, NameOf(p)) <==> key == ToKey(C.Crc(p))
  {
    hide C.Crc, ToKey;
    if FiledAs(key, NameOf(p)) {
      var q :| NameOf(q) == NameOf(p) && key == ToKey(C.Crc(q));
      NameOne(p, q);
    }
  }

  ghost predicate Filed(tree: Tree)
    reads tree, Nodes(tree.shape)`key
  {
    forall n :: n in Nodes(tree.shape) ==> FiledAs(n.key, n.name)
  }

  /** The end of `insert`, with the hash that has been computed. */
  method InsertHashed(tree: Tree, name: seq<Byte>, hash: Key) returns (node: Node)
    requires tree.Valid() && tree.order == Resolver && tree.IsSorted() && Filed(tree) && FiledAs(hash, name)
    modifies tree`root, tree`shape
    modifies Nodes(tree.shape)`left, Nodes(tree.shape)`right, Nodes(tree.shape)`parent, Nodes(tree.shape)`red
    ensures tree.Valid() && tree.IsSorted() && Filed(tree) && fresh(node) && IsRecord(node, name, hash)
    ensures Nodes(tree.shape) == old(Nodes(tree.shape)) + {node}
  {
    hide FiledAs;
    AllAllocated(tree.shape);
    node := new Node(hash, name);
    ghost var pre, post := tree.Insert(node);
    ResolverCoherent(tree.NodeKeys());
  }

  /** `insert` of the resolver: a fresh record, filed under the CRC-32 of its name. */
  method InsertName(tree: Tree, crc: C.ShortTable, p: array<bv8>, len: nat) returns (node: Node)
    requires tree.Valid() && tree.order == Resolver && tree.IsSorted() && Filed(tree)
    requires crc.Valid() && len <= p.Length
    modifies tree`root, tree`shape
    modifies Nodes(tree.shape)`left, Nodes(tree.shape)`right, Nodes(tree.shape)`parent, Nodes(tree.shape)`red
    ensures tree.Valid() && tree.IsSorted() && Filed(tree) && fresh(node)
    ensures IsRecord(node, NameOf(p[..len]), ToKey(C.Crc(p[..len])))
    ensures Nodes(tree.shape) == old(Nodes(tree.shape)) + {node}
  {
    hide C.Crc, ToKey, NameOf, FiledAs, Tree.Valid, Tree.IsSorted, Nodes, IsRecord;
    AllAllocated(tree.shape);
    ghost var name := p[..len];
    var hash := crc.CrcShort(p, len);
    FiledOnce(ToKey(hash), name);
    node := InsertHashed(tree, NameOf(p[..len]), ToKey(hash));
  }

  /** A lookup by name, as `main` does it: it finds a record exactly when the tree holds one of that name. */
  method FindName(tree: Tree, crc: C.ShortTable, p: array<bv8>, len: nat) returns (r: Node?)
    requires tree.Valid() && tree.order == Resolver && tree.IsSorted() && Filed(tree)
    requires crc.Valid() && len <= p.Length
    ensures r != null ==> r in Nodes(tree.shape) && r.name == NameOf(p[..len])
    ensures r == null <==> forall n :: n in Nodes(tree.shape) ==> n.name != NameOf(p[..len])
  {
    hide C.Crc, ToKey, NameOf, FiledAs, Tree.Valid, Tree.IsSorted, Nodes;
    AllAllocated(tree.shape);
    var hash := crc.CrcShort(p, len);
    forall n | n in Nodes(tree.shape) && n.name == NameOf(p[..len]) ensures n.key == ToKey(hash) {
      FiledOnce(n.key, p[..len]);
    }
    r := Lookup(tree, NameOf(p[..len]), ToKey(hash));
  }

  /** The first node of the whole tree. */
  method First(tree: Tree) returns (node: Node)
    requires tree.Valid() && tree.root != tree.sentinel
    ensures node in Nodes(tree.shape) && InOrder(tree.shape) != [] && node == InOrder(tree.shape)[0]
  {
    tree.RootShape();
    ghost var sp, m;
    node, sp, m := Min(tree.root, tree.sentinel, Top, tree.shape, tree.root, Nodes(tree.shape));
    SpineFirst(sp, m);
    FillNodes(sp, m);
  }

  lemma SpineFirst(sp: Ctx, m: Shape)
    requires Spine(sp) && m.Br? && m.l == Leaf
    ensures InOrder(Fill(sp, m)) != [] && InOrder(Fill(sp, m))[0] == m.nd
  {
    FillOrder(sp, m);
    SpinePre(sp, Top);
    PlusTop(sp);
  }

  /** Timer keys: while all live keys lie in one window, ngx_rbtree_min finds the earliest deadline. */
  method EarliestTimer(tree: Tree, ghost start: Key) returns (node: Node)
    requires tree.Valid() && tree.root != tree.sentinel && tree.order == Timer && tree.IsSorted()
    requires Window(tree.NodeKeys(), start)
    ensures node in Nodes(tree.shape)
    ensures forall n :: n in Nodes(tree.shape) ==> Unwrapped(node.key, start) <= Unwrapped(n.key, start)
  {
    hide Unwrapped, TimerLess, At, Sorted, Nodes, InOrder, RedBlack;
    AllAllocated(tree.shape);
    ghost var ks := tree.NodeKeys();
    tree.RootShape();
    node := First(tree);
    FirstIsEarliest(tree.shape, tree.NodeKeys(), start);
  }

  lemma FirstIsEarliest(t: Shape, ks: KeyMap, start: Key)
    requires t.Br? && Nodes(t) == ks.Keys && Sorted(Timer, ks, InOrder(t)) && Window(ks, start)
    ensures InOrder(t)[0] in ks
    ensures forall n :: n in ks ==> Unwrapped(ks[InOrder(t)[0]], start) <= Unwrapped(ks[n], start)
  {
    hide Unwrapped, TimerLess, Distinct;
    var q := InOrder(t);
    OrderNodes(t);
    forall n | n in ks ensures Unwrapped(ks[q[0]], start) <= Unwrapped(ks[n], start) {
      var j :| 0 <= j < |q| && q[j] == n;
      TimerIsUnwrapped(ks[n], ks[q[0]], start);
      if j > 0 { assert !Before(Timer, ks, q[j], q[0]); }
    }
  }

  /** Inserting a timer inside the window keeps the sequence sorted by unwrapped time. */
  method InsertTimer(tree: Tree, node: Node, ghost start: Key)
    requires tree.Valid() && tree.order == Timer && tree.IsSorted() && node !in Nodes(tree.shape)
      && node != tree.sentinel
    requires Window(tree.NodeKeys(), start) && Unwrapped(node.key, start) < 0x8000_0000
    modifies tree`root, tree`shape, Nodes(tree.shape)`left, Nodes(tree.shape)`right, Nodes(tree.shape)`parent,
      Nodes(tree.shape)`red
    modifies node`left, node`right, node`parent, node`red
    ensures tree.Valid() && tree.IsSorted() && Nodes(tree.shape) == old(Nodes(tree.shape)) + {node}
    ensures Window(tree.NodeKeys(), start)
  {
    hide Unwrapped, TimerLess, At, Sorted, Nodes, InOrder, RedBlack, Coherent, Fits;
    AllAllocated(tree.shape);
    ghost var ks := tree.NodeKeys();
    ghost var pre, post := tree.Insert(node);
    assert forall n :: n in tree.NodeKeys() ==> n in ks || n == node;
    TimerCoherent(tree.NodeKeys(), start);
  }

  /** `deinit`: the tree ends up empty, and the nodes leave it in order. */
  method Deinit(tree: Tree) returns (ghost freed: seq<Node>)
    requires tree.Valid()
    modifies tree`root, tree`shape, Nodes(tree.shape), tree.sentinel`parent, tree.sentinel`red
    ensures tree.Valid() && tree.root == tree.sentinel && tree.shape == Leaf
    ensures freed == old(InOrder(tree.shape))
  {
    hide At, Nodes, InOrder, RedBlack;
    freed := [];
    ghost var ns := Nodes(tree.shape);
    ghost var whole := InOrder(tree.shape);
    while tree.root != tree.sentinel
      invariant tree.Valid() && Nodes(tree.shape) <= ns
      invariant freed + InOrder(tree.shape) == whole
      decreases |InOrder(tree.shape)|
    {
      AllAllocated(tree.shape);
      DistinctOrder(tree);
      var rn := First(tree);
      ghost var q := InOrder(tree.shape);
      ghost var pre, post := tree.Delete(rn);
      PrefixEmpty(q, pre, rn, post);
      freed := freed + [rn];
    }
    tree.EmptyShape();
  }

  ghost predicate NoRepeat(q: seq<Node>) {
    forall i, j :: 0 <= i < j < |q| ==> q[i] != q[j]
  }

  lemma {:induction false} OrderDistinct(t: Shape)
    requires Distinct(t)
    ensures NoRepeat(InOrder(t))
  {
    if t.Br? {
      OrderDistinct(t.l);
      OrderDistinct(t.r);
      OrderNodes(t.l);
      OrderNodes(t.r);
      var l, r := InOrder(t.l), InOrder(t.r);
      forall i, j | 0 <= i < j < |InOrder(t)| ensures InOrder(t)[i] != InOrder(t)[j] {
        assert i < |l| ==> l[i] in Nodes(t.l);
        assert j > |l| ==> r[j - |l| - 1] in Nodes(t.r);
      }
    }
  }

  lemma DistinctOrder(tree: Tree)
    requires tree.Valid()
    ensures NoRepeat(InOrder(tree.shape))
  {
    OrderDistinct(tree.shape);
  }

  lemma PrefixEmpty(q: seq<Node>, pre: seq<Node>, n: Node, post: seq<Node>)
    requires q == pre + [n] + post && q[0] == n
    requires NoRepeat(q)
    ensures pre == [] && q == [n] + post && pre + post == post
  {
    assert q[|pre|] == n;
  }

  /** A tree of n nodes has height at most 2 log2(n + 1). */
  lemma TreeHeight(tree: Tree)
    requires tree.Valid()
    ensures var n := |InOrder(tree.shape)|; Pow2(Height(tree.shape)) <= (n + 1) * (n + 1)
  {
    HeightBound(tree.shape);
  }
}
