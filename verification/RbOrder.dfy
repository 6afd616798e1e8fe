/** The three insertion orders of the tree: plain keys, wrapping timer keys, and (hash, name) pairs. */
module RbOrder {
  import opened RbShape

  datatype Order = Plain | Timer | Resolver

  /** memcmp on the first `n` bytes: the difference at the first byte that differs. */
  function MemCmp(a: seq<Byte>, b: seq<Byte>, n: nat): int
    requires n <= |a| && n <= |b|
    decreases n
  {
    if n == 0 then 0
    else if a[0] != b[0] then a[0] - b[0]
    else MemCmp(a[1..], b[1..], n - 1)
  }

  /** ngx_memn2cmp. */
  function Memn2Cmp(s1: seq<Byte>, s2: seq<Byte>): int {
    var n, z := if |s1| <= |s2| then |s1| else |s2|, if |s1| <= |s2| then -1 else 1;
    var m := MemCmp(s1, s2, n);
    if m != 0 || |s1| == |s2| then m else z
  }

  /** Dictionary order on byte strings: a proper prefix comes first. */
  predicate LexLess(a: seq<Byte>, b: seq<Byte>) {
    b != [] && (a == [] || a[0] < b[0] || (a[0] == b[0] && LexLess(a[1..], b[1..])))
  }

  lemma {:induction false} Memn2CmpIsLex(a: seq<Byte>, b: seq<Byte>)
    ensures Memn2Cmp(a, b) < 0 <==> LexLess(a, b)
    ensures Memn2Cmp(a, b) > 0 <==> LexLess(b, a)
    ensures Memn2Cmp(a, b) == 0 <==> a == b
  {
    if a != [] && b != [] && a[0] == b[0] {
      Memn2CmpTail(a, b);
      Memn2CmpIsLex(a[1..], b[1..]);
      assert a == [a[0]] + a[1..] && b == [b[0]] + b[1..];
    } else if a == [] || b == [] {
      assert MemCmp(a, b, 0) == 0;
    }
  }

  lemma Memn2CmpTail(a: seq<Byte>, b: seq<Byte>)
    requires a != [] && b != [] && a[0] == b[0]
    ensures Memn2Cmp(a, b) == Memn2Cmp(a[1..], b[1..])
  {
  }

  lemma {:induction false} LexNegTrans(a: seq<Byte>, b: seq<Byte>, c: seq<Byte>)
    requires LexLess(a, c)
    ensures LexLess(a, b) || LexLess(b, c)
  {
    if a != [] && b != [] && a[0] == b[0] == c[0] { LexNegTrans(a[1..], b[1..], c[1..]); }
  }

  /** `(ngx_rbtree_key_int_t) (a - b) < 0` on 32-bit unsigned keys. */
  predicate TimerLess(a: Key, b: Key) { (a - b) % 0x1_0000_0000 >= 0x8000_0000 }

  /** The keys of a set of nodes at some moment. */
  type KeyMap = map<Node, Key>

  ghost function Keys(ns: set<Node>): (ks: KeyMap)
    reads ns`key
    ensures ks.Keys == ns
  {
    map n | n in ns :: n.key
  }

  /** Whether the insertion routines send `a` to the left of `b`. */
  ghost predicate Before(ord: Order, ks: KeyMap, a: Node, b: Node) {
    a in ks && b in ks && match ord
      case Plain => ks[a] < ks[b]
      case Timer => TimerLess(ks[a], ks[b])
      case Resolver => ks[a] < ks[b] || (ks[a] == ks[b] && Memn2Cmp(a.name, b.name) < 0)
  }

  /** In-order sequences are non-decreasing. */
  ghost predicate Sorted(ord: Order, ks: KeyMap, q: seq<Node>) {
    forall i, j :: 0 <= i < j < |q| ==> !Before(ord, ks, q[j], q[i])
  }

  /** The comparison is a strict weak order on these keys. */
  ghost predicate Coherent(ord: Order, ks: KeyMap) {
    && (forall a, b :: a in ks && b in ks && Before(ord, ks, a, b) ==> !Before(ord, ks, b, a))
    && (forall a, b, c :: a in ks && b in ks && c in ks && Before(ord, ks, a, c) ==>
        Before(ord, ks, a, b) || Before(ord, ks, b, c))
  }

  lemma PlainCoherent(ks: KeyMap)
    ensures Coherent(Plain, ks)
  {
  }

  lemma ResolverCoherent(ks: KeyMap)
    ensures Coherent(Resolver, ks)
  {
    forall a, b | a in ks && b in ks && Before(Resolver, ks, a, b) ensures !Before(Resolver, ks, b, a) {
      Memn2CmpIsLex(a.name, b.name);
      Memn2CmpIsLex(b.name, a.name);
    }
    forall a, b, c | a in ks && b in ks && c in ks && Before(Resolver, ks, a, c)
      ensures Before(Resolver, ks, a, b) || Before(Resolver, ks, b, c)
    {
      Memn2CmpIsLex(a.name, b.name);
      Memn2CmpIsLex(b.name, c.name);
      Memn2CmpIsLex(a.name, c.name);
      if LexLess(a.name, c.name) { LexNegTrans(a.name, b.name, c.name); }
    }
  }

  /** Ticks after `start`, counting modulo 2^32. */
  function Unwrapped(k: Key, start: Key): int { (k - start) % 0x1_0000_0000 }

  /** All keys lie within fewer than 2^31 ticks after `start`. */
  ghost predicate Window(ks: KeyMap, start: Key) {
    forall n :: n in ks ==> Unwrapped(ks[n], start) < 0x8000_0000
  }

  /** Inside a window the wrapping comparison compares unwrapped times. */
  lemma TimerIsUnwrapped(a: Key, b: Key, start: Key)
    requires Unwrapped(a, start) < 0x8000_0000 && Unwrapped(b, start) < 0x8000_0000
    ensures TimerLess(a, b) <==> Unwrapped(a, start) < Unwrapped(b, start)
  {
    var w := 0x1_0000_0000;
    var d := Unwrapped(a, start) - Unwrapped(b, start);
    assert (a - b) % w == d % w;
  }

  lemma TimerCoherent(ks: KeyMap, start: Key)
    requires Window(ks, start)
    ensures Coherent(Timer, ks)
  {
    forall a, b | a in ks && b in ks
      ensures Before(Timer, ks, a, b) <==> Unwrapped(ks[a], start) < Unwrapped(ks[b], start)
    {
      TimerIsUnwrapped(ks[a], ks[b], start);
    }
  }

  /** Of any of the keys one is not after any other. */
  lemma LeastKey(ks: KeyMap, s: set<Node>) returns (m: Node)
    requires Coherent(Timer, ks) && s <= ks.Keys && s != {}
    ensures m in s && forall n :: n in s ==> !Before(Timer, ks, n, m)
    decreases |s|
  {
    var x :| x in s;
    if s == {x} {
      m := x;
    } else {
      var y := LeastKey(ks, s - {x});
      m := if Before(Timer, ks, x, y) then x else y;
    }
  }

  /** The window cannot be dispensed with: the comparison orders the keys if and only if they lie in one. */
  lemma TimerCoherentIff(ks: KeyMap)
    ensures Coherent(Timer, ks) <==> exists start :: Window(ks, start)
  {
    if start :| Window(ks, start) { TimerCoherent(ks, start); }
    if ks.Keys == {} {
      assert Window(ks, 0);
    } else if Coherent(Timer, ks) {
      var m := LeastKey(ks, ks.Keys);
      forall n | n in ks ensures Unwrapped(ks[n], ks[m]) < 0x8000_0000 { assert !Before(Timer, ks, n, m); }
      assert Window(ks, ks[m]);
    }
  }

  /** Three keys that lie in no window: the comparison is not even transitive on them. */
  lemma TimerNotTransitive()
    ensures TimerLess(0, 0x6000_0000) && TimerLess(0x6000_0000, 0xC000_0000) && !TimerLess(0, 0xC000_0000)
  {
  }

  // ---------- where the descent goes ----------

  /** Everything in `pre` may stay before `n`, everything in `post` must come after it. */
  ghost predicate Fits(ord: Order, ks: KeyMap, n: Node, pre: seq<Node>, post: seq<Node>) {
    && (forall e :: e in pre ==> !Before(ord, ks, n, e))
    && (forall e :: e in post ==> Before(ord, ks, n, e))
  }

  ghost predicate Keyed(ks: KeyMap, q: seq<Node>) { forall e :: e in q ==> e in ks }

  /** One step down: going left past `x` puts `x` and its right subtree behind, and vice versa. */
  lemma FitsStep(ord: Order, ks: KeyMap, n: Node, x: Node, l: seq<Node>, r: seq<Node>, pre: seq<Node>, post: seq<Node>)
    requires Coherent(ord, ks) && n in ks && x in ks && Keyed(ks, l) && Keyed(ks, r)
    requires Sorted(ord, ks, l + [x] + r) && Fits(ord, ks, n, pre, post)
    ensures Sorted(ord, ks, l) && Sorted(ord, ks, r)
    ensures Before(ord, ks, n, x) ==> Fits(ord, ks, n, pre, [x] + r + post)
    ensures !Before(ord, ks, n, x) ==> Fits(ord, ks, n, pre + l + [x], post)
  {
    var q := l + [x] + r;
    assert forall i :: 0 <= i < |l| ==> q[i] == l[i];
    assert forall i :: 0 <= i < |r| ==> q[|l| + 1 + i] == r[i];
    assert q[|l|] == x;
  }

  /** A node that fits between two halves of a sorted sequence keeps it sorted. */
  lemma FitsSorted(ord: Order, ks: KeyMap, n: Node, pre: seq<Node>, post: seq<Node>)
    requires Coherent(ord, ks) && n in ks && Keyed(ks, pre + post)
    requires Sorted(ord, ks, pre + post) && Fits(ord, ks, n, pre, post)
    ensures Sorted(ord, ks, pre + [n] + post)
  {
    var q, q' := pre + post, pre + [n] + post;
    forall i, j | 0 <= i < j < |q'| ensures !Before(ord, ks, q'[j], q'[i]) {
      var i0, j0 := if i <= |pre| then i else i - 1, if j <= |pre| then j else j - 1;
      if i != |pre| && j != |pre| {
        assert q'[i] == q[i0] && q'[j] == q[j0];
      } else if i == |pre| {
        assert q'[j] == q[j0] == post[j0 - |pre|];
      }
    }
  }

  /** Taking a node out keeps a sequence sorted. */
  lemma SortedWithout(ord: Order, ks: KeyMap, ks': KeyMap, n: Node, pre: seq<Node>, post: seq<Node>)
    requires ks'.Keys <= ks.Keys && forall x :: x in ks' ==> ks'[x] == ks[x]
    requires Sorted(ord, ks, pre + [n] + post)
    ensures Sorted(ord, ks', pre + post)
  {
    var q, q' := pre + post, pre + [n] + post;
    forall i, j | 0 <= i < j < |q| ensures !Before(ord, ks', q[j], q[i]) {
      var i0, j0 := if i < |pre| then i else i + 1, if j < |pre| then j else j + 1;
      assert q[i] == q'[i0] && q[j] == q'[j0];
    }
  }
}
