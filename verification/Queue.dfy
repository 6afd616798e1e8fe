/** The circular doubly linked queue of Queue/ngx_queue.h and the routines of Queue/ngx_queue.c. */
module Queue {

  /** ngx_queue_t */
  class Link {
    var prev: Link
    var next: Link

    /** ngx_queue_init */
    constructor ()
      ensures prev == this && next == this && Ring(this, [])
    {
      prev := this;
      next := this;
    }
  }

  // ---------- rings as values ----------

  type Links = map<Link, Link>

  /** Going round from the sentinel `h`: index 0 and index |s| + 1 are the sentinel. */
  function At(h: Link, s: seq<Link>, i: nat): Link {
    if 1 <= i <= |s| then s[i - 1] else h
  }

  ghost function Elems(s: seq<Link>): set<Link> { set l | l in s }

  ghost function Members(h: Link, s: seq<Link>): set<Link> { {h} + Elems(s) }

  ghost predicate Unique(h: Link, s: seq<Link>) {
    h !in s && forall i, j :: 0 <= i < j < |s| ==> s[i] != s[j]
  }

  ghost predicate Joint(h: Link, s: seq<Link>, nx: Links, pv: Links, i: nat) {
    && At(h, s, i) in nx && nx[At(h, s, i)] == At(h, s, i + 1)
    && At(h, s, i + 1) in pv && pv[At(h, s, i + 1)] == At(h, s, i)
  }

  /** The members `s` and the sentinel `h` are linked in a circle, both ways. */
  ghost predicate RingIn(h: Link, s: seq<Link>, nx: Links, pv: Links) {
    Unique(h, s) && forall i: nat :: i <= |s| ==> Joint(h, s, nx, pv, i)
  }

  ghost function Nexts(d: set<Link>): (m: Links)
    reads d`next
    ensures m.Keys == d
  {
    map l | l in d :: l.next
  }

  ghost function Prevs(d: set<Link>): (m: Links)
    reads d`prev
    ensures m.Keys == d
  {
    map l | l in d :: l.prev
  }

  ghost predicate Ring(h: Link, s: seq<Link>)
    reads Members(h, s)
  {
    RingIn(h, s, Nexts(Members(h, s)), Prevs(Members(h, s)))
  }

  function Inserted(s: seq<Link>, k: nat, x: Link): seq<Link>
    requires k <= |s|
  {
    s[..k] + [x] + s[k..]
  }

  function Removed(s: seq<Link>, k: nat): seq<Link>
    requires k < |s|
  {
    s[..k] + s[k + 1..]
  }

  lemma UniqueAt(h: Link, s: seq<Link>, i: nat, j: nat)
    requires Unique(h, s) && i < j <= |s| + 1 && (i > 0 || j <= |s|)
    ensures At(h, s, i) != At(h, s, j)
  {
  }

  lemma InsertedAt(h: Link, s: seq<Link>, k: nat, x: Link, i: nat)
    requires k <= |s| && i <= |s| + 2
    ensures At(h, Inserted(s, k, x), i) == if i <= k then At(h, s, i) else if i == k + 1 then x else At(h, s, i - 1)
  {
  }

  /** Linking `x` in between position `k` and the next. */
  lemma InsertJoins(h: Link, s: seq<Link>, nx: Links, pv: Links, k: nat, x: Link)
    requires RingIn(h, s, nx, pv) && k <= |s| && x !in s && x != h
    ensures var p, n := At(h, s, k), At(h, s, k + 1);
      RingIn(h, Inserted(s, k, x), nx[x := n][p := x], pv[n := x][x := p])
  {
    var p, n, s' := At(h, s, k), At(h, s, k + 1), Inserted(s, k, x);
    var nx', pv' := nx[x := n][p := x], pv[n := x][x := p];
    forall i: nat | i <= |s'| ensures Joint(h, s', nx', pv', i) { InsertJoint(h, s, nx, pv, k, x, i); }
  }

  lemma InsertJoint(h: Link, s: seq<Link>, nx: Links, pv: Links, k: nat, x: Link, i: nat)
    requires RingIn(h, s, nx, pv) && k <= |s| && x !in s && x != h && i <= |s| + 1
    ensures var p, n := At(h, s, k), At(h, s, k + 1);
      Joint(h, Inserted(s, k, x), nx[x := n][p := x], pv[n := x][x := p], i)
  {
    hide Inserted, Unique;
    InsertedAt(h, s, k, x, i);
    InsertedAt(h, s, k, x, i + 1);
    if i < k {
      assert Joint(h, s, nx, pv, i);
      UniqueAt(h, s, i, k);
      UniqueAt(h, s, i + 1, k + 1);
    } else if i > k + 1 {
      assert Joint(h, s, nx, pv, i - 1);
      UniqueAt(h, s, k, i - 1);
      UniqueAt(h, s, k + 1, i);
    }
  }

  lemma RemovedAt(h: Link, s: seq<Link>, k: nat, i: nat)
    requires k < |s| && i <= |s|
    ensures At(h, Removed(s, k), i) == if i <= k then At(h, s, i) else At(h, s, i + 1)
  {
  }

  lemma RemoveJoint(h: Link, s: seq<Link>, nx: Links, pv: Links, k: nat, i: nat)
    requires RingIn(h, s, nx, pv) && k < |s| && i < |s|
    ensures var p, n := At(h, s, k), At(h, s, k + 2); Joint(h, Removed(s, k), nx[p := n], pv[n := p], i)
  {
    hide Removed, Unique;
    RemovedAt(h, s, k, i);
    RemovedAt(h, s, k, i + 1);
    if i < k {
      assert Joint(h, s, nx, pv, i);
      UniqueAt(h, s, i, k);
      UniqueAt(h, s, i + 1, k + 2);
    } else if i > k {
      assert Joint(h, s, nx, pv, i + 1);
      UniqueAt(h, s, k, i + 1);
      UniqueAt(h, s, k + 2, i + 2);
    }
  }

  /** Linking around the member at index `k`. */
  lemma RemoveJoins(h: Link, s: seq<Link>, nx: Links, pv: Links, k: nat)
    requires RingIn(h, s, nx, pv) && k < |s|
    ensures var p, n := At(h, s, k), At(h, s, k + 2); RingIn(h, Removed(s, k), nx[p := n], pv[n := p])
  {
    var s', nx', pv' := Removed(s, k), nx[At(h, s, k) := At(h, s, k + 2)], pv[At(h, s, k + 2) := At(h, s, k)];
    forall i: nat | i <= |s'| ensures Joint(h, s', nx', pv', i) { RemoveJoint(h, s, nx, pv, k, i); }
  }

  /** Links outside the ring do not matter. */
  lemma WideRing(h: Link, s: seq<Link>, d: set<Link>)
    requires Members(h, s) <= d
    ensures Ring(h, s) <==> RingIn(h, s, Nexts(d), Prevs(d))
  {
    var m := Members(h, s);
    forall i: nat | i <= |s| ensures Joint(h, s, Nexts(d), Prevs(d), i) <==> Joint(h, s, Nexts(m), Prevs(m), i) {
      assert At(h, s, i) in m && At(h, s, i + 1) in m;
    }
  }

  lemma Neighbours(h: Link, s: seq<Link>, i: nat)
    requires Ring(h, s) && i <= |s|
    ensures At(h, s, i).next == At(h, s, i + 1) && At(h, s, i + 1).prev == At(h, s, i)
    ensures At(h, s, i) in Members(h, s) && At(h, s, i + 1) in Members(h, s)
  {
    assert Joint(h, s, Nexts(Members(h, s)), Prevs(Members(h, s)), i);
  }

  // ---------- the macros ----------

  /** ngx_queue_insert_after and ngx_queue_insert_head: `p` is at position `k`. */
  method InsertAfter(p: Link, x: Link, ghost h: Link, ghost s: seq<Link>, ghost k: nat)
    requires Ring(h, s) && k <= |s| && p == At(h, s, k) && x !in s && x != h
    modifies Members(h, s), x
    ensures Ring(h, Inserted(s, k, x))
  {
    hide Ring, RingIn, Members, At, Inserted;
    ghost var d := Members(h, s) + {x};
    WideRing(h, s, d);
    Neighbours(h, s, k);
    ghost var nx: Links, pv: Links, n: Link := Nexts(d), Prevs(d), p.next;
    InsertJoins(h, s, nx, pv, k, x);
    MembersInserted(h, s, k, x);
    x.next := p.next;
    x.next.prev := x;
    x.prev := p;
    p.next := x;
    assert Nexts(d) == nx[x := n][p := x] && Prevs(d) == pv[n := x][x := p];
    WideRing(h, Inserted(s, k, x), d);
  }

  /** ngx_queue_insert_tail */
  method InsertTail(h: Link, x: Link, ghost s: seq<Link>)
    requires Ring(h, s) && x !in s && x != h
    modifies Members(h, s), x
    ensures Ring(h, s + [x])
  {
    hide Ring, RingIn, Members;
    ghost var d := Members(h, s) + {x};
    WideRing(h, s, d);
    Neighbours(h, s, |s|);
    ghost var nx: Links, pv: Links, p: Link := Nexts(d), Prevs(d), h.prev;
    InsertJoins(h, s, nx, pv, |s|, x);
    MembersInserted(h, s, |s|, x);
    assert Inserted(s, |s|, x) == s + [x];
    x.prev := h.prev;
    x.prev.next := x;
    x.next := h;
    h.prev := x;
    assert Nexts(d) == nx[x := h][p := x] && Prevs(d) == pv[h := x][x := p];
    WideRing(h, s + [x], d);
  }

  /** ngx_queue_remove */
  method Remove(x: Link, ghost h: Link, ghost s: seq<Link>, ghost k: nat)
    requires Ring(h, s) && k < |s| && x == s[k]
    modifies Members(h, s)
    ensures Ring(h, Removed(s, k))
  {
    hide Ring, RingIn, Members, Removed;
    ghost var d := Members(h, s);
    WideRing(h, s, d);
    Neighbours(h, s, k);
    Neighbours(h, s, k + 1);
    ghost var nx: Links, pv: Links, p: Link, n: Link := Nexts(d), Prevs(d), x.prev, x.next;
    RemoveJoins(h, s, nx, pv, k);
    MembersRemoved(h, s, k);
    x.next.prev := x.prev;
    x.prev.next := x.next;
    assert Nexts(d) == nx[p := n] && Prevs(d) == pv[n := p];
    WideRing(h, Removed(s, k), d);
  }

  lemma MembersInserted(h: Link, s: seq<Link>, k: nat, x: Link)
    requires k <= |s|
    ensures Members(h, Inserted(s, k, x)) == Members(h, s) + {x}
  {
  }

  lemma MembersRemoved(h: Link, s: seq<Link>, k: nat)
    requires k < |s|
    ensures Members(h, Removed(s, k)) <= Members(h, s)
  {
  }

  // ---------- ngx_queue_middle ----------

  /** Element floor(n / 2) of n. An empty queue yields its sentinel. */
  method Middle(queue: Link, ghost s: seq<Link>) returns (middle: Link)
    requires Ring(queue, s)
    ensures middle == if s == [] then queue else s[|s| / 2]
  {
    hide Ring, RingIn, Members;
    RingUnique(queue, s);
    Neighbours(queue, s, 0);
    Neighbours(queue, s, |s|);
    middle := queue.next;
    if middle == queue.prev { return; }
    var next := queue.next;
    ghost var m := 0;
    while true
      invariant Ring(queue, s) && 0 <= 2 * m < |s| - 1 && middle == s[m] && next == s[2 * m]
      decreases |s| - m
    {
      Neighbours(queue, s, m + 1);
      Neighbours(queue, s, 2 * m + 1);
      middle := middle.next;
      m := m + 1;
      next := next.next;
      if next == queue.prev { return; }
      Neighbours(queue, s, 2 * m);
      next := next.next;
      if next == queue.prev { return; }
    }
  }

  lemma RingUnique(h: Link, s: seq<Link>)
    requires Ring(h, s)
    ensures Unique(h, s)
  {
  }

  // ---------- ngx_queue_sort ----------

  type Cmp = (Link, Link) -> int

  ghost predicate Le(cmp: Cmp, a: Link, b: Link) { cmp(a, b) <= 0 }

  ghost predicate TotalPreorder(cmp: Cmp, d: set<Link>) {
    && (forall a, b :: a in d && b in d ==> Le(cmp, a, b) || Le(cmp, b, a))
    && (forall a, b, c :: a in d && b in d && c in d && Le(cmp, a, b) && Le(cmp, b, c) ==> Le(cmp, a, c))
  }

  ghost predicate Before(s: seq<Link>, a: Link, b: Link) {
    exists i, j :: 0 <= i < j < |s| && s[i] == a && s[j] == b
  }

  /** `a` has to come before `b`: it is smaller, or it is equivalent and came before. */
  ghost predicate Precedes(cmp: Cmp, s: seq<Link>, a: Link, b: Link) {
    Le(cmp, a, b) && (Le(cmp, b, a) ==> Before(s, a, b))
  }

  /** Sorted, and equivalent members in the order they have in `s`. */
  ghost predicate StableSorted(cmp: Cmp, s: seq<Link>, r: seq<Link>) {
    forall i, j :: 0 <= i < j < |r| ==> Precedes(cmp, s, r[i], r[j])
  }

  lemma InMultiset(r: seq<Link>, s: seq<Link>, a: Link)
    requires multiset(r) == multiset(s)
    ensures a in r <==> a in s
  {
    assert a in r <==> a in multiset(r);
    assert a in s <==> a in multiset(s);
  }

  lemma PrecedesOneWay(cmp: Cmp, s: seq<Link>, a: Link, b: Link)
    requires forall i, j :: 0 <= i < j < |s| ==> s[i] != s[j]
    ensures !(Precedes(cmp, s, a, b) && Precedes(cmp, s, b, a))
  {
  }

  lemma SameHead(cmp: Cmp, s: seq<Link>, r: seq<Link>, t: seq<Link>)
    requires (forall i, j :: 0 <= i < j < |s| ==> s[i] != s[j]) && multiset(r) == multiset(t) && r != [] && t != []
    requires StableSorted(cmp, s, r) && StableSorted(cmp, s, t)
    ensures r[0] == t[0]
  {
    hide Precedes;
    var a, b := r[0], t[0];
    InMultiset(r, t, a);
    InMultiset(r, t, b);
    var i :| 0 <= i < |t| && t[i] == a;
    var j :| 0 <= j < |r| && r[j] == b;
    PrecedesOneWay(cmp, s, a, b);
  }

  /** There is only one stable sorted arrangement of a queue. */
  lemma {:induction false} StableUnique(cmp: Cmp, s: seq<Link>, r: seq<Link>, t: seq<Link>)
    requires (forall i, j :: 0 <= i < j < |s| ==> s[i] != s[j]) && multiset(r) == multiset(t)
    requires StableSorted(cmp, s, r) && StableSorted(cmp, s, t)
    ensures r == t
  {
    hide StableSorted;
    assert |multiset(r)| == |r| && |multiset(t)| == |t|;
    if r != [] {
      SameHead(cmp, s, r, t);
      Tail(cmp, s, r);
      Tail(cmp, s, t);
      StableUnique(cmp, s, r[1..], t[1..]);
    }
  }

  lemma Tail(cmp: Cmp, s: seq<Link>, r: seq<Link>)
    requires r != [] && StableSorted(cmp, s, r)
    ensures r == [r[0]] + r[1..] && StableSorted(cmp, s, r[1..])
    ensures multiset(r[1..]) == multiset(r) - multiset{r[0]}
  {
    hide Precedes;
    assert r == [r[0]] + r[1..];
  }

  /** Where the inner loop stops: behind the last member of the sorted part that is not greater. */
  ghost predicate Slot(cmp: Cmp, p: seq<Link>, k: nat, q: Link) {
    && k <= |p| && (k > 0 ==> Le(cmp, p[k - 1], q))
    && forall m :: k <= m < |p| ==> !Le(cmp, p[m], q)
  }

  lemma InsertStable(cmp: Cmp, s: seq<Link>, i: nat, p: seq<Link>, k: nat)
    requires TotalPreorder(cmp, Elems(s)) && i < |s| && StableSorted(cmp, s, p) && multiset(p) == multiset(s[..i])
    requires Slot(cmp, p, k, s[i])
    ensures StableSorted(cmp, s, Inserted(p, k, s[i]))
  {
    hide Inserted, Le, Before;
    var q, r := s[i], Inserted(p, k, s[i]);
    InsertedIs(p, k, q, 0);
    forall m | 0 <= m < |p| ensures p[m] in Elems(s) && Before(s, p[m], q) { EarlierIn(s, i, p, m); }
    forall a, b | 0 <= a < b < |r| ensures Precedes(cmp, s, r[a], r[b]) {
      InsertedIs(p, k, q, a);
      InsertedIs(p, k, q, b);
      if a < k - 1 && b == k { assert Precedes(cmp, s, p[a], p[k - 1]); }
    }
  }

  lemma EarlierIn(s: seq<Link>, i: nat, p: seq<Link>, m: nat)
    requires i < |s| && multiset(p) == multiset(s[..i]) && m < |p|
    ensures p[m] in s && Before(s, p[m], s[i])
  {
    InMultiset(p, s[..i], p[m]);
    var j :| 0 <= j < i && s[..i][j] == p[m];
    assert s[j] == p[m];
  }

  lemma InsertedIs(p: seq<Link>, k: nat, q: Link, a: nat)
    requires k <= |p| && a <= |p|
    ensures |Inserted(p, k, q)| == |p| + 1
    ensures Inserted(p, k, q)[a] == if a < k then p[a] else if a == k then q else p[a - 1]
  {
  }

  lemma InsertedElems(s: seq<Link>, i: nat, p: seq<Link>, k: nat)
    requires i < |s| && k <= |p| && multiset(p) == multiset(s[..i])
    ensures multiset(Inserted(p, k, s[i])) == multiset(s[..i + 1]) && |p| == i
  {
    assert |multiset(p)| == |p| && |multiset(s[..i])| == i;
    assert p == p[..k] + p[k..];
    assert s[..i + 1] == s[..i] + [s[i]];
  }

  /** With the sorted part `p` in front of the rest, what the loop's steps do to the whole. */
  lemma WholeIs(p: seq<Link>, s: seq<Link>, i: nat, k: nat)
    requires |p| == i < |s| && k <= i
    ensures Removed(p + s[i..], i) == p + s[i + 1..] && (p + s[i..])[i] == s[i]
    ensures Inserted(p + s[i + 1..], k, s[i]) == Inserted(p, k, s[i]) + s[i + 1..]
  {
  }

  /** The inner loop of ngx_queue_sort: from the end of the sorted part `p` back to the place of `q`. */
  method Seek(queue: Link, cmp: Cmp, prev0: Link, q: Link, ghost p: seq<Link>, ghost t: seq<Link>)
    returns (prev: Link, ghost k: nat)
    requires Ring(queue, p + t) && p != [] && prev0 == p[|p| - 1]
    ensures k <= |p| && prev == At(queue, p + t, k) && Slot(cmp, p, k, q) && Ring(queue, p + t)
  {
    hide Ring, RingIn, Members;
    RingUnique(queue, p + t);
    prev, k := prev0, |p|;
    while true
      invariant Ring(queue, p + t) && 1 <= k <= |p| && prev == p[k - 1] == At(queue, p + t, k)
      invariant forall m :: k <= m < |p| ==> !Le(cmp, p[m], q)
      decreases k
    {
      if cmp(prev, q) <= 0 { break; }
      Neighbours(queue, p + t, k - 1);
      prev := prev.prev;
      k := k - 1;
      if prev == queue { break; }
    }
  }

  /** ngx_queue_sort */
  method Sort(queue: Link, cmp: Cmp, ghost s: seq<Link>) returns (ghost r: seq<Link>)
    requires Ring(queue, s)
    modifies Members(queue, s)
    ensures Ring(queue, r) && multiset(r) == multiset(s)
    ensures TotalPreorder(cmp, Elems(s)) ==> StableSorted(cmp, s, r)
  {
    hide Ring, RingIn, Members, TotalPreorder, Inserted, Removed, Slot;
    RingUnique(queue, s);
    Neighbours(queue, s, 0);
    Neighbours(queue, s, |s|);
    var q := queue.next;
    if q == queue.prev { return s; }
    Neighbours(queue, s, 1);
    q := q.next;
    ghost var i, p := 1, s[..1];
    assert p + s[1..] == s;
    while q != queue
      invariant 1 <= i <= |s| && |p| == i && multiset(p) == multiset(s[..i])
      invariant Ring(queue, p + s[i..]) && q == At(queue, s, i + 1) && Members(queue, p + s[i..]) == Members(queue, s)
      invariant TotalPreorder(cmp, Elems(s)) ==> StableSorted(cmp, s, p)
      decreases |s| - i
    {
      q, p := SortNext(queue, cmp, q, s, i, p);
      i := i + 1;
    }
    assert s[..i] == s && p + s[i..] == p;
    return p;
  }

  /** One turn of the outer loop: `q` moves from the rest into the sorted part. */
  method SortNext(queue: Link, cmp: Cmp, q: Link, ghost s: seq<Link>, ghost i: nat, ghost p: seq<Link>)
    returns (next: Link, ghost p': seq<Link>)
    requires Unique(queue, s) && 1 <= i < |s| && |p| == i && multiset(p) == multiset(s[..i])
    requires Ring(queue, p + s[i..]) && q == s[i] && Members(queue, p + s[i..]) == Members(queue, s)
    requires TotalPreorder(cmp, Elems(s)) ==> StableSorted(cmp, s, p)
    modifies Members(queue, s)
    ensures |p'| == i + 1 && multiset(p') == multiset(s[..i + 1])
    ensures Ring(queue, p' + s[i + 1..]) && next == At(queue, s, i + 2)
      && Members(queue, p' + s[i + 1..]) == Members(queue, s)
    ensures TotalPreorder(cmp, Elems(s)) ==> StableSorted(cmp, s, p')
  {
    hide Ring, RingIn, Members, TotalPreorder, Inserted, Removed, Slot, StableSorted, Unique;
    ghost var w := p + s[i..];
    Neighbours(queue, w, i);
    Neighbours(queue, w, i + 1);
    WholeIs(p, s, i, 0);
    Refilled(queue, p, s, i);
    var prev := q.prev;
    next := q.next;
    Remove(q, queue, w, i);
    ghost var k;
    prev, k := Seek(queue, cmp, prev, q, p, s[i + 1..]);
    SlotBound(cmp, p, k, q);
    WholeIs(p, s, i, k);
    InsertAfter(prev, q, queue, p + s[i + 1..], k);
    p' := Inserted(p, k, q);
    InsertedElems(s, i, p, k);
    InsertedIs(p, k, q, 0);
    MembersInserted(queue, p + s[i + 1..], k, q);
    if TotalPreorder(cmp, Elems(s)) { InsertStable(cmp, s, i, p, k); }
  }

  lemma SlotBound(cmp: Cmp, p: seq<Link>, k: nat, q: Link)
    requires Slot(cmp, p, k, q)
    ensures k <= |p|
  {
  }

  /** The ring without `s[i]`. */
  lemma Refilled(h: Link, p: seq<Link>, s: seq<Link>, i: nat)
    requires |p| == i < |s| && Ring(h, p + s[i..])
    ensures s[i] !in p + s[i + 1..] && s[i] != h
    ensures Members(h, p + s[i + 1..]) + {s[i]} == Members(h, p + s[i..])
  {
    var w := p + s[i..];
    RingUnique(h, w);
    assert w[i] == s[i];
    assert w == p + [s[i]] + s[i + 1..];
    var v := p + s[i + 1..];
    forall j | 0 <= j < |v| ensures v[j] != s[i] { assert v[j] == if j < i then w[j] else w[j + 1]; }
  }

  // ---------- splitting and joining ----------

  lemma SplitJoint(h: Link, s: seq<Link>, nx: Links, pv: Links, k: nat, n: Link, i: nat)
    requires RingIn(h, s, nx, pv) && k < |s| && n !in s && n != h
    ensures var last, q, p := At(h, s, |s|), s[k], At(h, s, k);
      var nx', pv' := nx[last := n][n := q][p := h], pv[n := last][h := p][q := n];
      (i <= k ==> Joint(h, s[..k], nx', pv', i)) && (i <= |s| - k ==> Joint(n, s[k..], nx', pv', i))
  {
    if i <= k {
      assert Joint(h, s, nx, pv, i);
      if i < k { UniqueAt(h, s, i, k); }
    }
    if i <= |s| - k {
      assert Joint(h, s, nx, pv, k + i);
    }
  }

  lemma SplitJoins(h: Link, s: seq<Link>, nx: Links, pv: Links, k: nat, n: Link)
    requires RingIn(h, s, nx, pv) && k < |s| && n !in s && n != h
    ensures var last, q, p := At(h, s, |s|), s[k], At(h, s, k);
      var nx', pv' := nx[last := n][n := q][p := h], pv[n := last][h := p][q := n];
      RingIn(h, s[..k], nx', pv') && RingIn(n, s[k..], nx', pv')
  {
    hide Joint, At;
    var last, q, p := At(h, s, |s|), s[k], At(h, s, k);
    var nx', pv' := nx[last := n][n := q][p := h], pv[n := last][h := p][q := n];
    forall i: nat | i <= k ensures Joint(h, s[..k], nx', pv', i) { SplitJoint(h, s, nx, pv, k, n, i); }
    forall i: nat | i <= |s| - k ensures Joint(n, s[k..], nx', pv', i) { SplitJoint(h, s, nx, pv, k, n, i); }
  }

  /** Two assignments that occur together in the macros: `b` follows `a`. */
  method Tie(a: Link, b: Link, ghost d: set<Link>)
    requires a in d && b in d
    modifies a`next, b`prev
    ensures a.next == b && b.prev == a
    ensures Nexts(d) == old(Nexts(d))[a := b] && Prevs(d) == old(Prevs(d))[b := a]
  {
    a.next := b;
    b.prev := a;
  }

  method SetNext(a: Link, b: Link, ghost d: set<Link>)
    requires a in d
    modifies a`next
    ensures a.next == b && Nexts(d) == old(Nexts(d))[a := b]
  {
    a.next := b;
  }

  method SetPrev(b: Link, a: Link, ghost d: set<Link>)
    requires b in d
    modifies b`prev
    ensures b.prev == a && Prevs(d) == old(Prevs(d))[b := a]
  {
    b.prev := a;
  }

  lemma SplitAt(h: Link, s: seq<Link>, k: nat)
    requires k < |s|
    ensures At(h, s, |s| + 1) == h && At(h, s, k + 1) == s[k]
  {
  }

  /** ngx_queue_split: `q` and what follows it move to the queue `n`. */
  method Split(h: Link, q: Link, n: Link, ghost s: seq<Link>, ghost k: nat)
    requires Ring(h, s) && k < |s| && q == s[k] && n !in s && n != h
    modifies Members(h, s), n
    ensures Ring(h, s[..k]) && Ring(n, s[k..])
  {
    hide Ring, RingIn, Members, At, Nexts, Prevs;
    SplitAt(h, s, k);
    ghost var d := Members(h, s) + {n};
    WideRing(h, s, d);
    Neighbours(h, s, |s|);
    Neighbours(h, s, k);
    ghost var nx: Links, pv: Links, last: Link, p: Link := Nexts(d), Prevs(d), h.prev, q.prev;
    SplitJoins(h, s, nx, pv, k, n);
    MembersSplit(h, n, s, k);
    Tie(h.prev, n, d);
    SetNext(n, q, d);
    Tie(q.prev, h, d);
    SetPrev(q, n, d);
    WideRing(h, s[..k], d);
    WideRing(n, s[k..], d);
  }

  lemma MembersSplit(h: Link, n: Link, s: seq<Link>, k: nat)
    requires k <= |s|
    ensures Members(h, s[..k]) <= Members(h, s) && Members(n, s[k..]) <= Members(h, s) + {n}
  {
  }

  /** The last member of `h` and `t` together, or the sentinel `h`. */
  function EndOf(h: Link, s: seq<Link>, n: Link, t: seq<Link>): Link {
    if t == [] then At(h, s, |s|) else t[|t| - 1]
  }

  ghost predicate Apart(h: Link, s: seq<Link>, n: Link, t: seq<Link>) {
    h != n && h !in t && n !in s && forall l :: l in s ==> l !in t
  }

  lemma JoinedAt(h: Link, s: seq<Link>, n: Link, t: seq<Link>, i: nat)
    requires i <= |s| + |t| + 1
    ensures At(h, s + t, i) == if i <= |s| then At(h, s, i) else if i <= |s| + |t| then At(n, t, i - |s|) else h
  {
  }

  lemma AddJoint(h: Link, s: seq<Link>, n: Link, t: seq<Link>, nx: Links, pv: Links, i: nat)
    requires RingIn(h, s, nx, pv) && RingIn(n, t, nx, pv) && Apart(h, s, n, t) && i <= |s + t|
    ensures var a, b, c := At(h, s, |s|), At(n, t, 1), EndOf(h, s, n, t);
      Joint(h, s + t, nx[a := b][c := h], pv[b := a][h := c], i)
  {
    JoinedAt(h, s, n, t, i);
    JoinedAt(h, s, n, t, i + 1);
    if i < |s| {
      assert Joint(h, s, nx, pv, i);
      UniqueAt(h, s, i, |s|);
      assert At(h, s, i + 1) in s && (i > 0 ==> At(h, s, i) in s);
      assert t != [] ==> At(n, t, 1) in t && t[|t| - 1] in t;
    } else if |s| < i < |s| + |t| {
      var j := i - |s|;
      assert Joint(n, t, nx, pv, j);
      assert At(n, t, j) in t && At(n, t, j + 1) in t;
      UniqueAt(n, t, j, |t|);
      UniqueAt(n, t, 1, j + 1);
    } else if t != [] {
      assert At(n, t, 1) in t && t[|t| - 1] in t && (s != [] ==> At(h, s, |s|) in s);
    }
  }

  lemma EndIs(h: Link, s: seq<Link>, n: Link, t: seq<Link>)
    requires n !in t
    ensures EndOf(h, s, n, t) == if At(n, t, |t|) == n then At(h, s, |s|) else At(n, t, |t|)
    ensures At(n, t, |t|) == n <==> t == []
    ensures At(n, t, 1) == n <==> t == []
    ensures At(h, s, 0) == h == At(h, s, |s| + 1) && At(n, t, 0) == n == At(n, t, |t| + 1)
  {
  }

  lemma UniqueJoined(h: Link, s: seq<Link>, n: Link, t: seq<Link>)
    requires Unique(h, s) && Unique(n, t) && Apart(h, s, n, t)
    ensures Unique(h, s + t)
  {
    var w := s + t;
    forall i, j | 0 <= i < j < |w| ensures w[i] != w[j] {
      if i < |s| <= j { assert s[i] in s && t[j - |s|] in t; }
    }
  }

  lemma AddJoins(h: Link, s: seq<Link>, n: Link, t: seq<Link>, nx: Links, pv: Links)
    requires RingIn(h, s, nx, pv) && RingIn(n, t, nx, pv) && Apart(h, s, n, t)
    ensures var a, b, c := At(h, s, |s|), At(n, t, 1), EndOf(h, s, n, t);
      RingIn(h, s + t, nx[a := b][c := h], pv[b := a][h := c])
  {
    hide Joint, At, EndOf, Unique;
    UniqueJoined(h, s, n, t);
    var a, b, c := At(h, s, |s|), At(n, t, 1), EndOf(h, s, n, t);
    var nx', pv' := nx[a := b][c := h], pv[b := a][h := c];
    forall i: nat | i <= |s + t| ensures Joint(h, s + t, nx', pv', i) { AddJoint(h, s, n, t, nx, pv, i); }
  }

  /** ngx_queue_add: the members of `n`, if any, go to the end of `h`; `n` is left behind unusable. */
  method Append(h: Link, n: Link, ghost s: seq<Link>, ghost t: seq<Link>)
    requires Ring(h, s) && Ring(n, t) && Apart(h, s, n, t)
    modifies Members(h, s), Members(n, t)
    ensures Ring(h, s + t)
  {
    hide Ring, RingIn, Members, EndOf, At;
    ghost var d := Members(h, s) + Members(n, t);
    WideRing(h, s, d);
    WideRing(n, t, d);
    Neighbours(h, s, |s|);
    Neighbours(n, t, 0);
    Neighbours(n, t, |t|);
    ghost var nx: Links, pv: Links := Nexts(d), Prevs(d);
    RingUnique(n, t);
    EndIs(h, s, n, t);
    AddJoins(h, s, n, t, nx, pv);
    MembersJoined(h, n, s, t);
    Tie(h.prev, n.next, d);
    Tie(n.prev, h, d);
    WideRing(h, s + t, d);
  }

  lemma MembersJoined(h: Link, n: Link, s: seq<Link>, t: seq<Link>)
    ensures Members(h, s + t) <= Members(h, s) + Members(n, t)
  {
  }
}
