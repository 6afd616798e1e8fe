/** The 4-ary timer heap of libev-4.15/ev.c as a value: what upheap and downheap do to it. */
module TimerHeap {
  import opened Pending

  const DHEAP := 4
  const HEAP0 := 3 // index of the first element

  /** Division of C, which truncates. */
  function CDiv(a: int, b: int): int
    requires b > 0
  {
    if a >= 0 then a / b else -(-a / b)
  }

  /** HPARENT */
  function HParent(k: int): int { CDiv(k - HEAP0 - 1, DHEAP) + HEAP0 }

  datatype Anhe = Anhe(at: real, w: Watcher)

  type Heap = seq<Anhe>           // element i is heap [i + HEAP0] of the code
  type Index = map<Watcher, int>  // ev_active
  type Times = map<Watcher, real> // ev_at

  function Par(i: int): int
    requires i >= 1
  {
    (i - 1) / 4
  }

  /** The root is its own parent, because C truncates; anything else has Par as its parent. */
  lemma HParentIs(i: nat)
    ensures HParent(i + HEAP0) == if i == 0 then HEAP0 else Par(i) + HEAP0
    ensures i > 0 ==> 0 <= Par(i) < i
  {
  }

  /** Entries and back-indices name each other. */
  ghost predicate Indexed(h: Heap, ix: Index) {
    && (forall i :: 0 <= i < |h| ==> h[i].w in ix && ix[h[i].w] == i + HEAP0)
    && (forall w :: w in ix ==> HEAP0 <= ix[w] < |h| + HEAP0 && h[ix[w] - HEAP0].w == w)
  }

  ghost predicate Cached(h: Heap, ts: Times) {
    forall i :: 0 <= i < |h| ==> h[i].w in ts && h[i].at == ts[h[i].w]
  }

  /** No entry is earlier than its parent. */
  ghost predicate Ordered(h: Heap) {
    forall i :: 1 <= i < |h| ==> h[Par(i)].at <= h[i].at
  }

  /** The first `n` entries in order. */
  ghost predicate OrderedTo(h: Heap, n: nat) {
    n <= |h| && forall i :: 1 <= i < n ==> h[Par(i)].at <= h[i].at
  }

  /** Among the first `n` entries, all but entry `k` against its parent. */
  ghost predicate UpOrdered(h: Heap, n: nat, k: nat) {
    && n <= |h|
    && (forall i :: 1 <= i < n && i != k ==> h[Par(i)].at <= h[i].at)
    && (1 <= k < n ==> forall c :: 1 <= c < n && Par(c) == k ==> h[Par(k)].at <= h[c].at)
  }

  /** All but the children of entry `k` against it. */
  ghost predicate DownOrdered(h: Heap, k: nat) {
    && (forall i :: 1 <= i < |h| && Par(i) != k ==> h[Par(i)].at <= h[i].at)
    && Bridged(h, k)
  }

  /** All but entry `k` against both sides. */
  ghost predicate AroundOrdered(h: Heap, k: nat) {
    && (forall i :: 1 <= i < |h| && i != k && Par(i) != k ==> h[Par(i)].at <= h[i].at)
    && Bridged(h, k)
  }

  /** The children of `k` are not earlier than its parent. */
  ghost predicate Bridged(h: Heap, k: nat) {
    1 <= k < |h| ==> forall c :: 1 <= c < |h| && Par(c) == k ==> h[Par(k)].at <= h[c].at
  }

  function Swapped(h: Heap, i: nat, j: nat): Heap
    requires i < |h| && j < |h|
  {
    h[i := h[j]][j := h[i]]
  }

  lemma SwapKeeps(h: Heap, ix: Index, ts: Times, i: nat, j: nat)
    requires i < |h| && j < |h| && i != j && Indexed(h, ix) && Cached(h, ts)
    ensures Indexed(Swapped(h, i, j), ix[h[j].w := i + HEAP0][h[i].w := j + HEAP0]) && Cached(Swapped(h, i, j), ts)
  {
    hide Swapped, Indexed, At, InHeap;
    var g, jx := Swapped(h, i, j), ix[h[j].w := i + HEAP0][h[i].w := j + HEAP0];
    IndexedAt(h, ix, i);
    IndexedAt(h, ix, j);
    SwapEntry(h, ix, ts, i, j, i);
    forall m | 0 <= m < |g| ensures At(g, jx, m) && g[m].w in ts && g[m].at == ts[g[m].w] {
      IndexedAt(h, ix, m);
      SwapEntry(h, ix, ts, i, j, m);
    }
    forall w | w in jx ensures InHeap(g, jx, w) {
      if w in ix { IndexedOf(h, ix, w); }
      SwapIndex(h, ix, i, j, w);
    }
    MakeIndexed(g, jx);
  }

  ghost predicate InHeap(h: Heap, ix: Index, w: Watcher) {
    w in ix && HEAP0 <= ix[w] < |h| + HEAP0 && h[ix[w] - HEAP0].w == w
  }

  lemma IndexedAt(h: Heap, ix: Index, m: nat)
    requires Indexed(h, ix) && m < |h|
    ensures At(h, ix, m)
  {
  }

  lemma IndexedOf(h: Heap, ix: Index, w: Watcher)
    requires Indexed(h, ix) && w in ix
    ensures InHeap(h, ix, w)
  {
  }

  lemma MakeIndexed(h: Heap, ix: Index)
    requires (forall m: nat :: m < |h| ==> At(h, ix, m)) && forall w :: w in ix ==> InHeap(h, ix, w)
    ensures Indexed(h, ix)
  {
    forall m | 0 <= m < |h| ensures h[m].w in ix && ix[h[m].w] == m + HEAP0 { assert At(h, ix, m); }
    forall w | w in ix ensures HEAP0 <= ix[w] < |h| + HEAP0 && h[ix[w] - HEAP0].w == w { assert InHeap(h, ix, w); }
  }

  ghost predicate At(h: Heap, ix: Index, m: nat) { m < |h| && h[m].w in ix && ix[h[m].w] == m + HEAP0 }

  lemma SwapEntry(h: Heap, ix: Index, ts: Times, i: nat, j: nat, m: nat)
    requires At(h, ix, i) && At(h, ix, j) && At(h, ix, m) && i != j && Cached(h, ts)
    ensures var g, jx := Swapped(h, i, j), ix[h[j].w := i + HEAP0][h[i].w := j + HEAP0];
      |g| == |h| && At(g, jx, m) && g[m].w in ts && g[m].at == ts[g[m].w]
  {
  }

  lemma SwapIndex(h: Heap, ix: Index, i: nat, j: nat, w: Watcher)
    requires At(h, ix, i) && At(h, ix, j) && i != j
    requires w in ix ==> InHeap(h, ix, w)
    ensures var g, jx := Swapped(h, i, j), ix[h[j].w := i + HEAP0][h[i].w := j + HEAP0]; w in jx ==> InHeap(g, jx, w)
  {
  }

  lemma UpStep(h: Heap, n: nat, k: nat)
    requires 1 <= k < n && UpOrdered(h, n, k) && h[Par(k)].at > h[k].at
    ensures UpOrdered(Swapped(h, k, Par(k)), n, Par(k))
  {
  }

  lemma UpDone(h: Heap, n: nat, k: nat)
    requires k < n && UpOrdered(h, n, k) && (k == 0 || h[Par(k)].at <= h[k].at)
    ensures OrderedTo(h, n) && (n == |h| ==> Ordered(h))
  {
  }

  /** `m` is the earliest child of `k`. */
  ghost predicate IsMinChild(h: Heap, k: nat, m: nat) {
    && 1 <= m < |h| && Par(m) == k
    && forall c :: 1 <= c < |h| && Par(c) == k ==> h[m].at <= h[c].at
  }

  lemma DownStep(h: Heap, k: nat, m: nat)
    requires k < |h| && DownOrdered(h, k) && IsMinChild(h, k, m) && h[k].at > h[m].at
    ensures DownOrdered(Swapped(h, k, m), m) && k < m
  {
  }

  lemma DownDone(h: Heap, k: nat)
    requires k < |h| && DownOrdered(h, k) && forall c :: 1 <= c < |h| && Par(c) == k ==> h[k].at <= h[c].at
    ensures Ordered(h)
  {
  }

  /** The first entry is the earliest. */
  lemma {:induction false} FirstIsEarliest(h: Heap, i: nat)
    requires Ordered(h) && i < |h|
    ensures h[0].at <= h[i].at
  {
    if i > 0 { FirstIsEarliest(h, Par(i)); }
  }

  /** Putting another time on entry `k` disturbs the order only around it. */
  lemma AroundSet(h: Heap, k: nat, e: Anhe)
    requires Ordered(h) && k < |h|
    ensures AroundOrdered(h[k := e], k)
  {
  }

  /** Dropping the last entry. */
  lemma DropLast(h: Heap)
    requires Ordered(h) && h != []
    ensures Ordered(h[..|h| - 1])
  {
  }

  /** Which way the entry in doubt has to go. */
  lemma Adjust(h: Heap, k: nat)
    requires k < |h| && AroundOrdered(h, k)
    ensures k > 0 && h[k].at <= h[Par(k)].at ==> UpOrdered(h, |h|, k)
    ensures k == 0 || h[k].at >= h[Par(k)].at ==> DownOrdered(h, k)
  {
  }

  lemma AppendUp(h: Heap, e: Anhe)
    requires Ordered(h)
    ensures UpOrdered(h + [e], |h| + 1, |h|)
  {
  }

  // ---------- entries coming and going ----------

  lemma AppendKeeps(h: Heap, ix: Index, ts: Times, e: Anhe)
    requires Indexed(h, ix) && Cached(h, ts) && e.w !in ix
    ensures Indexed(h + [e], ix[e.w := |h| + HEAP0]) && Cached(h + [e], ts[e.w := e.at])
  {
  }

  lemma DropKeeps(h: Heap, ix: Index, ts: Times)
    requires Indexed(h, ix) && Cached(h, ts) && h != []
    ensures Indexed(h[..|h| - 1], ix - {h[|h| - 1].w}) && Cached(h[..|h| - 1], ts - {h[|h| - 1].w})
  {
  }

  /** The last entry takes the place of entry `i`. */
  lemma RefillKeeps(h: Heap, ix: Index, ts: Times, i: nat)
    requires Indexed(h, ix) && Cached(h, ts) && i < |h| - 1
    ensures var h', last := h[..|h| - 1][i := h[|h| - 1]], h[|h| - 1];
      Indexed(h', (ix - {h[i].w})[last.w := i + HEAP0]) && Cached(h', ts - {h[i].w})
  {
    assert h[i].w != h[|h| - 1].w;
  }

  /** A new time for entry `i`, cached. */
  lemma RetimeKeeps(h: Heap, ix: Index, ts: Times, i: nat, at: real)
    requires Indexed(h, ix) && Cached(h, ts) && i < |h|
    ensures Indexed(h[i := h[i].(at := at)], ix) && Cached(h[i := h[i].(at := at)], ts[h[i].w := at])
  {
  }

  lemma AroundRefill(h: Heap, i: nat)
    requires Ordered(h) && i < |h| - 1
    ensures AroundOrdered(h[..|h| - 1][i := h[|h| - 1]], i)
  {
    DropLast(h);
    AroundSet(h[..|h| - 1], i, h[|h| - 1]);
  }
}
