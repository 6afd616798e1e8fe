/** The per-priority pending stacks of libev-4.15/ev.c: ev_feed_event, clear_pending and ev_invoke_pending. */
module Pending {

  const NUMPRI := 5
  type Priority = p: int | -2 <= p <= 2 // EV_MINPRI .. EV_MAXPRI

  /** The fields of the watcher types this model uses. */
  class Watcher {
    var active: int
    var pending: int
    const priority: Priority
    var at: real      // ev_timer
    var repeat: real
    const fd: nat     // ev_io
    var events: bv8

    constructor (priority: Priority, fd: nat)
      ensures active == 0 && pending == 0 && this.priority == priority && this.fd == fd
    {
      active, pending, at, repeat, events := 0, 0, 0.0, 0.0, 0;
      this.priority, this.fd := priority, fd;
    }
  }

  /** ABSPRI */
  function Pri(w: Watcher): nat { w.priority + 2 }

  datatype Slot = Slot(w: Watcher, events: bv32)

  /** What a callback does to the pending stacks. */
  datatype Act = FeedIt(w: Watcher, revents: bv32) | ClearIt(w: Watcher)

  // ---------- what the stacks mean ----------

  /** The watchers that are owed a call, with the events they will be told of. */
  type Owed = map<Watcher, bv32>

  datatype Ev = Fed(w: Watcher, mask: bv32) | Cleared(w: Watcher) | Called(w: Watcher, mask: bv32)

  function Or(a: bv32, b: bv32): bv32 { a | b }

  /** All events of `m` are among `a`. */
  predicate Has(a: bv32, m: bv32) { a | m == a }

  ghost function After(o: Owed, e: Ev): Owed {
    match e
    case Fed(w, m) => o[w := if w in o then Or(o[w], m) else m]
    case Cleared(w) => o - {w}
    case Called(w, _) => o - {w}
  }

  /** A call is right when it tells exactly the owed events and no more urgent watcher is waiting. */
  ghost predicate Right(o: Owed, e: Ev) {
    e.Called? ==> e.w in o && o[e.w] == e.mask && forall v :: v in o ==> v.priority <= e.w.priority
  }

  ghost function Final(o: Owed, tr: seq<Ev>): Owed {
    if tr == [] then o else After(Final(o, tr[..|tr| - 1]), tr[|tr| - 1])
  }

  ghost predicate Legal(o: Owed, tr: seq<Ev>) {
    tr == [] || (Legal(o, tr[..|tr| - 1]) && Right(Final(o, tr[..|tr| - 1]), tr[|tr| - 1]))
  }

  lemma LegalMore(o: Owed, tr: seq<Ev>, e: Ev)
    requires Legal(o, tr) && Right(Final(o, tr), e)
    ensures Legal(o, tr + [e]) && Final(o, tr + [e]) == After(Final(o, tr), e)
  {
    assert (tr + [e])[..|tr|] == tr;
  }

  ghost function CallsOf(tr: seq<Ev>): seq<Slot> {
    if tr == [] then []
    else
      var e := tr[|tr| - 1];
      CallsOf(tr[..|tr| - 1]) + (if e.Called? then [Slot(e.w, e.mask)] else [])
  }

  lemma CallsMore(tr: seq<Ev>, e: Ev)
    ensures CallsOf(tr + [e]) == CallsOf(tr) + (if e.Called? then [Slot(e.w, e.mask)] else [])
  {
    assert (tr + [e])[..|tr|] == tr;
  }

  // ---------- last in, first out ----------

  /** The calls that popping one stack makes: last slot first, cleared slots skipped. */
  ghost function Lifo(q: seq<Slot>, dummy: Watcher): seq<Slot> {
    if q == [] then []
    else (if q[|q| - 1].w == dummy then [] else [q[|q| - 1]]) + Lifo(q[..|q| - 1], dummy)
  }

  /** Most urgent stack first. */
  ghost function LifoBelow(pend: seq<seq<Slot>>, dummy: Watcher, n: nat): seq<Slot>
    requires n <= |pend|
  {
    if n == 0 then [] else Lifo(pend[n - 1], dummy) + LifoBelow(pend, dummy, n - 1)
  }

  lemma {:induction false} LifoBelowSame(pend: seq<seq<Slot>>, pend': seq<seq<Slot>>, dummy: Watcher, n: nat)
    requires n <= |pend| && n <= |pend'| && forall p :: 0 <= p < n ==> pend[p] == pend'[p]
    ensures LifoBelow(pend, dummy, n) == LifoBelow(pend', dummy, n)
  {
    if n > 0 { LifoBelowSame(pend, pend', dummy, n - 1); }
  }

  /** Popping the most urgent non-empty stack makes the first of the remaining calls. */
  lemma {:induction false} LifoPop(pend: seq<seq<Slot>>, dummy: Watcher, p: nat, n: nat)
    requires p < n <= |pend| && pend[p] != [] && forall r :: p < r < n ==> pend[r] == []
    ensures var q, last := pend[p][..|pend[p]| - 1], pend[p][|pend[p]| - 1];
      LifoBelow(pend, dummy, n) ==
        (if last.w == dummy then [] else [last]) + LifoBelow(pend[p := q], dummy, n)
  {
    var q := pend[p][..|pend[p]| - 1];
    if p == n - 1 {
      LifoBelowSame(pend, pend[p := q], dummy, n - 1);
      var last := pend[p][|pend[p]| - 1];
      assert Lifo(pend[p], dummy) == (if last.w == dummy then [] else [last]) + Lifo(q, dummy);
      Assoc(if last.w == dummy then [] else [last], Lifo(q, dummy), LifoBelow(pend, dummy, n - 1));
    } else {
      LifoPop(pend, dummy, p, n - 1);
      EmptyTop(pend, dummy, n);
      EmptyTop(pend[p := q], dummy, n);
    }
  }

  lemma Assoc(a: seq<Slot>, b: seq<Slot>, c: seq<Slot>)
    ensures a + b + c == a + (b + c)
  {
  }

  lemma EmptyTop(pend: seq<seq<Slot>>, dummy: Watcher, n: nat)
    requires 0 < n <= |pend| && pend[n - 1] == []
    ensures LifoBelow(pend, dummy, n) == LifoBelow(pend, dummy, n - 1)
  {
    assert [] + LifoBelow(pend, dummy, n - 1) == LifoBelow(pend, dummy, n - 1);
  }

  // ---------- stacks and back-indices as values ----------

  type Stacks = seq<seq<Slot>>
  type Index = map<Watcher, int>

  ghost predicate SlotOk(pend: Stacks, ix: Index, dummy: Watcher, p: nat, i: nat)
    requires p < |pend| && i < |pend[p]|
  {
    var w := pend[p][i].w;
    w == dummy || (w in ix && ix[w] == i + 1 && Pri(w) == p)
  }

  ghost predicate Named(pend: Stacks, ix: Index, w: Watcher)
    requires |pend| == NUMPRI && w in ix
  {
    ix[w] == 0 || (1 <= ix[w] <= |pend[Pri(w)]| && pend[Pri(w)][ix[w] - 1].w == w)
  }

  /** `ix[w]` names the one slot that holds `w`, and is 0 iff there is none. */
  ghost predicate Good(pend: Stacks, ix: Index, dummy: Watcher) {
    && |pend| == NUMPRI && dummy !in ix
    && (forall p: nat, i: nat :: p < |pend| && i < |pend[p]| ==> SlotOk(pend, ix, dummy, p, i))
    && (forall w :: w in ix ==> Named(pend, ix, w))
  }

  /** What `w` is owed, if anything. */
  ghost function Debt(pend: Stacks, ix: Index, w: Watcher): bv32
    requires |pend| == NUMPRI && w in ix && Named(pend, ix, w)
  {
    if ix[w] == 0 then 0 else pend[Pri(w)][ix[w] - 1].events
  }

  ghost function OwedBy(pend: Stacks, ix: Index, dummy: Watcher): Owed
    requires Good(pend, ix, dummy)
  {
    map w | w in ix && ix[w] != 0 :: Debt(pend, ix, w)
  }

  ghost function Pushed(pend: Stacks, w: Watcher, m: bv32): Stacks
    requires |pend| == NUMPRI
  {
    pend[Pri(w) := pend[Pri(w)] + [Slot(w, m)]]
  }

  lemma PushGood(pend: Stacks, ix: Index, dummy: Watcher, w: Watcher, m: bv32)
    requires Good(pend, ix, dummy) && w in ix && ix[w] == 0
    ensures Good(Pushed(pend, w, m), ix[w := |pend[Pri(w)]| + 1], dummy)
    ensures OwedBy(Pushed(pend, w, m), ix[w := |pend[Pri(w)]| + 1], dummy) == OwedBy(pend, ix, dummy)[w := m]
  {
    hide SlotOk, Named, OwedBy, Debt;
    var pend', ix' := Pushed(pend, w, m), ix[w := |pend[Pri(w)]| + 1];
    forall p: nat, i: nat | p < |pend'| && i < |pend'[p]| ensures SlotOk(pend', ix', dummy, p, i) {
      PushSlot(pend, ix, dummy, w, m, p, i);
    }
    forall v | v in ix' ensures Named(pend', ix', v) && Debt(pend', ix', v) == if v == w then m else Debt(pend, ix, v) {
      assert Named(pend, ix, v);
      PushNamed(pend, ix, w, m, v);
    }
    OwedSame(pend, ix, pend', ix', dummy, w);
    OwedDebt(pend', ix', dummy, w);
  }

  lemma PushSlot(pend: Stacks, ix: Index, dummy: Watcher, w: Watcher, m: bv32, p: nat, i: nat)
    requires |pend| == NUMPRI && p < |pend| && i < |Pushed(pend, w, m)[p]| && w in ix && ix[w] == 0
    requires i < |pend[p]| ==> SlotOk(pend, ix, dummy, p, i)
    ensures SlotOk(Pushed(pend, w, m), ix[w := |pend[Pri(w)]| + 1], dummy, p, i)
  {
  }

  lemma PushNamed(pend: Stacks, ix: Index, w: Watcher, m: bv32, v: Watcher)
    requires |pend| == NUMPRI && w in ix && v in ix && Named(pend, ix, v)
    ensures var pend', ix' := Pushed(pend, w, m), ix[w := |pend[Pri(w)]| + 1];
      Named(pend', ix', v) && Debt(pend', ix', v) == if v == w then m else Debt(pend, ix, v)
  {
  }

  /** Two good states that differ only in what they say of `w`. */
  lemma OwedSame(pend: Stacks, ix: Index, pend': Stacks, ix': Index, dummy: Watcher, w: Watcher)
    requires Good(pend, ix, dummy) && Good(pend', ix', dummy) && w in ix && ix'.Keys == ix.Keys
    requires forall v :: v in ix && v != w ==> Named(pend, ix, v) && Named(pend', ix', v)
    requires forall v :: v in ix && v != w ==> ix'[v] == ix[v] && Debt(pend', ix', v) == Debt(pend, ix, v)
    ensures OwedBy(pend', ix', dummy) - {w} == OwedBy(pend, ix, dummy) - {w}
  {
    hide Good, SlotOk, Named, Debt;
  }

  lemma OwedDebt(pend: Stacks, ix: Index, dummy: Watcher, w: Watcher)
    requires Good(pend, ix, dummy) && w in ix
    ensures Named(pend, ix, w) && (w in OwedBy(pend, ix, dummy) <==> ix[w] != 0)
    ensures ix[w] != 0 ==> OwedBy(pend, ix, dummy)[w] == Debt(pend, ix, w)
    ensures ix[w] == 0 ==> OwedBy(pend, ix, dummy) == OwedBy(pend, ix, dummy) - {w}
    ensures ix[w] != 0 ==> OwedBy(pend, ix, dummy) == (OwedBy(pend, ix, dummy) - {w})[w := Debt(pend, ix, w)]
  {
    hide SlotOk, Debt;
  }

  ghost function Put(pend: Stacks, p: nat, i: nat, s: Slot): Stacks
    requires p < |pend| && i < |pend[p]|
  {
    pend[p := pend[p][i := s]]
  }

  lemma PutNamed(pend: Stacks, ix: Index, w: Watcher, s: Slot, ix': Index, v: Watcher)
    requires |pend| == NUMPRI && w in ix && v in ix && Named(pend, ix, w) && Named(pend, ix, v) && ix[w] != 0
    requires ix' == if s.w == w then ix else ix[w := 0]
    ensures var pend' := Put(pend, Pri(w), ix[w] - 1, s);
      Named(pend', ix', v) && (v != w ==> Debt(pend', ix', v) == Debt(pend, ix, v))
        && (s.w == w ==> Debt(pend', ix', w) == s.events)
  {
  }

  lemma PutSlot(pend: Stacks, ix: Index, dummy: Watcher, w: Watcher, s: Slot, ix': Index, p: nat, i: nat)
    requires |pend| == NUMPRI && w in ix && Named(pend, ix, w) && ix[w] != 0 && dummy !in ix
    requires (s.w == w || s.w == dummy) && ix' == if s.w == w then ix else ix[w := 0]
    requires p < |pend| && i < |pend[p]| && SlotOk(pend, ix, dummy, p, i)
    ensures SlotOk(Put(pend, Pri(w), ix[w] - 1, s), ix', dummy, p, i)
  {
  }

  /** Overwriting the slot that `w.pending` names: with more events for `w`, or with the dummy. */
  lemma PutGood(pend: Stacks, ix: Index, dummy: Watcher, w: Watcher, s: Slot, ix': Index)
    requires Good(pend, ix, dummy) && w in ix && ix[w] != 0 && Named(pend, ix, w) && (s.w == w || s.w == dummy)
    requires ix' == if s.w == w then ix else ix[w := 0]
    ensures Good(Put(pend, Pri(w), ix[w] - 1, s), ix', dummy)
    ensures OwedBy(Put(pend, Pri(w), ix[w] - 1, s), ix', dummy)
      == if s.w == w then OwedBy(pend, ix, dummy)[w := s.events] else OwedBy(pend, ix, dummy) - {w}
  {
    hide SlotOk, OwedBy, Debt;
    var pend' := Put(pend, Pri(w), ix[w] - 1, s);
    forall p: nat, i: nat | p < |pend'| && i < |pend'[p]| ensures SlotOk(pend', ix', dummy, p, i) {
      assert SlotOk(pend, ix, dummy, p, i);
      PutSlot(pend, ix, dummy, w, s, ix', p, i);
    }
    forall v | v in ix'
      ensures Named(pend', ix', v) && (v != w ==> Debt(pend', ix', v) == Debt(pend, ix, v))
        && (v == w && s.w == w ==> Debt(pend', ix', v) == s.events)
    {
      assert Named(pend, ix, v);
      PutNamed(pend, ix, w, s, ix', v);
    }
    OwedSame(pend, ix, pend', ix', dummy, w);
    OwedDebt(pend', ix', dummy, w);
  }

  ghost function Popped(pend: Stacks, p: nat): Stacks
    requires p < |pend| && pend[p] != []
  {
    pend[p := pend[p][..|pend[p]| - 1]]
  }

  lemma PopNamed(pend: Stacks, ix: Index, p: nat, ix': Index, v: Watcher)
    requires |pend| == NUMPRI && p < NUMPRI && pend[p] != [] && v in ix && Named(pend, ix, v)
    requires var w := pend[p][|pend[p]| - 1].w; ix' == if w in ix then ix[w := 0] else ix
    ensures Named(Popped(pend, p), ix', v)
    ensures v != pend[p][|pend[p]| - 1].w ==> Debt(Popped(pend, p), ix', v) == Debt(pend, ix, v)
  {
  }

  lemma PopSlot(pend: Stacks, ix: Index, dummy: Watcher, p: nat, ix': Index, r: nat, i: nat)
    requires |pend| == NUMPRI && p < NUMPRI && pend[p] != [] && dummy !in ix
    requires SlotOk(pend, ix, dummy, p, |pend[p]| - 1)
    requires var w := pend[p][|pend[p]| - 1].w; ix' == if w == dummy then ix else ix[w := 0]
    requires r < NUMPRI && i < |Popped(pend, p)[r]| && SlotOk(pend, ix, dummy, r, i)
    ensures SlotOk(Popped(pend, p), ix', dummy, r, i)
  {
  }

  lemma PopGood(pend: Stacks, ix: Index, dummy: Watcher, p: nat, ix': Index)
    requires Good(pend, ix, dummy) && p < NUMPRI && pend[p] != []
    requires var w := pend[p][|pend[p]| - 1].w; ix' == if w == dummy then ix else ix[w := 0]
    ensures var w := pend[p][|pend[p]| - 1].w; w == dummy || w in ix
    ensures Good(Popped(pend, p), ix', dummy)
    ensures OwedBy(Popped(pend, p), ix', dummy) == OwedBy(pend, ix, dummy) - {pend[p][|pend[p]| - 1].w}
  {
    hide Named, OwedBy, Debt;
    var pend', w := Popped(pend, p), pend[p][|pend[p]| - 1].w;
    assert SlotOk(pend, ix, dummy, p, |pend[p]| - 1);
    forall r: nat, i: nat | r < |pend'| && i < |pend'[r]| ensures SlotOk(pend', ix', dummy, r, i) {
      assert SlotOk(pend, ix, dummy, r, i);
      PopSlot(pend, ix, dummy, p, ix', r, i);
    }
    forall v | v in ix' ensures Named(pend', ix', v) && (v != w ==> Debt(pend', ix', v) == Debt(pend, ix, v)) {
      assert Named(pend, ix, v);
      PopNamed(pend, ix, p, ix', v);
    }
    if w == dummy {
      OwedAll(pend, ix, pend', ix', dummy);
    } else {
      OwedSame(pend, ix, pend', ix', dummy, w);
      OwedDebt(pend', ix', dummy, w);
    }
  }

  lemma OwedAll(pend: Stacks, ix: Index, pend': Stacks, ix': Index, dummy: Watcher)
    requires Good(pend, ix, dummy) && Good(pend', ix', dummy) && ix' == ix
    requires forall v :: v in ix ==>
      Named(pend, ix, v) && Named(pend', ix', v) && Debt(pend', ix', v) == Debt(pend, ix, v)
    ensures OwedBy(pend', ix', dummy) == OwedBy(pend, ix, dummy) == OwedBy(pend, ix, dummy) - {dummy}
  {
    hide SlotOk, Named, Debt;
  }

  /** The watcher on top of the most urgent non-empty stack is owed exactly what its slot says, and nobody owed is more
      urgent. */
  lemma TopIsRight(pend: Stacks, ix: Index, dummy: Watcher, p: nat)
    requires Good(pend, ix, dummy) && p < NUMPRI && pend[p] != [] && forall r :: p < r < NUMPRI ==> pend[r] == []
    requires pend[p][|pend[p]| - 1].w != dummy
    ensures var s := pend[p][|pend[p]| - 1]; Right(OwedBy(pend, ix, dummy), Called(s.w, s.events))
  {
    forall v | v in OwedBy(pend, ix, dummy) ensures Pri(v) <= p { assert Named(pend, ix, v); }
    assert SlotOk(pend, ix, dummy, p, |pend[p]| - 1);
  }

  lemma NothingOwed(pend: Stacks, ix: Index, dummy: Watcher)
    requires Good(pend, ix, dummy) && forall p :: 0 <= p < NUMPRI ==> pend[p] == []
    ensures OwedBy(pend, ix, dummy) == map[]
  {
    forall v | v in ix ensures ix[v] == 0 { assert Named(pend, ix, v); }
  }

  lemma AdoptGood(pend: Stacks, ix: Index, dummy: Watcher, w: Watcher)
    requires Good(pend, ix, dummy) && w !in ix && w != dummy
    ensures Good(pend, ix[w := 0], dummy) && OwedBy(pend, ix[w := 0], dummy) == OwedBy(pend, ix, dummy)
  {
    var ix' := ix[w := 0];
    forall p: nat, i: nat | p < |pend| && i < |pend[p]| ensures SlotOk(pend, ix', dummy, p, i) {
      assert SlotOk(pend, ix, dummy, p, i);
    }
    forall v | v in ix' ensures Named(pend, ix', v) { assert v in ix ==> Named(pend, ix, v); }
  }

  // ---------- the order of the calls ----------

  /** Nearer to being called: more urgent, or nearer the top of the same stack. */
  ghost predicate Above(v: Watcher, w: Watcher, ix: Index)
    requires v in ix && w in ix
  {
    v.priority > w.priority || (v.priority == w.priority && ix[v] > ix[w])
  }

  /** No callback of the script feeds or clears `w`. */
  ghost predicate Spares(script: seq<seq<Act>>, w: Watcher) {
    forall k, i :: 0 <= k < |script| && 0 <= i < |script[k]| ==> script[k][i].w != w
  }

  ghost predicate SameDebt(o: Owed, o': Owed, w: Watcher) {
    (w in o <==> w in o') && (w in o ==> o[w] == o'[w])
  }

  /** Of the watchers `ks`, left alone by the script since `o0` and `ix0`, one that is still owed a call is owed what it
      was, in the slot where it was; the others that were owed one have had it. */
  ghost predicate Waits(ks: set<Watcher>, ix0: Index, o0: Owed, ix: Index, o: Owed, calls: seq<Slot>) {
    forall w :: w in ks ==>
      && w in ix0 && w in ix
      && (w in o ==> w in o0 && o[w] == o0[w] && ix[w] == ix0[w])
      && (w in o0 && w !in o ==> Slot(w, o0[w]) in calls)
  }

  /** The calls to `ks` have come from the top down, and whoever of them still waits was below. */
  ghost predicate Ranked(ks: set<Watcher>, ix0: Index, o: Owed, calls: seq<Slot>) {
    && (forall i :: 0 <= i < |calls| && calls[i].w in ks ==> calls[i].w in ix0)
    && (forall i, w :: 0 <= i < |calls| && calls[i].w in ks && w in ks && w in ix0 && w in o ==>
      Above(calls[i].w, w, ix0))
    && (forall i, j :: 0 <= i < j < |calls| && calls[i].w in ks && calls[j].w in ks ==>
      Above(calls[i].w, calls[j].w, ix0))
  }

  /** The top of the most urgent stack is above everybody else who is owed a call. */
  lemma TopIsAbove(pend: Stacks, ix: Index, dummy: Watcher, p: nat, v: Watcher)
    requires Good(pend, ix, dummy) && p < NUMPRI && pend[p] != [] && forall r :: p < r < NUMPRI ==> pend[r] == []
    requires pend[p][|pend[p]| - 1].w != dummy && v in OwedBy(pend, ix, dummy) && v != pend[p][|pend[p]| - 1].w
    ensures var w := pend[p][|pend[p]| - 1].w; w in ix && v in ix && Above(w, v, ix)
  {
    assert Named(pend, ix, v);
    assert SlotOk(pend, ix, dummy, p, |pend[p]| - 1);
  }

  /** Popping and calling the top. */
  lemma RankCall(ks: set<Watcher>, ix0: Index, o0: Owed, ix: Index, o: Owed, calls: seq<Slot>, s: Slot)
    requires Waits(ks, ix0, o0, ix, o, calls) && Ranked(ks, ix0, o, calls) && s.w in o && o[s.w] == s.events
      && s.w in ix
    requires forall v :: v in o && v != s.w ==> v in ix && Above(s.w, v, ix)
    ensures Waits(ks, ix0, o0, ix[s.w := 0], o - {s.w}, calls + [s]) && Ranked(ks, ix0, o - {s.w}, calls + [s])
  {
    var calls' := calls + [s];
    assert calls'[|calls|] == s;
    forall w | w in ks && w in o0 && w !in o - {s.w} ensures Slot(w, o0[w]) in calls' {}
    forall i, j | 0 <= i < j < |calls'| && calls'[i].w in ks && calls'[j].w in ks
      ensures Above(calls'[i].w, calls'[j].w, ix0)
    {
      assert i < |calls| && calls'[i] == calls[i];
    }
  }

  /** What does not concern the watchers `ks` leaves their ranks alone. */
  lemma RankKeeps(ks: set<Watcher>, ix0: Index, o0: Owed, ix: Index, o: Owed, ix': Index, o': Owed, calls: seq<Slot>)
    requires Waits(ks, ix0, o0, ix, o, calls) && Ranked(ks, ix0, o, calls)
    requires forall w :: w in ks ==> w in ix && w in ix' && ix'[w] == ix[w] && SameDebt(o, o', w)
    ensures Waits(ks, ix0, o0, ix', o', calls) && Ranked(ks, ix0, o', calls)
  {
  }

  lemma RankNone(ks: set<Watcher>, ix: Index, o: Owed)
    requires ks <= ix.Keys
    ensures Waits(ks, ix, o, ix, o, []) && Ranked(ks, ix, o, [])
  {
  }

  ghost function Total(pend: Stacks): nat
    requires |pend| == NUMPRI
  {
    |pend[0]| + |pend[1]| + |pend[2]| + |pend[3]| + |pend[4]|
  }

  class PendingQueue {
    var pend: Stacks             // pendings [pri] [0 .. pendingcnt [pri])
    var pendingpri: int
    const dummy: Watcher         // pending_w, standing in for cleared watchers
    ghost var ws: set<Watcher>   // every watcher used with the loop

    ghost function Ix(): (ix: Index)
      reads this`ws, ws`pending
      ensures ix.Keys == ws
    {
      map w | w in ws :: w.pending
    }

    ghost predicate Valid()
      reads this`pend, this`ws, ws`pending
    {
      Good(pend, Ix(), dummy)
    }

    ghost function OwedNow(): Owed
      requires Valid()
      reads this`pend, this`ws, ws`pending
    {
      OwedBy(pend, Ix(), dummy)
    }

    constructor (dummy: Watcher)
      ensures Valid() && ws == {} && OwedNow() == map[] && this.dummy == dummy
    {
      pend := [[], [], [], [], []];
      pendingpri := 0;
      this.dummy := dummy;
      ws := {};
    }

    /** An initialised watcher (ev_init) comes into use with this loop. */
    ghost method Adopt(w: Watcher)
      requires Valid() && w !in ws && w != dummy && w.pending == 0
      modifies this`ws
      ensures Valid() && ws == old(ws) + {w} && OwedNow() == old(OwedNow())
    {
      hide SlotOk, OwedBy;
      ghost var ix := Ix();
      AdoptGood(pend, ix, dummy, w);
      ws := ws + {w};
      assert Ix() == ix[w := 0];
    }

    lemma PendingInStack(w: Watcher)
      requires Valid() && w in ws
      ensures |pend| == NUMPRI && 0 <= w.pending <= |pend[Pri(w)]| && (w.pending != 0 <==> w in OwedNow())
    {
      hide SlotOk;
      OwedIff(pend, Ix(), dummy, w);
    }

    /** ev_feed_event */
    method FeedEvent(w: Watcher, revents: bv32)
      requires Valid() && w in ws
      modifies this`pend, this`pendingpri, w`pending
      ensures Valid() && pendingpri == NUMPRI - 1
      ensures OwedNow() == After(old(OwedNow()), Fed(w, revents))
      ensures old(w.pending) == 0 ==> pend == Pushed(old(pend), w, revents)
      ensures |old(pend)| == NUMPRI
        && w.pending == if old(w.pending) != 0 then old(w.pending) else |old(pend)[Pri(w)]| + 1
    {
      hide Good, Put, Pushed, OwedBy, Or;
      ghost var pend0, ix := pend, Ix();
      OwedIff(pend, ix, dummy, w);
      var pri := Pri(w);
      if w.pending != 0 {
        var s := pend[pri][w.pending - 1];
        PutGood(pend0, ix, dummy, w, s.(events := Or(s.events, revents)), ix);
        PutIs(pend0, w, w.pending - 1, s.(events := Or(s.events, revents)));
        pend := pend[pri := pend[pri][w.pending - 1 := s.(events := Or(s.events, revents))]];
      } else {
        PushGood(pend0, ix, dummy, w, revents);
        PutIs(pend0, w, 0, Slot(w, revents));
        w.pending := |pend[pri]| + 1;
        pend := pend[pri := pend[pri] + [Slot(w, revents)]];
      }
      pendingpri := NUMPRI - 1;
      assert Ix() == if ix[w] != 0 then ix else ix[w := |pend0[pri]| + 1];
    }

    /** clear_pending, and ev_clear_pending with the events it returns. */
    method ClearPending(w: Watcher) returns (events: bv32)
      requires Valid() && w in ws
      modifies this`pend, w`pending
      ensures Valid() && w.pending == 0
      ensures OwedNow() == After(old(OwedNow()), Cleared(w))
      ensures events == if w in old(OwedNow()) then old(OwedNow())[w] else 0
      ensures old(w.pending) == 0 ==> pend == old(pend)
      ensures forall p :: 0 <= p < NUMPRI && old(pend[p]) == [] ==> pend[p] == []
    {
      hide Good, Put, OwedBy;
      ghost var pend0, ix := pend, Ix();
      OwedIff(pend, ix, dummy, w);
      events := 0;
      if w.pending != 0 {
        var pri, i := Pri(w), w.pending - 1;
        PutGood(pend, ix, dummy, w, pend[pri][i].(w := dummy), ix[w := 0]);
        PutIs(pend0, w, i, pend[pri][i].(w := dummy));
        events := pend[pri][i].events;
        pend := pend[pri := pend[pri][i := pend[pri][i].(w := dummy)]];
        w.pending := 0;
        assert Ix() == ix[w := 0];
      }
    }

    /** A callback that feeds and clears watchers. */
    method RunCallback(acts: seq<Act>, ghost tr0: seq<Ev>, ghost o: Owed) returns (ghost tr: seq<Ev>)
      requires Valid() && (forall i :: 0 <= i < |acts| ==> acts[i].w in ws)
      requires Legal(o, tr0) && Final(o, tr0) == OwedNow() && 0 <= pendingpri < NUMPRI
      modifies this`pend, this`pendingpri, ws`pending
      ensures Valid() && Legal(o, tr) && Final(o, tr) == OwedNow() && CallsOf(tr) == CallsOf(tr0)
      ensures 0 <= pendingpri < NUMPRI
      ensures acts == [] ==> pend == old(pend) && pendingpri == old(pendingpri)
      ensures pendingpri == NUMPRI - 1
        || (pendingpri == old(pendingpri)
            && forall p :: pendingpri < p < NUMPRI && old(pend[p]) == [] ==> pend[p] == [])
      ensures forall w :: w in ws && Spares([acts], w) ==>
        w.pending == old(w.pending) && SameDebt(old(OwedNow()), OwedNow(), w)
    {
      hide SlotOk, Named, OwedBy, Legal, Final, CallsOf, After, Spares, SameDebt;
      tr := tr0;
      ghost var o1 := OwedNow();
      forall w | w in ws ensures SameDebt(o1, o1, w) { DebtTrans(o1, o1, o1, w); }
      for i := 0 to |acts|
        invariant Valid() && Legal(o, tr) && Final(o, tr) == OwedNow() && CallsOf(tr) == CallsOf(tr0)
        invariant i == 0 ==> pend == old(pend) && pendingpri == old(pendingpri)
        invariant pendingpri == NUMPRI - 1 || pendingpri == old(pendingpri)
        invariant 0 <= pendingpri < NUMPRI
        invariant pendingpri != NUMPRI - 1 ==>
          forall p :: pendingpri < p < NUMPRI && old(pend[p]) == [] ==> pend[p] == []
        invariant forall w :: w in ws && Spares([acts], w) ==> w.pending == old(w.pending) && SameDebt(o1, OwedNow(), w)
      {
        var a := acts[i];
        ghost var o2 := OwedNow();
        if a.FeedIt? {
          FeedEvent(a.w, a.revents);
          LegalMore(o, tr, Fed(a.w, a.revents));
          CallsMore(tr, Fed(a.w, a.revents));
          tr := tr + [Fed(a.w, a.revents)];
        } else {
          var _ := ClearPending(a.w);
          LegalMore(o, tr, Cleared(a.w));
          CallsMore(tr, Cleared(a.w));
          tr := tr + [Cleared(a.w)];
        }
        forall w | w in ws && Spares([acts], w) ensures w != a.w && SameDebt(o1, OwedNow(), w) {
          SparesAct(acts, i, w);
          OtherDebt(o2, tr[|tr| - 1], w);
          DebtTrans(o1, o2, OwedNow(), w);
        }
      }
    }

    /** ev_invoke_pending. `script[k]` is what the k-th callback does; later callbacks do nothing. Every call is right
        when it is made, and all that was fed has been called or cleared in the end. Whoever is owed a call and is left
        alone by the callbacks gets exactly one, with the events it was owed; these calls come in the order of urgency
        and, per priority, last in, first out. */
    method InvokePending(script: seq<seq<Act>>) returns (calls: seq<Slot>, ghost tr: seq<Ev>)
      requires Valid() && forall k, i :: 0 <= k < |script| && 0 <= i < |script[k]| ==> script[k][i].w in ws
      modifies this`pend, this`pendingpri, ws`pending
      ensures Valid() && OwedNow() == map[] && forall p :: 0 <= p < NUMPRI ==> pend[p] == []
      ensures Legal(old(OwedNow()), tr) && Final(old(OwedNow()), tr) == map[] && calls == CallsOf(tr)
      ensures forall w :: w in old(OwedNow()) && Spares(script, w) ==> Slot(w, old(OwedNow())[w]) in calls
      ensures forall s :: s in calls ==> s.w in ws
      ensures forall i, j :: 0 <= i < j < |calls| && Spares(script, calls[i].w) && Spares(script, calls[j].w) ==>
        Above(calls[i].w, calls[j].w, old(Ix()))
      ensures script == [] ==> calls == LifoBelow(old(pend), dummy, NUMPRI)
    {
      hide SlotOk, Named, OwedBy, Legal, Final, CallsOf, After, LifoBelow, Spares, Waits, Ranked, Above, Good;
      FiveStacks(pend, Ix(), dummy);
      ghost var o, lifo := OwedNow(), LifoBelow(pend, dummy, NUMPRI);
      ghost var ks, ix0 := (set w | w in ws && Spares(script, w)), Ix();
      calls, tr := [], [];
      LegalNone(o);
      RankNone(ks, ix0, o);
      OwedKnown(pend, ix0, dummy);
      var k := 0;
      pendingpri := NUMPRI;
      while pendingpri != 0
        invariant Going(script, k, o, tr, calls) && Standing(ks, ix0, o, calls) && |pend| == NUMPRI
        invariant 0 <= pendingpri <= NUMPRI && forall p :: pendingpri <= p < NUMPRI ==> pend[p] == []
        invariant script == [] ==> calls + LifoBelow(pend, dummy, NUMPRI) == lifo
        decreases |script| - k, pendingpri
      {
        pendingpri := pendingpri - 1;
        k, calls, tr := InvokeStack(script, k, calls, tr, o, ks, ix0);
      }
      NothingOwed(pend, Ix(), dummy);
      LifoNone(pend, dummy, NUMPRI);
      AllServed(ks, ix0, o, calls);
    }

    /** The inner loop of ev_invoke_pending. */
    method InvokeStack(script: seq<seq<Act>>, k0: nat, calls0: seq<Slot>, ghost tr0: seq<Ev>, ghost o: Owed,
        ghost ks: set<Watcher>, ghost ix0: Index)
      returns (k: nat, calls: seq<Slot>, ghost tr: seq<Ev>)
      requires Going(script, k0, o, tr0, calls0) && |pend| == NUMPRI
      requires 0 <= pendingpri < NUMPRI && forall p :: pendingpri < p < NUMPRI ==> pend[p] == []
      requires Standing(ks, ix0, o, calls0) && forall w :: w in ks ==> Spares(script, w)
      modifies this`pend, this`pendingpri, ws`pending
      ensures Going(script, k, o, tr, calls) && Standing(ks, ix0, o, calls) && |pend| == NUMPRI
      ensures 0 <= pendingpri < NUMPRI && forall p :: pendingpri <= p < NUMPRI ==> pend[p] == []
      ensures k0 <= k && (k == k0 ==> pendingpri == old(pendingpri))
      ensures script == [] ==> calls + LifoBelow(pend, dummy, NUMPRI) == calls0 + old(LifoBelow(pend, dummy, NUMPRI))
    {
      hide SlotOk, Named, OwedBy, Legal, Final, CallsOf, After, LifoBelow, Spares, Waits, Ranked, Above, Good, Total;
      k, calls, tr := k0, calls0, tr0;
      while |pend[pendingpri]| != 0
        invariant Going(script, k, o, tr, calls) && Standing(ks, ix0, o, calls) && |pend| == NUMPRI
        invariant 0 <= pendingpri < NUMPRI && forall p :: pendingpri < p < NUMPRI ==> pend[p] == []
        invariant k0 <= k && (k == k0 ==> pendingpri == old(pendingpri))
        invariant script == [] ==>
          calls + LifoBelow(pend, dummy, NUMPRI) == calls0 + old(LifoBelow(pend, dummy, NUMPRI))
        decreases |script| - k, Total(pend)
      {
        k, calls, tr := InvokeTop(script, k, calls, tr, o, ks, ix0);
        FiveStacks(pend, Ix(), dummy);
      }
    }

    /** What holds between two callbacks. */
    ghost predicate Going(script: seq<seq<Act>>, k: nat, o: Owed, tr: seq<Ev>, calls: seq<Slot>)
      reads this`pend, this`ws, ws`pending
    {
      && Valid() && k <= |script| && (forall m, i :: 0 <= m < |script| && 0 <= i < |script[m]| ==> script[m][i].w in ws)
      && Legal(o, tr) && Final(o, tr) == OwedNow() && calls == CallsOf(tr)
    }

    /** Where the watchers `ks` stand between two callbacks that leave them alone. */
    ghost predicate Standing(ks: set<Watcher>, ix0: Index, o: Owed, calls: seq<Slot>)
      requires Valid()
      reads this`pend, this`ws, ws`pending
    {
      ks <= ws && (forall s :: s in calls ==> s.w in ws)
      && Waits(ks, ix0, o, Ix(), OwedNow(), calls) && Ranked(ks, ix0, OwedNow(), calls)
    }

    /** One turn of the inner loop: pop the top of the most urgent stack and call it. */
    method InvokeTop(script: seq<seq<Act>>, k0: nat, calls0: seq<Slot>, ghost tr0: seq<Ev>, ghost o: Owed,
        ghost ks: set<Watcher>, ghost ix0: Index)
      returns (k: nat, calls: seq<Slot>, ghost tr: seq<Ev>)
      requires Going(script, k0, o, tr0, calls0)
      requires 0 <= pendingpri < NUMPRI && pend[pendingpri] != []
      requires forall p :: pendingpri < p < NUMPRI ==> pend[p] == []
      requires Standing(ks, ix0, o, calls0) && forall w :: w in ks ==> Spares(script, w)
      modifies this`pend, this`pendingpri, ws`pending
      ensures Going(script, k, o, tr, calls) && Standing(ks, ix0, o, calls)
      ensures 0 <= pendingpri < NUMPRI && forall p :: pendingpri < p < NUMPRI ==> pend[p] == []
      ensures k0 <= k && (k == k0 ==> Total(pend) == old(Total(pend)) - 1 && pendingpri == old(pendingpri))
      ensures script == [] ==> calls + LifoBelow(pend, dummy, NUMPRI) == calls0 + old(LifoBelow(pend, dummy, NUMPRI))
    {
      hide SlotOk, Named, OwedBy, Legal, Final, CallsOf, After, LifoBelow, Right, Total, Waits, Ranked, Above, Spares,
        SameDebt, Good;
      ghost var pend0, ix, pri := pend, Ix(), pendingpri;
      FiveStacks(pend0, ix, dummy);
      k, calls, tr := k0, calls0, tr0;
      var stack := pend[pendingpri];
      var p := stack[|stack| - 1];
      ghost var ix' := if p.w == dummy then ix else ix[p.w := 0];
      PopGood(pend0, ix, dummy, pri, ix');
      PopTotal(pend0, pri);
      LifoPop(pend0, dummy, pri, NUMPRI);
      pend := pend[pendingpri := stack[..|stack| - 1]];
      if p.w == dummy { // pendingcb does nothing
        AfterDummy(pend0, ix, dummy);
        return;
      }
      TopIsRight(pend0, ix, dummy, pri);
      p.w.pending := 0;
      assert Ix() == ix';
      LegalMore(o, tr, Called(p.w, p.events));
      CallsMore(tr, Called(p.w, p.events));
      CalledIs(OwedBy(pend0, ix, dummy), p.w, p.events);
      RankTop(ks, ix0, o, pend0, ix, dummy, pri, calls);
      calls, tr := calls + [p], tr + [Called(p.w, p.events)];
      Assoc(calls0, [p], LifoBelow(pend, dummy, NUMPRI));
      if k < |script| {
        assert forall p :: pri < p < NUMPRI ==> pend[p] == [];
        ghost var o1 := OwedNow();
        tr := RunCallback(script[k], tr, o);
        forall w | w in ks ensures Spares([script[k]], w) { SparesOne(script, k, w); }
        RankKeeps(ks, ix0, o, ix', o1, Ix(), OwedNow(), calls);
        k := k + 1;
      }
    }
  }

  lemma SparesOne(script: seq<seq<Act>>, k: nat, w: Watcher)
    requires Spares(script, w) && k < |script|
    ensures Spares([script[k]], w)
  {
  }

  lemma SparesAct(acts: seq<Act>, i: nat, w: Watcher)
    requires Spares([acts], w) && i < |acts|
    ensures acts[i].w != w
  {
    assert [acts][0][i] == acts[i];
  }

  /** What happens to one watcher is no business of the others. */
  lemma OtherDebt(o: Owed, e: Ev, w: Watcher)
    requires e.w != w
    ensures SameDebt(o, After(o, e), w)
  {
  }

  lemma DebtTrans(o: Owed, o1: Owed, o2: Owed, w: Watcher)
    ensures SameDebt(o, o, w) && (SameDebt(o, o1, w) && SameDebt(o1, o2, w) ==> SameDebt(o, o2, w))
  {
  }

  /** The ranks after the top of the most urgent stack has been called. */
  lemma RankTop(ks: set<Watcher>, ix0: Index, o0: Owed, pend: Stacks, ix: Index, dummy: Watcher, p: nat,
      calls: seq<Slot>)
    requires Good(pend, ix, dummy) && p < NUMPRI && pend[p] != [] && forall r :: p < r < NUMPRI ==> pend[r] == []
    requires pend[p][|pend[p]| - 1].w != dummy
    requires var o := OwedBy(pend, ix, dummy); Waits(ks, ix0, o0, ix, o, calls) && Ranked(ks, ix0, o, calls)
    ensures var s, o := pend[p][|pend[p]| - 1], OwedBy(pend, ix, dummy) - {pend[p][|pend[p]| - 1].w};
      Waits(ks, ix0, o0, ix[s.w := 0], o, calls + [s]) && Ranked(ks, ix0, o, calls + [s])
  {
    hide Good, OwedBy, Waits, Ranked, Above;
    FiveStacks(pend, ix, dummy);
    OwedKnown(pend, ix, dummy);
    var s, o := pend[p][|pend[p]| - 1], OwedBy(pend, ix, dummy);
    TopIsRight(pend, ix, dummy, p);
    forall v | v in o && v != s.w ensures v in ix && Above(s.w, v, ix) { TopIsAbove(pend, ix, dummy, p, v); }
    RankCall(ks, ix0, o0, ix, o, calls, s);
  }

  lemma FiveStacks(pend: Stacks, ix: Index, dummy: Watcher)
    requires Good(pend, ix, dummy)
    ensures |pend| == NUMPRI
  {
  }

  lemma OwedKnown(pend: Stacks, ix: Index, dummy: Watcher)
    requires Good(pend, ix, dummy)
    ensures OwedBy(pend, ix, dummy).Keys <= ix.Keys
  {
  }

  /** Nobody waits any more. */
  lemma AllServed(ks: set<Watcher>, ix0: Index, o0: Owed, calls: seq<Slot>)
    requires (exists ix :: Waits(ks, ix0, o0, ix, map[], calls)) && Ranked(ks, ix0, map[], calls)
    ensures forall w :: w in ks && w in o0 ==> Slot(w, o0[w]) in calls
    ensures forall i, j :: 0 <= i < j < |calls| && calls[i].w in ks && calls[j].w in ks ==>
      calls[i].w in ix0 && calls[j].w in ix0 && Above(calls[i].w, calls[j].w, ix0)
  {
  }

  lemma OwedIff(pend: Stacks, ix: Index, dummy: Watcher, w: Watcher)
    requires Good(pend, ix, dummy) && w in ix
    ensures |pend| == NUMPRI && Named(pend, ix, w) && w != dummy
    ensures w in OwedBy(pend, ix, dummy) <==> ix[w] != 0
    ensures ix[w] != 0 ==> OwedBy(pend, ix, dummy)[w] == pend[Pri(w)][ix[w] - 1].events
    ensures w !in OwedBy(pend, ix, dummy) ==> OwedBy(pend, ix, dummy) - {w} == OwedBy(pend, ix, dummy)
  {
  }

  lemma PutIs(pend: Stacks, w: Watcher, i: nat, s: Slot)
    requires |pend| == NUMPRI
    ensures i < |pend[Pri(w)]| ==> Put(pend, Pri(w), i, s) == pend[Pri(w) := pend[Pri(w)][i := s]]
    ensures Pushed(pend, w, s.events) == pend[Pri(w) := pend[Pri(w)] + [Slot(w, s.events)]]
  {
  }

  lemma LegalNone(o: Owed)
    ensures Legal(o, []) && Final(o, []) == o && CallsOf([]) == []
  {
  }

  lemma {:induction false} LifoNone(pend: Stacks, dummy: Watcher, n: nat)
    requires n <= |pend| && forall p :: 0 <= p < n ==> pend[p] == []
    ensures LifoBelow(pend, dummy, n) == []
  {
    if n > 0 { LifoNone(pend, dummy, n - 1); }
  }

  lemma PopTotal(pend: Stacks, p: nat)
    requires |pend| == NUMPRI && p < NUMPRI && pend[p] != []
    ensures |Popped(pend, p)| == NUMPRI && Total(Popped(pend, p)) == Total(pend) - 1
  {
  }

  lemma AfterDummy(pend: Stacks, ix: Index, dummy: Watcher)
    requires Good(pend, ix, dummy)
    ensures OwedBy(pend, ix, dummy) - {dummy} == OwedBy(pend, ix, dummy)
  {
  }

  lemma CalledIs(o: Owed, w: Watcher, m: bv32)
    ensures After(o, Called(w, m)) == o - {w}
  {
  }

  // ---------- what a legal trace means for one watcher ----------

  lemma {:induction false} LegalPrefix(o: Owed, tr: seq<Ev>, n: nat)
    requires Legal(o, tr) && n <= |tr|
    ensures Legal(o, tr[..n])
  {
    if n == |tr| { assert tr[..n] == tr; }
    else {
      LegalPrefix(o, tr[..|tr| - 1], n);
      assert tr[..|tr| - 1][..n] == tr[..n];
    }
  }

  /** `w` is owed at least the events `m`. */
  ghost predicate Carries(o: Owed, w: Watcher, m: bv32) { w in o && Has(o[w], m) }

  ghost predicate Answers(e: Ev, w: Watcher, m: bv32) {
    e == Cleared(w) || (e.Called? && e.w == w && Has(e.mask, m))
  }

  lemma CarryStep(o: Owed, e: Ev, w: Watcher, m: bv32)
    requires Carries(o, w, m) && Right(o, e)
    ensures if e.Fed? || e.w != w then Carries(After(o, e), w, m) else Answers(e, w, m)
  {
    hide Pri, Or, Has;
    if e.Fed? && e.w == w { OrKeeps(o[w], e.mask, m); }
  }

  lemma CarryStart(o: Owed, w: Watcher, m: bv32)
    ensures Carries(After(o, Fed(w, m)), w, m)
  {
    hide Or, Has;
    OrAbsorbs(if w in o then o[w] else 0, m);
  }

  lemma OrAbsorbs(a: bv32, m: bv32)
    ensures Has(Or(a, m), m) && Has(m, m)
  {
  }

  lemma OrKeeps(a: bv32, b: bv32, m: bv32)
    requires Has(a, m)
    ensures Has(Or(a, b), m)
  {
    assert (a | b) | m == (a | m) | b;
  }

  lemma StepAt(o: Owed, tr: seq<Ev>, n: nat)
    requires Legal(o, tr) && n < |tr|
    ensures Right(Final(o, tr[..n]), tr[n]) && Final(o, tr[..n + 1]) == After(Final(o, tr[..n]), tr[n])
  {
    assert tr[..n + 1][..n] == tr[..n];
    LegalPrefix(o, tr, n + 1);
  }

  /** A feed is answered exactly once: the next call or clear of the watcher comes, and a call carries the fed
      events. */
  lemma FeedAnswered(o: Owed, tr: seq<Ev>, i: nat, w: Watcher, m: bv32) returns (j: nat)
    requires Legal(o, tr) && i < |tr| && tr[i] == Fed(w, m) && w !in Final(o, tr)
    ensures i < j < |tr| && Answers(tr[j], w, m)
    ensures forall n :: i < n < j ==> tr[n].Fed? || tr[n].w != w
  {
    StepAt(o, tr, i);
    CarryStart(Final(o, tr[..i]), w, m);
    j := AnsweredFrom(o, tr, i, i + 1, w, m);
  }

  lemma {:induction false} AnsweredFrom(o: Owed, tr: seq<Ev>, i: nat, n: nat, w: Watcher, m: bv32) returns (j: nat)
    requires Legal(o, tr) && i < n <= |tr| && w !in Final(o, tr) && Carries(Final(o, tr[..n]), w, m)
    requires forall k :: i < k < n ==> tr[k].Fed? || tr[k].w != w
    ensures n <= j < |tr| && Answers(tr[j], w, m)
    ensures forall k :: i < k < j ==> tr[k].Fed? || tr[k].w != w
    decreases |tr| - n
  {
    hide Legal, Final, Right, After;
    assert tr[..|tr|] == tr;
    StepAt(o, tr, n);
    CarryStep(Final(o, tr[..n]), tr[n], w, m);
    if tr[n].Fed? || tr[n].w != w { j := AnsweredFrom(o, tr, i, n + 1, w, m); } else { j := n; }
  }
}
