/** What timers_reify of libev-4.15/ev.c does, as facts about the sequence of timers it has fed. */
module TimerExpiry {
  import opened Pending
  import opened TimerHeap

  const EV_TIMER: bv32 := 0x100

  ghost predicate Distinct(r: seq<Watcher>) {
    forall i, j :: 0 <= i < j < |r| ==> r[i] != r[j]
  }

  ghost predicate InOrder(r: seq<Watcher>, at: Times) {
    && (forall i :: 0 <= i < |r| ==> r[i] in at)
    && forall i, j :: 0 <= i < j < |r| ==> at[r[i]] <= at[r[j]]
  }

  ghost function SetOf(r: seq<Watcher>): (s: set<Watcher>)
  {
    set w | w in r
  }

  /** When a timer that has expired runs out next; for a one-shot, the relative time that stopping leaves. */
  function NextAt(at: real, repeat: real, now: real): real {
    if repeat == 0.0 then at - now else if at + repeat < now then now else at + repeat
  }

  /** `fed` are different timers that had run out, earliest first, and no timer that is left was earlier. */
  ghost predicate Served(fed: seq<Watcher>, at: Times, now: real) {
    && Distinct(fed) && InOrder(fed, at)
    && (forall w :: w in fed ==> at[w] < now)
    && (forall w, v :: w in fed && v in at && v !in fed ==> at[w] <= at[v])
  }

  lemma ServeNext(fed: seq<Watcher>, at: Times, now: real, w: Watcher)
    requires Served(fed, at, now) && w in at && w !in fed && at[w] < now
    requires forall v :: v in at && v !in fed ==> at[w] <= at[v]
    ensures Served(fed + [w], at, now)
  {
  }

  /** The one-shot timers among `r`. */
  ghost function OneShots(r: seq<Watcher>): (s: set<Watcher>)
    reads r`repeat
  {
    set w | w in r && w.repeat == 0.0
  }

  /** Feeding `r` from its end. */
  ghost function FeedDown(o: Owed, r: seq<Watcher>, m: bv32): Owed
    decreases |r|
  {
    if r == [] then o else FeedDown(After(o, Fed(r[|r| - 1], m)), r[..|r| - 1], m)
  }

  /** Feeding different watchers, in whatever order, adds the event to each of them once. */
  lemma {:induction false} FeedDownIs(o: Owed, r: seq<Watcher>, m: bv32, w: Watcher)
    requires Distinct(r)
    ensures w in FeedDown(o, r, m) <==> w in o || w in r
    ensures w in r ==> FeedDown(o, r, m)[w] == if w in o then Or(o[w], m) else m
    ensures w in o && w !in r ==> FeedDown(o, r, m)[w] == o[w]
    decreases |r|
  {
    if r != [] {
      assert r == r[..|r| - 1] + [r[|r| - 1]];
      FeedDownIs(After(o, Fed(r[|r| - 1], m)), r[..|r| - 1], m, w);
    }
  }

  /** From index `n` on, `r` lies in the pending stacks in reverse: of two watchers of one priority that were not
      pending at first the earlier one is nearer the top. */
  ghost predicate Stacked(r: seq<Watcher>, n: nat, o0: Owed, px: Pending.Index) {
    && (forall i :: n <= i < |r| ==> r[i] in px)
    && (forall i :: n <= i < |r| && r[i] !in o0 ==> px[r[i]] > 0)
    && forall i, j :: n <= i < j < |r| && r[i] !in o0 && r[j] !in o0 && r[i].priority == r[j].priority ==>
      px[r[i]] > px[r[j]]
  }

  lemma StackNext(r: seq<Watcher>, n: nat, o0: Owed, px: Pending.Index, k: int)
    requires Distinct(r) && n < |r| && Stacked(r, n + 1, o0, px) && r[n] in px
    requires r[n] in o0 || (k > 0 && forall v :: v in px && v.priority == r[n].priority ==> px[v] < k)
    ensures Stacked(r, n, o0, px[r[n] := k])
  {
  }

  // ---------- the order of the calls ----------

  /** `s` is the slot of a watcher of priority `p` below height `m`. */
  ghost predicate HoldsSlot(pend: Stacks, ix: Pending.Index, p: nat, m: nat, s: Slot)
    requires p < |pend| && m <= |pend[p]|
  {
    s.w in ix && Pri(s.w) == p && 1 <= ix[s.w] <= m && pend[p][ix[s.w] - 1] == s
  }

  /** Calls in the order of urgency, and within one priority from the top of the stack. */
  ghost predicate TopDown(calls: seq<Slot>, ix: Pending.Index) {
    && (forall i :: 0 <= i < |calls| ==> calls[i].w in ix)
    && forall i, j :: 0 <= i < j < |calls| ==> Above(calls[i].w, calls[j].w, ix)
  }

  lemma {:induction false} LifoOne(pend: Stacks, ix: Pending.Index, dummy: Watcher, p: nat, m: nat)
    requires Good(pend, ix, dummy) && p < NUMPRI && m <= |pend[p]|
    ensures forall i :: 0 <= i < |Lifo(pend[p][..m], dummy)| ==> HoldsSlot(pend, ix, p, m, Lifo(pend[p][..m], dummy)[i])
    ensures TopDown(Lifo(pend[p][..m], dummy), ix)
    ensures forall w :: w in ix && Pri(w) == p && 1 <= ix[w] <= m ==> pend[p][ix[w] - 1] in Lifo(pend[p][..m], dummy)
  {
    if m > 0 {
      LifoOne(pend, ix, dummy, p, m - 1);
      assert pend[p][..m][..m - 1] == pend[p][..m - 1];
      assert SlotOk(pend, ix, dummy, p, m - 1);
      forall w | w in ix && Pri(w) == p && ix[w] == m ensures pend[p][m - 1].w == w { assert Named(pend, ix, w); }
    }
  }

  /** Emptying the stacks calls every pending watcher, once, in the order of urgency and then from the top. */
  lemma {:induction false} LifoTopDown(pend: Stacks, ix: Pending.Index, dummy: Watcher, n: nat)
    requires Good(pend, ix, dummy) && n <= NUMPRI
    ensures TopDown(LifoBelow(pend, dummy, n), ix)
    ensures forall i :: 0 <= i < |LifoBelow(pend, dummy, n)| ==> Pri(LifoBelow(pend, dummy, n)[i].w) < n
    ensures forall w :: w in ix && Pri(w) < n && ix[w] != 0 ==> Debited(pend, ix, w) in LifoBelow(pend, dummy, n)
  {
    hide SlotOk, Lifo, Good;
    if n > 0 {
      LifoTopDown(pend, ix, dummy, n - 1);
      PendLength(pend, ix, dummy);
      assert pend[n - 1][..|pend[n - 1]|] == pend[n - 1];
      LifoOne(pend, ix, dummy, n - 1, |pend[n - 1]|);
    }
  }

  /** The slot that `w.pending` names. */
  ghost function Debited(pend: Stacks, ix: Pending.Index, w: Watcher): Slot
    requires |pend| == NUMPRI && w in ix && Named(pend, ix, w) && ix[w] != 0
  {
    pend[Pri(w)][ix[w] - 1]
  }

  lemma PendLength(pend: Stacks, ix: Pending.Index, dummy: Watcher)
    requires Good(pend, ix, dummy)
    ensures |pend| == NUMPRI && forall w :: w in ix ==> Named(pend, ix, w)
  {
  }

  /** An expired timer that was not pending before and is left alone by the callbacks. */
  ghost predicate Newly(w: Watcher, fed: seq<Watcher>, o0: Owed, script: seq<seq<Act>>) {
    w in fed && w !in o0 && Spares(script, w)
  }

  /** Of two calls at one priority to such timers, the first is for the timer that ran out first. */
  ghost predicate ByExpiry(calls: seq<Slot>, fed: seq<Watcher>, o0: Owed, at: Times, script: seq<seq<Act>>) {
    forall i, j :: 0 <= i < j < |calls| && Newly(calls[i].w, fed, o0, script) && Newly(calls[j].w, fed, o0, script) ==>
      calls[i].w.priority == calls[j].w.priority && calls[i].w in at && calls[j].w in at ==>
        at[calls[i].w] <= at[calls[j].w]
  }

  /** `w` is called and told of `m`. */
  ghost predicate IsCalled(calls: seq<Slot>, w: Watcher, m: bv32) {
    exists i :: 0 <= i < |calls| && calls[i].w == w && Has(calls[i].events, m)
  }

  /** What lies higher in the stacks has run out earlier. */
  lemma AboveIsEarlier(ix: Pending.Index, fed: seq<Watcher>, o0: Owed, at: Times, now: real, v: Watcher, w: Watcher)
    requires Stacked(fed, 0, o0, ix) && Served(fed, at, now) && v in fed && w in fed && v !in o0 && w !in o0
    requires v in ix && w in ix && Above(v, w, ix) && v.priority == w.priority
    ensures at[v] <= at[w]
  {
    var a :| 0 <= a < |fed| && fed[a] == v;
    var b :| 0 <= b < |fed| && fed[b] == w;
  }

  /** Calls that come from the top down, once the timers `fed` have been fed in reverse. */
  lemma ExpiryOrder(calls: seq<Slot>, ix: Pending.Index, script: seq<seq<Act>>, fed: seq<Watcher>, o0: Owed, at: Times,
      now: real)
    requires Stacked(fed, 0, o0, ix) && Served(fed, at, now) && forall s :: s in calls ==> s.w in ix
    requires forall i, j :: 0 <= i < j < |calls| && Spares(script, calls[i].w) && Spares(script, calls[j].w) ==>
      Above(calls[i].w, calls[j].w, ix)
    ensures ByExpiry(calls, fed, o0, at, script)
    ensures forall i, j :: 0 <= i < j < |calls| && Spares(script, calls[i].w) ==> calls[i].w != calls[j].w
  {
    hide Stacked, Served, Spares;
    forall i, j | 0 <= i < j < |calls| && Newly(calls[i].w, fed, o0, script) && Newly(calls[j].w, fed, o0, script)
      ensures calls[i].w.priority == calls[j].w.priority && calls[i].w in at && calls[j].w in at ==>
        at[calls[i].w] <= at[calls[j].w]
    {
      if calls[i].w.priority == calls[j].w.priority { AboveIsEarlier(ix, fed, o0, at, now, calls[i].w, calls[j].w); }
    }
  }

  /** A fed timer is owed a call with the event of an expired timer. */
  lemma FedIsCalled(calls: seq<Slot>, fed: seq<Watcher>, o0: Owed, w: Watcher)
    requires Distinct(fed) && w in fed
    ensures w in FeedDown(o0, fed, EV_TIMER)
    ensures Slot(w, FeedDown(o0, fed, EV_TIMER)[w]) in calls ==> IsCalled(calls, w, EV_TIMER)
  {
    hide FeedDown, Has, Or;
    FeedDownIs(o0, fed, EV_TIMER, w);
    if w in o0 { OrAbsorbs(o0[w], EV_TIMER); } else { OrAbsorbs(0, EV_TIMER); }
  }
}
