/** Relative timers of libev-4.15/ev.c: the heap routines on the loop's own array, start, stop, again and
    timers_reify. */
module Timers {
  import opened Pending
  import opened TimerHeap
  import opened TimerExpiry

  ghost function ActiveOf(ws: set<Watcher>): (ix: Index)
    reads ws`active
    ensures ix.Keys == ws
  {
    map w | w in ws :: w.active
  }

  ghost function TimesOf(ws: set<Watcher>): (ts: Times)
    reads ws`at
    ensures ts.Keys == ws
  {
    map w | w in ws :: w.at
  }

  class TimerLoop {
    var timers: Heap
    var now: real                // mn_now
    var activecnt: int
    var rfeeds: seq<Watcher>
    const q: PendingQueue
    ghost var started: set<Watcher>
    ghost var known: set<Watcher>  // the timers used with this loop

    /** Heap and watchers agree, whatever the order. */
    ghost predicate Shape()
      reads this`timers, this`started, started`active, started`at
    {
      Indexed(timers, ActiveOf(started)) && Cached(timers, TimesOf(started))
    }

    /** Every started timer sits in the heap at the index it knows, with its time cached and in heap order;
        no other timer is active. */
    ghost predicate Sound()
      reads this`timers, this`started, this`known, q`ws, started`active, started`at, known`active, known`repeat
    {
      && started <= known <= q.ws && Shape() && Ordered(timers)
      && Marked() && forall w :: w in known ==> w.repeat >= 0.0
    }

    ghost predicate Valid()
      reads this`timers, this`started, this`known, q`pend, q`ws, q.ws`pending, started`active, started`at, known`active,
        known`repeat
    {
      q.Valid() && Sound()
    }

    /** Of the known timers exactly the started ones are active. */
    ghost predicate Marked()
      reads this`known, this`started, known`active
    {
      forall w :: w in known ==> (w.active != 0 <==> w in started)
    }

    constructor (q: PendingQueue, now: real)
      requires q.Valid()
      ensures this.q == q && timers == [] && started == {} && known == {} && rfeeds == [] && this.now == now && Valid()
    {
      timers, started, known, rfeeds, activecnt := [], {}, {}, [], 0;
      this.q, this.now := q, now;
    }

    /** An initialised timer comes into use. */
    ghost method Adopt(w: Watcher)
      requires Valid() && w in q.ws && w.active == 0 && w.repeat >= 0.0
      modifies this`known
      ensures Valid() && known == old(known) + {w}
    {
      hide Indexed, Cached, Ordered, Good;
      StartedActive(timers, started);
      known := known + {w};
    }

    /** Puts an entry at index `k`, and tells its timer. */
    method Place(k: int, he: Anhe)
      requires HEAP0 <= k < |timers| + HEAP0 && he.w in started
      modifies this`timers, started`active
      ensures timers == old(timers)[k - HEAP0 := he]
      ensures ActiveOf(started) == old(ActiveOf(started))[he.w := k] && TimesOf(started) == old(TimesOf(started))
    {
      timers := timers[k - HEAP0 := he];
      he.w.active := k;
    }

    /** Upwards. `VI` is what the back-indices would be if the moving entry's were already right. */
    method UpHeap(k0: int, ghost n: nat)
      requires HEAP0 <= k0 < n + HEAP0 && n <= |timers|
      requires Indexed(timers, ActiveOf(started)[timers[k0 - HEAP0].w := k0]) && Cached(timers, TimesOf(started))
      requires UpOrdered(timers, n, k0 - HEAP0) && timers[k0 - HEAP0].w in started
      modifies this`timers, started`active
      ensures Shape() && |timers| == old(|timers|) && OrderedTo(timers, n) && (n == |timers| ==> Ordered(timers))
    {
      hide Indexed, Cached, UpOrdered, Ordered, OrderedTo, ActiveOf, TimesOf;
      var k := k0;
      var he := timers[k - HEAP0];
      ghost var v, vi, ts := timers, ActiveOf(started)[he.w := k], TimesOf(started);
      while true
        invariant HEAP0 <= k < n + HEAP0 && |timers| == old(|timers|)
        invariant v == timers[k - HEAP0 := he] && vi == ActiveOf(started)[he.w := k] && ts == TimesOf(started)
        invariant Indexed(v, vi) && Cached(v, ts) && UpOrdered(v, n, k - HEAP0)
        decreases k
      {
        HParentIs(k - HEAP0);
        var p := HParent(k);
        if p == k || timers[p - HEAP0].at <= he.at {
          UpDone(v, n, k - HEAP0);
          break;
        }
        UpStep(v, n, k - HEAP0);
        SwapKeeps(v, vi, ts, k - HEAP0, p - HEAP0);
        EntryIn(v, vi, p - HEAP0);
        v, vi := Swapped(v, k - HEAP0, p - HEAP0), vi[v[p - HEAP0].w := k][he.w := p];
        Place(k, timers[p - HEAP0]);
        k := p;
      }
      Place(k, he);
    }

    /** The search for the smallest child in downheap, with its fast and its slow path. */
    method MinChild(k: int) returns (minpos: int)
      requires HEAP0 <= k < |timers| + HEAP0
      ensures 4 * (k - HEAP0) + 1 < |timers| ==> HEAP0 < minpos && IsMinChild(timers, k - HEAP0, minpos - HEAP0)
    {
      var n := |timers| + HEAP0;                 // E
      var pos := DHEAP * (k - HEAP0) + HEAP0 + 1;
      minpos := pos;
      if pos + DHEAP - 1 < n {
        var minat := timers[pos - HEAP0].at;
        if timers[pos + 1 - HEAP0].at < minat { minpos := pos + 1; minat := timers[minpos - HEAP0].at; }
        if timers[pos + 2 - HEAP0].at < minat { minpos := pos + 2; minat := timers[minpos - HEAP0].at; }
        if timers[pos + 3 - HEAP0].at < minat { minpos := pos + 3; minat := timers[minpos - HEAP0].at; }
      } else if pos < n {
        var minat := timers[pos - HEAP0].at;
        if pos + 1 < n && timers[pos + 1 - HEAP0].at < minat { minpos := pos + 1; minat := timers[minpos - HEAP0].at; }
        if pos + 2 < n && timers[pos + 2 - HEAP0].at < minat { minpos := pos + 2; minat := timers[minpos - HEAP0].at; }
        assert pos + 3 >= n; // the code's fourth test cannot succeed on this path
      }
    }

    /** Away from the root. */
    method DownHeap(k0: int)
      requires HEAP0 <= k0 < |timers| + HEAP0
      requires Indexed(timers, ActiveOf(started)[timers[k0 - HEAP0].w := k0]) && Cached(timers, TimesOf(started))
      requires DownOrdered(timers, k0 - HEAP0) && timers[k0 - HEAP0].w in started
      modifies this`timers, started`active
      ensures Shape() && Ordered(timers) && |timers| == old(|timers|)
    {
      hide Indexed, Cached, DownOrdered, Ordered, IsMinChild, Swapped, ActiveOf, TimesOf;
      var k := k0;
      var he := timers[k - HEAP0];
      ghost var v, vi, ts := timers, ActiveOf(started)[he.w := k], TimesOf(started);
      while true
        invariant HEAP0 <= k < |timers| + HEAP0 && |timers| == old(|timers|)
        invariant v == timers[k - HEAP0 := he] && vi == ActiveOf(started)[he.w := k] && ts == TimesOf(started)
        invariant Indexed(v, vi) && Cached(v, ts) && DownOrdered(v, k - HEAP0)
        decreases |timers| + HEAP0 - k
      {
        var minpos := MinChild(k);
        if DHEAP * (k - HEAP0) + HEAP0 + 1 >= |timers| + HEAP0 {
          Childless(v, k - HEAP0);
          break;
        }
        Sink(timers, he, vi, ts, k - HEAP0, minpos - HEAP0);
        if he.at <= timers[minpos - HEAP0].at { break; }
        vi := vi[timers[minpos - HEAP0].w := k][he.w := minpos];
        v := timers[k - HEAP0 := timers[minpos - HEAP0]][minpos - HEAP0 := he];
        Place(k, timers[minpos - HEAP0]);
        k := minpos;
      }
      Place(k, he);
    }

    /** adjustheap */
    method AdjustHeap(k: int)
      requires HEAP0 <= k < |timers| + HEAP0
      requires Indexed(timers, ActiveOf(started)[timers[k - HEAP0].w := k]) && Cached(timers, TimesOf(started))
      requires AroundOrdered(timers, k - HEAP0) && timers[k - HEAP0].w in started
      modifies this`timers, started`active
      ensures Shape() && Ordered(timers) && |timers| == old(|timers|)
    {
      hide Indexed, Cached, UpOrdered, DownOrdered, AroundOrdered, Ordered;
      HParentIs(k - HEAP0);
      if k > HEAP0 && timers[k - HEAP0].at <= timers[HParent(k) - HEAP0].at {
        Adjust(timers, k - HEAP0);
        UpHeap(k, |timers|);
      } else {
        Adjust(timers, k - HEAP0);
        DownHeap(k);
      }
    }

    /** reheap: puts entries in any order in heap order, by moving up one after the other. */
    method Reheap()
      requires Shape()
      modifies this`timers, started`active
      ensures Shape() && Ordered(timers) && |timers| == old(|timers|)
    {
      hide Indexed, Cached, UpOrdered, Ordered, ActiveOf, TimesOf;
      var i := 0;
      OrderedNone(timers);
      while i < |timers|
        invariant Shape() && 0 <= i <= |timers| && |timers| == old(|timers|)
        invariant OrderedTo(timers, i) && (i == |timers| ==> Ordered(timers))
      {
        EntryHas(timers, started, i);
        NextUp(timers, i);
        UpHeap(i + HEAP0, i + 1);
        i := i + 1;
      }
    }

    /** The head of ev_timer_start: the watcher becomes the last entry. */
    method Append(w: Watcher)
      requires w !in started
      modifies this`timers, this`started, this`activecnt, w`active, w`at
      ensures started == old(started) + {w} && activecnt == old(activecnt) + 1 && w.at == old(w.at) + now
      ensures timers == old(timers) + [Anhe(w.at, w)] && w.active == |old(timers)| + HEAP0
      ensures ActiveOf(started) == old(ActiveOf(started))[w := |old(timers)| + HEAP0]
      ensures TimesOf(started) == old(TimesOf(started))[w := w.at]
    {
      w.at := w.at + now;
      activecnt := activecnt + 1;
      w.active := |timers| + HEAP0;
      timers := timers + [Anhe(w.at, w)];
      started := started + {w};
    }

    /** ev_timer_start */
    method TimerStart(w: Watcher)
      requires Valid() && w in known
      modifies this`timers, this`started, this`activecnt, known`active, w`at
      ensures Valid() && started == old(started) + {w}
      ensures w.at == (if old(w in started) then old(w.at) else old(w.at) + now)
      ensures activecnt == (if old(w in started) then old(activecnt) else old(activecnt) + 1)
    {
      hide Indexed, Cached, Ordered, UpOrdered, Good, ActiveOf, TimesOf;
      if w.active != 0 { return; }
      ghost var h, ix, ts := timers, ActiveOf(started), TimesOf(started);
      Append(w);
      AppendKeeps(h, ix, ts, Anhe(w.at, w));
      AppendUp(h, Anhe(w.at, w));
      SameIndex(ix, w, |h| + HEAP0);
      UpHeap(w.active, |timers|);
      StartedActive(timers, started);
    }

    /** In ev_timer_stop: entry `active` leaves, and the last entry takes its place. */
    method Unhook(w: Watcher, active: int)
      requires HEAP0 <= active < |timers| + HEAP0
      modifies this`timers, this`started
      ensures started == old(started) - {w}
      ensures ActiveOf(started) == old(ActiveOf(started)) - {w} && TimesOf(started) == old(TimesOf(started)) - {w}
      ensures var h, n := old(timers), |old(timers)| - 1;
        timers == if active < n + HEAP0 then h[..n][active - HEAP0 := h[n]] else h[..n]
    {
      var last := timers[|timers| - 1];
      timers := timers[..|timers| - 1];
      if active < |timers| + HEAP0 { timers := timers[active - HEAP0 := last]; }
      started := started - {w};
    }

    /** The tail of ev_timer_stop. */
    method Retire(w: Watcher)
      requires w !in started
      modifies this`activecnt, w`active, w`at
      ensures activecnt == old(activecnt) - 1 && w.at == old(w.at) - now && w.active == 0
      ensures ActiveOf(started) == old(ActiveOf(started)) && TimesOf(started) == old(TimesOf(started))
    {
      w.at := w.at - now;
      activecnt := activecnt - 1;
      w.active := 0;
    }

    /** Takes a started timer out of the heap. */
    method Remove(w: Watcher)
      requires w in started && Shape() && Ordered(timers)
      modifies this`timers, this`started, this`activecnt, started`active, w`at
      ensures Shape() && Ordered(timers) && started == old(started) - {w}
      ensures activecnt == old(activecnt) - 1 && w.at == old(w.at) - now && w.active == 0
    {
      hide Indexed, Cached, Ordered, AroundOrdered, ActiveOf, TimesOf;
      ghost var h, ix, ts := timers, ActiveOf(started), TimesOf(started);
      var active := w.active;
      ActiveAt(started, w);
      EntryOf(h, ix, w);
      Unhook(w, active);
      if active < |timers| + HEAP0 {
        RefillKeeps(h, ix, ts, active - HEAP0);
        AroundRefill(h, active - HEAP0);
        AdjustHeap(active);
      } else {
        DropKeeps(h, ix, ts);
        DropLast(h);
      }
      Retire(w);
    }

    /** The part of ev_timer_stop that concerns an active timer. */
    method Deactivate(w: Watcher)
      requires Sound() && w in started
      modifies this`timers, this`started, this`activecnt, started`active, w`at
      ensures Sound() && started == old(started) - {w}
      ensures activecnt == old(activecnt) - 1 && w.at == old(w.at) - now
    {
      hide Indexed, Cached, Ordered, ActiveOf, TimesOf;
      Remove(w);
      StartedActive(timers, started);
    }

    lemma ActiveIff(w: Watcher)
      requires Sound() && w in known
      ensures (w.active != 0 <==> w in started) && w in q.ws && started <= known
    {
      hide Shape, Ordered;
    }

    /** ev_timer_stop */
    method TimerStop(w: Watcher)
      requires Valid() && w in known
      modifies this`timers, this`started, this`activecnt, known`active, w`at, w`pending, q`pend
      ensures Valid() && started == old(started) - {w} && w.pending == 0
      ensures w.at == (if old(w in started) then old(w.at) - now else old(w.at))
      ensures q.OwedNow() == After(old(q.OwedNow()), Cleared(w))
      ensures old(w.pending) == 0 ==> q.pend == old(q.pend)
      ensures activecnt == (if old(w in started) then old(activecnt) - 1 else old(activecnt))
    {
      hide Sound, Good, OwedBy, After;
      ActiveIff(w);
      var _ := q.ClearPending(w);
      if w.active == 0 { return; }
      Deactivate(w);
    }

    /** A new time for a started timer, cached and put in order. */
    method Retime(w: Watcher, at: real)
      requires w in started && Shape() && Ordered(timers)
      modifies this`timers, started`active, w`at
      ensures Shape() && Ordered(timers) && w.at == at
    {
      hide Indexed, Cached, Ordered, AroundOrdered, ActiveOf, TimesOf;
      ghost var h, ix, ts := timers, ActiveOf(started), TimesOf(started);
      ActiveAt(started, w);
      EntryOf(h, ix, w);
      SetTime(w, at);
      RetimeKeeps(h, ix, ts, w.active - HEAP0, at);
      AroundSet(h, w.active - HEAP0, h[w.active - HEAP0].(at := at));
      SameIndex(ix, w, w.active);
      AdjustHeap(w.active);
    }

    /** Gives a started timer another time, in the watcher and in its heap entry. */
    method SetTime(w: Watcher, at: real)
      requires w in started && HEAP0 <= w.active < |timers| + HEAP0
      modifies this`timers, w`at
      ensures w.at == at
      ensures timers == old(timers)[w.active - HEAP0 := old(timers)[w.active - HEAP0].(at := at)]
      ensures ActiveOf(started) == old(ActiveOf(started)) && TimesOf(started) == old(TimesOf(started))[w := at]
    {
      w.at := at;
      timers := timers[w.active - HEAP0 := timers[w.active - HEAP0].(at := w.at)];
    }

    /** The started timer `w` gets another time. */
    method Reschedule(w: Watcher, at: real)
      requires Valid() && w in started
      modifies this`timers, started`active, w`at
      ensures Valid() && w.at == at
    {
      hide Indexed, Cached, Ordered, Good, ActiveOf, TimesOf;
      Retime(w, at);
      StartedActive(timers, started);
    }

    /** The stopped timer `w` starts to run for its repeat value. */
    method Restart(w: Watcher)
      requires Valid() && w in known && w !in started
      modifies this`timers, this`started, this`activecnt, known`active, w`at
      ensures Valid() && started == old(started) + {w} && w.at == w.repeat + now
    {
      hide Indexed, Cached, Ordered, Good;
      ghost var ts := TimesOf(started);
      w.at := w.repeat;
      assert TimesOf(started) == ts;
      TimerStart(w);
    }

    /** ev_timer_again */
    method TimerAgain(w: Watcher)
      requires Valid() && w in known
      modifies this`timers, this`started, this`activecnt, known`active, w`at, w`pending, q`pend
      ensures Valid() && w.pending == 0 && q.OwedNow() == After(old(q.OwedNow()), Cleared(w))
      ensures started == if w.repeat != 0.0 then old(started) + {w} else old(started) - {w}
      ensures w.repeat != 0.0 ==> w.at == now + w.repeat
      ensures w.repeat == 0.0 ==> w.at == if w in old(started) then old(w.at) - now else old(w.at)
    {
      hide Indexed, Cached, Ordered, Good, OwedBy, After, ActiveOf, TimesOf;
      ghost var o := q.OwedNow();
      var _ := q.ClearPending(w);
      if w.active != 0 {
        if w.repeat != 0.0 {
          Reschedule(w, now + w.repeat);
        } else {
          TimerStop(w);
          ClearedIs(o, w);
        }
      } else if w.repeat != 0.0 {
        Restart(w);
      }
    }

    /** The head of the heap gets another time and sinks. */
    method RetimeFirst(w: Watcher, at: real)
      requires Valid() && timers != [] && timers[0].w == w
      modifies this`timers, started`active, w`at
      ensures Valid() && w.at == at
    {
      hide Indexed, Cached, Ordered, AroundOrdered, DownOrdered, ActiveOf, TimesOf, Good;
      ghost var h, ix, ts := timers, ActiveOf(started), TimesOf(started);
      FirstEntry(timers, started);
      SetTime(w, at);
      RetimeKeeps(h, ix, ts, 0, at);
      AroundSet(h, 0, h[0].(at := at));
      Adjust(timers, 0);
      SameIndex(ix, w, HEAP0);
      DownHeap(HEAP0);
      StartedActive(timers, started);
    }

    /** feed_reverse */
    method FeedReverse(w: Watcher)
      modifies this`rfeeds
      ensures rfeeds == old(rfeeds) + [w]
    {
      rfeeds := rfeeds + [w];
    }

    /** In timers_reify: reschedule or stop the timer that has run out. */
    method ReifyFirst(w: Watcher)
      requires Valid() && timers != [] && timers[0].w == w && timers[0].at < now
      modifies this`timers, this`started, this`activecnt, known`active, w`at, w`pending, q`pend
      ensures Valid() && w.at == NextAt(old(w.at), w.repeat, now)
      ensures started == if w.repeat != 0.0 then old(started) else old(started) - {w}
      ensures q.OwedNow() == if w.repeat != 0.0 then old(q.OwedNow()) else old(q.OwedNow()) - {w}
      ensures w.pending == if w.repeat != 0.0 then old(w.pending) else 0
    {
      hide Indexed, Cached, Ordered, Good, OwedBy, ActiveOf, TimesOf, After, Marked;
      ClearedIs(q.OwedNow(), w);
      FirstEntry(timers, started);
      if w.repeat != 0.0 {
        var at := w.at + w.repeat;
        if at < now { at := now; }
        RetimeFirst(w, at);
      } else {
        TimerStop(w);
      }
    }

    /** Where the loop in timers_reify stands when the timers `rfeeds` have been taken. */
    ghost predicate Taking(at0: Times)
      reads this`rfeeds, this`started, this`now, known`at, known`repeat, this`known
    {
      && started <= at0.Keys <= known && Served(rfeeds, at0, now)
      && (forall w :: w in at0 && w !in rfeeds ==> w in started && w.at == at0[w])
      && (forall w :: w in rfeeds ==> w.at == NextAt(at0[w], w.repeat, now) && (w in started <==> w.repeat != 0.0))
    }

    /** The entry HEAP0 is the earliest of all started timers. */
    lemma HeadIsEarliest()
      requires Valid()
      ensures q.Valid() && started <= known <= q.ws && (timers == [] <==> started == {})
      ensures timers != [] ==> timers[0].w in started && timers[0].at == timers[0].w.at
      ensures timers != [] ==> forall v :: v in started ==> timers[0].at <= v.at
    {
      hide Indexed, Cached, Ordered, Good, ActiveOf, TimesOf;
      if timers != [] { FirstEntry(timers, started); }
      Earliest(timers, started);
    }

    /** One turn of the loop in timers_reify. */
    method TakeFirst(ghost at0: Times, ghost o0: Owed)
      requires Valid() && Taking(at0) && timers != [] && timers[0].at < now
      requires q.OwedNow() == o0 - OneShots(rfeeds)
      modifies this`timers, this`started, this`activecnt, this`rfeeds, known`active, at0.Keys`at, known`pending, q`pend
      ensures Valid() && Taking(at0) && |rfeeds| == |old(rfeeds)| + 1
      ensures old(rfeeds) < rfeeds && rfeeds[|rfeeds| - 1] !in old(rfeeds)
      ensures q.OwedNow() == o0 - OneShots(rfeeds)
    {
      hide Valid, Good, OwedBy, Served, OneShots;
      HeadIsEarliest();
      var w := timers[0].w;
      ServeNext(rfeeds, at0, now, w);
      OneMore(rfeeds, w, o0);
      ReifyFirst(w);
      FeedReverse(w);
    }

    /** One turn of the loop in feed_reverse_done: the last collected watcher is fed. */
    method FeedLast(ghost r: seq<Watcher>, ghost o: Owed, revents: bv32)
      requires q.Valid() && Distinct(r) && forall w :: w in r ==> w in q.ws
      requires rfeeds != [] && |rfeeds| <= |r| && rfeeds == r[..|rfeeds|]
      requires (forall w :: w in rfeeds ==> (w in q.OwedNow() <==> w in o)) && Stacked(r, |rfeeds|, o, q.Ix())
      modifies this`rfeeds, q`pend, q`pendingpri, q.ws`pending
      ensures q.Valid() && rfeeds == old(rfeeds)[..|old(rfeeds)| - 1]
      ensures FeedDown(q.OwedNow(), rfeeds, revents) == FeedDown(old(q.OwedNow()), old(rfeeds), revents)
      ensures (forall w :: w in rfeeds ==> (w in q.OwedNow() <==> w in o)) && Stacked(r, |rfeeds|, o, q.Ix())
    {
      hide Good, OwedBy, Stacked, FeedDown, After;
      var w := rfeeds[|rfeeds| - 1];
      ghost var px, o0 := q.Ix(), q.OwedNow();
      FeedDownLast(o0, rfeeds, revents);
      rfeeds := rfeeds[..|rfeeds| - 1];
      q.PendingInStack(w);
      forall v | v in px ensures px[v] <= |q.pend[Pri(v)]| { q.PendingInStack(v); }
      q.FeedEvent(w, revents);
      assert q.Ix() == px[w := w.pending];
      StackNext(r, |rfeeds|, o, px, w.pending);
    }

    /** feed_reverse_done: feeds the collected watchers from the last to the first. */
    method FeedReverseDone(revents: bv32)
      requires q.Valid() && rfeeds != [] && Distinct(rfeeds) && forall w :: w in rfeeds ==> w in q.ws
      modifies this`rfeeds, q`pend, q`pendingpri, q.ws`pending
      ensures q.Valid() && rfeeds == [] && q.OwedNow() == FeedDown(old(q.OwedNow()), old(rfeeds), revents)
      ensures Stacked(old(rfeeds), 0, old(q.OwedNow()), q.Ix())
    {
      hide Good, OwedBy, After, FeedDown, Stacked;
      ghost var o, r := q.OwedNow(), rfeeds;
      FeedNobody(r, o, q.Ix(), revents);
      while rfeeds != []
        invariant q.Valid() && |rfeeds| <= |r| && rfeeds == r[..|rfeeds|]
        invariant FeedDown(q.OwedNow(), rfeeds, revents) == FeedDown(o, r, revents)
        invariant forall w :: w in rfeeds ==> (w in q.OwedNow() <==> w in o)
        invariant Stacked(r, |rfeeds|, o, q.Ix())
      {
        FeedLast(r, o, revents);
      }
      FeedNobody([], q.OwedNow(), q.Ix(), revents);
    }

    /** The do loop of timers_reify: takes every timer that has run out, earliest first, and terminates. */
    method TakeDue()
      requires Valid() && rfeeds == []
      modifies this`timers, this`started, this`activecnt, this`rfeeds, known`active, started`at, known`pending, q`pend
      ensures Valid() && Taken(old(TimesOf(started)), rfeeds) && q.OwedNow() == old(q.OwedNow()) - OneShots(rfeeds)
    {
      hide Valid, Taking, Good, OwedBy, OneShots;
      HeadIsEarliest();
      ghost var at0, o0 := TimesOf(started), q.OwedNow();
      TakingNone();
      while timers != [] && timers[0].at < now
        invariant Valid() && Taking(at0) && at0.Keys == old(started) && q.Valid()
          && q.OwedNow() == o0 - OneShots(rfeeds)
        decreases at0.Keys - SetOf(rfeeds)
      {
        ghost var r := rfeeds;
        TakeFirst(at0, o0);
        TakingShrinks(at0, r);
        HeadIsEarliest();
      }
      TakingDone(at0);
    }

    /** `fed` lists earliest first exactly the timers that had run out when `at0` was taken. The repeating ones of
        them run on with a new time, the others are stopped; nothing else has changed, and nothing is left to do. */
    ghost predicate Taken(at0: Times, fed: seq<Watcher>)
      reads this`started, this`now, known`at, known`repeat, this`known
    {
      && started <= at0.Keys <= known && Served(fed, at0, now)
      && (forall w :: w in at0 ==> (w in fed <==> at0[w] < now))
      && (forall w :: w in at0 && w !in fed ==> w in started && w.at == at0[w])
      && (forall w :: w in fed ==> w.at == NextAt(at0[w], w.repeat, now) && (w in started <==> w.repeat != 0.0))
      && (forall w :: w in started ==> w.at >= now)
    }

    lemma TakingDone(at0: Times)
      requires Valid() && Taking(at0) && !(timers != [] && timers[0].at < now)
      ensures Taken(at0, rfeeds)
    {
      hide Valid;
      HeadIsEarliest();
    }

    lemma TakenServed(at0: Times, fed: seq<Watcher>)
      requires Taken(at0, fed)
      ensures Served(fed, at0, now)
    {
    }

    lemma TakenKnown(at0: Times, fed: seq<Watcher>)
      requires Sound() && Taken(at0, fed)
      ensures Distinct(fed) && forall w :: w in fed ==> w in q.ws
    {
      hide Marked, Indexed, Cached, Ordered;
    }

    /** timers_reify. Every timer that has run out is fed exactly once, and no other; `fed` lists them earliest
        first. */
    method TimersReify() returns (ghost fed: seq<Watcher>)
      requires Valid() && rfeeds == []
      modifies this`timers, this`started, this`activecnt, this`rfeeds, known`active, started`at, q`pend, q`pendingpri,
        q.ws`pending
      ensures Valid() && rfeeds == []
      ensures Taken(old(TimesOf(started)), fed)
      ensures q.OwedNow() == FeedDown(old(q.OwedNow()) - OneShots(fed), fed, EV_TIMER)
      ensures Stacked(fed, 0, old(q.OwedNow()) - OneShots(fed), q.Ix())
    {
      hide Good, OwedBy, OneShots, FeedDown, Sound, Taken, TimesOf, Stacked;
      HeadIsEarliest();
      TakeDue();
      fed := rfeeds;
      TakenKnown(old(TimesOf(started)), fed);
      if rfeeds != [] { // the first test of the loop condition came out true
        FeedReverseDone(EV_TIMER);
      } else {
        FeedNobody(fed, q.OwedNow(), q.Ix(), EV_TIMER);
      }
    }

    lemma TakingNone()
      requires Valid() && rfeeds == []
      ensures Taking(TimesOf(started)) && q.Valid() && q.OwedNow() == q.OwedNow() - OneShots(rfeeds)
    {
      hide Good, OwedBy, Indexed, Cached, Ordered;
    }

    lemma TakingShrinks(at0: Times, r: seq<Watcher>)
      requires Taking(at0) && r < rfeeds && rfeeds[|rfeeds| - 1] !in r
      ensures at0.Keys - SetOf(rfeeds) < at0.Keys - SetOf(r)
    {
      var w := rfeeds[|rfeeds| - 1];
      assert w in at0.Keys - SetOf(r) && w !in at0.Keys - SetOf(rfeeds);
    }

    /** timers_reify followed by ev_invoke_pending, with callbacks that feed and clear whatever they like. Every expired
        timer they leave alone is called, once; and of two calls at one priority to such timers that were not pending
        before, the first is for the timer that ran out first. */
    method CallTimers(script: seq<seq<Act>>) returns (ghost fed: seq<Watcher>, calls: seq<Slot>)
      requires Valid() && rfeeds == []
      requires forall k, i :: 0 <= k < |script| && 0 <= i < |script[k]| ==> script[k][i].w in q.ws
      modifies this`timers, this`started, this`activecnt, this`rfeeds, known`active, started`at
      modifies q`pend, q`pendingpri, q.ws`pending
      ensures Valid() && q.OwedNow() == map[] && Taken(old(TimesOf(started)), fed)
      ensures forall w :: w in fed && Spares(script, w) ==> IsCalled(calls, w, EV_TIMER)
      ensures forall i, j :: 0 <= i < j < |calls| && Spares(script, calls[i].w) ==> calls[i].w != calls[j].w
      ensures ByExpiry(calls, fed, old(q.OwedNow()) - OneShots(fed), old(TimesOf(started)), script)
    {
      hide Good, OwedBy, OneShots, FeedDown, Sound, Taken, TimesOf, Stacked, LifoBelow, ByExpiry, IsCalled, Served,
        Spares, Above;
      ghost var o, at0 := q.OwedNow(), TimesOf(started);
      fed := TimersReify();
      ghost var ix, o1 := q.Ix(), q.OwedNow();
      TakenServed(at0, fed);
      ghost var tr;
      calls, tr := q.InvokePending(script);
      ExpiryOrder(calls, ix, script, fed, o - OneShots(fed), at0, now);
      forall w | w in fed && Spares(script, w) ensures IsCalled(calls, w, EV_TIMER) {
        FedIsCalled(calls, fed, o - OneShots(fed), w);
      }
    }
  }

  lemma FeedNobody(r: seq<Watcher>, o: Owed, px: Pending.Index, m: bv32)
    ensures Stacked(r, |r|, o, px) && FeedDown(o, [], m) == o
  {
  }

  lemma FeedDownLast(o: Owed, r: seq<Watcher>, m: bv32)
    requires r != []
    ensures FeedDown(o, r, m) == FeedDown(After(o, Fed(r[|r| - 1], m)), r[..|r| - 1], m)
    ensures After(o, Fed(r[|r| - 1], m)).Keys == o.Keys + {r[|r| - 1]}
  {
  }

  lemma OneMore(r: seq<Watcher>, w: Watcher, o: Owed)
    ensures o - OneShots(r + [w]) == if w.repeat == 0.0 then o - OneShots(r) - {w} else o - OneShots(r)
  {
  }

  /** The entry HEAP0 is the earliest of all started timers. */
  lemma Earliest(h: Heap, ws: set<Watcher>)
    requires Indexed(h, ActiveOf(ws)) && Cached(h, TimesOf(ws)) && Ordered(h)
    ensures ws == {} <==> h == []
    ensures forall v :: v in ws ==> h[0].at <= v.at
  {
    if h != [] { FirstEntry(h, ws); }
    forall v | v in ws ensures h != [] && h[0].at <= v.at {
      assert v in ActiveOf(ws);
      FirstIsEarliest(h, v.active - HEAP0);
    }
  }

  lemma FirstEntry(h: Heap, ws: set<Watcher>)
    requires Indexed(h, ActiveOf(ws)) && Cached(h, TimesOf(ws)) && h != []
    ensures h[0].w in ws && h[0].w.active == HEAP0 && h[0].w.at == h[0].at
    ensures ActiveOf(ws)[h[0].w] == HEAP0
  {
    assert h[0].w in ActiveOf(ws);
  }

  lemma ClearedIs(o: Owed, w: Watcher)
    ensures After(o, Cleared(w)) == o - {w} == After(After(o, Cleared(w)), Cleared(w))
  {
  }

  lemma OrderedNone(h: Heap)
    ensures OrderedTo(h, 0) && (h == [] ==> Ordered(h))
  {
  }

  /** One more entry, in doubt against its parent only. */
  lemma NextUp(h: Heap, i: nat)
    requires OrderedTo(h, i) && i < |h|
    ensures UpOrdered(h, i + 1, i)
  {
  }

  lemma EntryHas(h: Heap, ws: set<Watcher>, i: nat)
    requires Indexed(h, ActiveOf(ws)) && i < |h|
    ensures h[i].w in ws && ActiveOf(ws)[h[i].w := i + HEAP0] == ActiveOf(ws)
  {
    assert h[i].w in ActiveOf(ws);
  }

  lemma EntryIn(h: Heap, ix: Index, i: nat)
    requires Indexed(h, ix) && i < |h|
    ensures h[i].w in ix
  {
  }

  lemma Childless(h: Heap, k: nat)
    requires k < |h| && DownOrdered(h, k) && 4 * k + 1 >= |h|
    ensures Ordered(h)
  {
    DownDone(h, k);
  }

  /** The hole at `k` does not matter for its children. */
  lemma MinChildHole(h: Heap, he: Anhe, k: nat, m: nat)
    requires k < |h| && IsMinChild(h, k, m)
    ensures IsMinChild(h[k := he], k, m) && m != k && m < |h|
  {
  }

  lemma DownStop(h: Heap, k: nat, m: nat)
    requires k < |h| && DownOrdered(h, k) && IsMinChild(h, k, m) && h[k].at <= h[m].at
    ensures Ordered(h)
  {
    DownDone(h, k);
  }

  /** Moving the entry at `m` into the hole at `k` moves the hole. */
  lemma SwapHole(h: Heap, he: Anhe, k: nat, m: nat)
    requires k < |h| && m < |h| && k != m
    ensures h[k := he][m] == h[m] && h[k := he][k] == he
    ensures Swapped(h[k := he], k, m) == h[k := h[m]][m := he]
  {
  }

  /** The entry `he`, which belongs at the hole `k` as far as the entries above are concerned, may stay there or changes
      places with the least child. */
  lemma Sink(h: Heap, he: Anhe, vi: Index, ts: Times, k: nat, m: nat)
    requires k < |h| && Indexed(h[k := he], vi) && Cached(h[k := he], ts) && DownOrdered(h[k := he], k)
    requires IsMinChild(h, k, m)
    ensures k < m < |h| && h[m].w in vi && (he.at <= h[m].at ==> Ordered(h[k := he]))
    ensures var v := h[k := h[m]][m := he]; he.at > h[m].at ==>
      Indexed(v, vi[h[m].w := k + HEAP0][he.w := m + HEAP0]) && Cached(v, ts) && DownOrdered(v, m)
  {
    hide Indexed, Cached, DownOrdered, Ordered, Swapped;
    var v := h[k := he];
    MinChildHole(h, he, k, m);
    EntryIn(v, vi, m);
    if he.at <= h[m].at {
      DownStop(v, k, m);
    } else {
      DownStep(v, k, m);
      SwapKeeps(v, vi, ts, k, m);
      SwapHole(h, he, k, m);
    }
  }

  /** Active indices of started timers are never 0. */
  lemma StartedActive(h: Heap, ws: set<Watcher>)
    requires Indexed(h, ActiveOf(ws))
    ensures forall w :: w in ws ==> w.active != 0
  {
    forall w | w in ws ensures w.active != 0 { assert w in ActiveOf(ws); }
  }

  lemma ActiveAt(ws: set<Watcher>, w: Watcher)
    requires w in ws
    ensures ActiveOf(ws)[w] == w.active && TimesOf(ws)[w] == w.at
  {
  }

  lemma SameIndex(ix: Index, w: Watcher, k: int)
    ensures ix[w := k][w := k] == ix[w := k] && (w in ix && ix[w] == k ==> ix[w := k] == ix)
  {
  }

  lemma EntryOf(h: Heap, ix: Index, w: Watcher)
    requires Indexed(h, ix) && w in ix
    ensures HEAP0 <= ix[w] < |h| + HEAP0 && h[ix[w] - HEAP0].w == w
    ensures h[|h| - 1].w in ix && (ix[w] < |h| - 1 + HEAP0 ==> h[|h| - 1].w != w)
  {
  }
}
