/** The descriptor table of libev-4.15/ev.c and the kernel table behind libev-4.15/ev_epoll.c, as values. */
module EpollState {
  import opened Pending

  const EV_READ: bv8 := 0x01
  const EV_WRITE: bv8 := 0x02
  const EV_IOFDSET: bv8 := 0x80    // EV__IOFDSET
  const EV_ANFD_REIFY: bv8 := 0x01
  const EV_EMASK_EPERM: bv8 := 0x80

  const EPOLLIN: bv32 := 0x01
  const EPOLLOUT: bv32 := 0x04
  const EPOLLERR: bv32 := 0x08
  const EPOLLHUP: bv32 := 0x10

  const TWO_32 := 0x1_0000_0000

  /** unsigned int */
  type Gen = g: int | 0 <= g < 0x1_0000_0000

  function Wrap(n: int): Gen { n % TWO_32 }

  datatype Anfd = Anfd(head: seq<Watcher>, events: bv8, reify: bv8, emask: bv8, egen: Gen)

  type Anfds = seq<Anfd>
  type Masks = map<Watcher, bv8>   // ev_io.events

  /** Only EV_READ and EV_WRITE. */
  predicate Plain(m: bv8) { m & 0xfc == 0 }

  function Join(a: bv8, b: bv8): bv8 { a | b }

  function Meet(a: bv8, b: bv8): bv8 { a & b }

  /** What the watchers of one descriptor ask for together. */
  ghost function Union(head: seq<Watcher>, ms: Masks): bv8 {
    if head == [] then 0
    else Join(Union(head[..|head| - 1], ms), MaskOf(head[|head| - 1], ms))
  }

  ghost function MaskOf(w: Watcher, ms: Masks): bv8 { if w in ms then ms[w] else 0 }

  /** The union asks for an event iff some watcher does. */
  lemma {:induction false} UnionAsks(head: seq<Watcher>, ms: Masks, bit: bv8)
    ensures Meet(Union(head, ms), bit) != 0 <==> exists w :: w in head && Meet(MaskOf(w, ms), bit) != 0
  {
    if head != [] {
      var w, rest := head[|head| - 1], head[..|head| - 1];
      UnionAsks(rest, ms, bit);
      JoinMeets(Union(rest, ms), MaskOf(w, ms), bit);
      assert head == rest + [w];
    }
  }

  lemma JoinMeets(a: bv8, b: bv8, bit: bv8)
    ensures Meet(Join(a, b), bit) != 0 <==> Meet(a, bit) != 0 || Meet(b, bit) != 0
  {
    assert (a | b) & bit == (a & bit) | (b & bit);
  }

  lemma {:induction false} UnionPlain(head: seq<Watcher>, ms: Masks)
    requires forall w :: w in head ==> Plain(MaskOf(w, ms))
    ensures Plain(Union(head, ms))
  {
    if head != [] {
      UnionPlain(head[..|head| - 1], ms);
      JoinPlain(Union(head[..|head| - 1], ms), MaskOf(head[|head| - 1], ms));
    }
  }

  lemma JoinPlain(a: bv8, b: bv8)
    requires Plain(a) && Plain(b)
    ensures Plain(Join(a, b))
  {
  }

  lemma {:induction false} UnionSame(head: seq<Watcher>, ms: Masks, ms': Masks)
    requires forall w :: w in head ==> MaskOf(w, ms) == MaskOf(w, ms')
    ensures Union(head, ms) == Union(head, ms')
  {
    if head != [] { UnionSame(head[..|head| - 1], ms, ms'); }
  }

  // ---------- the descriptor table ----------

  ghost predicate HeadOk(a: Anfd, fd: nat, ws: set<Watcher>) {
    && (forall i, j :: 0 <= i < j < |a.head| ==> a.head[i] != a.head[j])
    && (forall w :: w in a.head ==> w in ws && w.fd == fd)
  }

  /** The lists hold exactly the started watchers, each once, in the list of its descriptor. */
  ghost predicate HeadsOk(a: Anfds, ws: set<Watcher>) {
    && (forall fd: nat :: fd < |a| ==> HeadOk(a[fd], fd, ws))
    && (forall w :: w in ws ==> w.fd < |a| && w in a[w.fd].head)
  }

  /** From index `i` on, the change list names exactly the descriptors marked for reification, each once. */
  ghost predicate QueueOk(a: Anfds, c: seq<nat>, i: nat) {
    && i <= |c|
    && (forall j :: i <= j < |c| ==> c[j] < |a| && a[c[j]].reify != 0)
    && (forall j, k :: i <= j < k < |c| ==> c[j] != c[k])
    && (forall fd: nat :: fd < |a| && a[fd].reify != 0 ==> fd in c[i..])
  }

  /** Where nothing is to be reified the recorded events are what the watchers ask for. */
  ghost predicate SyncOk(a: Anfds, ms: Masks) {
    forall fd: nat :: fd < |a| && a[fd].reify == 0 ==> a[fd].events == Union(a[fd].head, ms)
  }

  /** The back end was last asked for the recorded events. */
  ghost predicate AskedOk(a: Anfds, asked: seq<bv8>) {
    |asked| == |a| && forall fd :: 0 <= fd < |a| ==> asked[fd] == a[fd].events && Plain(a[fd].events)
  }

  lemma AskedKeeps(a: Anfds, b: Anfds, asked: seq<bv8>, fd: nat)
    requires AskedOk(a, asked) && DiffersAt(a, b, fd) && fd < |a| && b[fd].events == a[fd].events
    ensures AskedOk(b, asked)
  {
  }

  // ---------- what list operations keep ----------

  ghost predicate DiffersAt(a: Anfds, b: Anfds, fd: nat) {
    |a| == |b| && forall g :: 0 <= g < |a| && g != fd ==> a[g] == b[g]
  }

  /** Only heads, events and marks differ. */
  ghost predicate SameRecords(a: Anfds, b: Anfds) {
    |a| == |b| && forall g :: 0 <= g < |a| ==> a[g].emask == b[g].emask && a[g].egen == b[g].egen
  }

  /** Only the back end's records differ. */
  ghost predicate SameLists(a: Anfds, b: Anfds) {
    |a| == |b| && forall g :: 0 <= g < |a| ==>
      a[g].head == b[g].head && a[g].events == b[g].events && a[g].reify == b[g].reify
  }

  lemma ListsKeep(a: Anfds, b: Anfds, ws: set<Watcher>, c: seq<nat>, i: nat, ms: Masks)
    requires HeadsOk(a, ws) && QueueOk(a, c, i) && SyncOk(a, ms) && SameLists(a, b)
    ensures HeadsOk(b, ws) && QueueOk(b, c, i) && SyncOk(b, ms)
  {
    forall fd: nat | fd < |b| ensures HeadOk(b[fd], fd, ws) { assert HeadOk(a[fd], fd, ws); }
  }

  lemma AddKeeps(a: Anfds, b: Anfds, ws: set<Watcher>, w: Watcher)
    requires HeadsOk(a, ws) && w !in ws && w.fd < |a| && DiffersAt(a, b, w.fd) && b[w.fd].head == [w] + a[w.fd].head
    ensures HeadsOk(b, ws + {w})
  {
    hide Union;
    forall fd: nat | fd < |b| ensures HeadOk(b[fd], fd, ws + {w}) { assert HeadOk(a[fd], fd, ws); }
  }

  ghost function Without(head: seq<Watcher>, i: nat): seq<Watcher>
    requires i < |head|
  {
    head[..i] + head[i + 1..]
  }

  lemma DelKeeps(a: Anfds, b: Anfds, ws: set<Watcher>, w: Watcher, i: nat)
    requires HeadsOk(a, ws) && w.fd < |a| && i < |a[w.fd].head| && a[w.fd].head[i] == w
    requires DiffersAt(a, b, w.fd) && b[w.fd].head == Without(a[w.fd].head, i)
    ensures HeadsOk(b, ws - {w}) && w !in b[w.fd].head
  {
    forall fd: nat | fd < |b| ensures HeadOk(b[fd], fd, ws - {w}) { DelHead(a, b, ws, w, i, fd); }
    forall v | v in ws - {w} ensures v in b[v.fd].head {
      assert v in a[v.fd].head;
      if v.fd == w.fd { WithoutHas(a[w.fd].head, i, v); }
    }
    assert HeadOk(b[w.fd], w.fd, ws - {w});
  }

  lemma DelHead(a: Anfds, b: Anfds, ws: set<Watcher>, w: Watcher, i: nat, fd: nat)
    requires HeadsOk(a, ws) && w.fd < |a| && i < |a[w.fd].head| && a[w.fd].head[i] == w && fd < |b|
    requires DiffersAt(a, b, w.fd) && b[w.fd].head == Without(a[w.fd].head, i)
    ensures HeadOk(b[fd], fd, ws - {w})
  {
    assert HeadOk(a[fd], fd, ws);
  }

  lemma WithoutHas(head: seq<Watcher>, i: nat, v: Watcher)
    requires i < |head| && v in head && v != head[i]
    ensures v in Without(head, i)
  {
    var j :| 0 <= j < |head| && head[j] == v;
    if j < i { assert Without(head, i)[j] == v; } else { assert Without(head, i)[j - 1] == v; }
  }

  /** Descriptor `fd` has changed and is marked; only its own watchers may have changed what they ask for. */
  lemma SyncTouched(a: Anfds, b: Anfds, ms: Masks, ms': Masks, fd: nat)
    requires SyncOk(a, ms) && fd < |a| && DiffersAt(a, b, fd) && b[fd].reify != 0
    requires forall g, w :: 0 <= g < |a| && g != fd && w in a[g].head ==> MaskOf(w, ms) == MaskOf(w, ms')
    ensures SyncOk(b, ms')
  {
    forall g: nat | g < |b| && b[g].reify == 0 ensures b[g].events == Union(b[g].head, ms') {
      UnionSame(a[g].head, ms, ms');
    }
  }

  lemma QueueSame(a: Anfds, b: Anfds, c: seq<nat>, i: nat, fd: nat)
    requires QueueOk(a, c, i) && fd < |a| && DiffersAt(a, b, fd) && b[fd].reify == a[fd].reify
    ensures QueueOk(b, c, i)
  {
  }

  /** Watcher `w` joins its list, which is marked. */
  lemma StartKeeps(a: Anfds, b: Anfds, ws: set<Watcher>, ms: Masks, w: Watcher, m: bv8)
    requires HeadsOk(a, ws) && SyncOk(a, ms) && w !in ws && w.fd < |a| && DiffersAt(a, b, w.fd)
    requires b[w.fd].head == [w] + a[w.fd].head && b[w.fd].reify != 0
    requires b[w.fd].emask == a[w.fd].emask && b[w.fd].egen == a[w.fd].egen
    ensures HeadsOk(b, ws + {w}) && SyncOk(b, ms[w := m]) && SameRecords(a, b)
  {
    hide Union, SyncOk;
    AddKeeps(a, b, ws, w);
    forall g, v | 0 <= g < |a| && v in a[g].head ensures v != w { assert HeadOk(a[g], g, ws); }
    SyncTouched(a, b, ms, ms[w := m], w.fd);
  }

  /** Watcher `w` leaves its list, which is marked. */
  lemma StopKeeps(a: Anfds, b: Anfds, ws: set<Watcher>, ms: Masks, w: Watcher, i: nat)
    requires HeadsOk(a, ws) && SyncOk(a, ms) && w.fd < |a| && i < |a[w.fd].head| && a[w.fd].head[i] == w
    requires DiffersAt(a, b, w.fd) && b[w.fd].head == Without(a[w.fd].head, i) && b[w.fd].reify != 0
    requires b[w.fd].emask == a[w.fd].emask && b[w.fd].egen == a[w.fd].egen
    ensures HeadsOk(b, ws - {w}) && SyncOk(b, ms) && SameRecords(a, b) && w !in b[w.fd].head
  {
    hide Union, SyncOk, Without;
    DelKeeps(a, b, ws, w, i);
    SyncTouched(a, b, ms, ms, w.fd);
  }

  const NO_ANFD := Anfd([], 0, 0, 0, 0)

  ghost predicate Grown(a: Anfds, b: Anfds) {
    |a| <= |b| && b[..|a|] == a && forall g :: |a| <= g < |b| ==> b[g] == NO_ANFD
  }

  lemma GrownKeeps(a: Anfds, b: Anfds, ws: set<Watcher>, c: seq<nat>, i: nat, ms: Masks)
    requires HeadsOk(a, ws) && QueueOk(a, c, i) && SyncOk(a, ms) && Grown(a, b)
    ensures HeadsOk(b, ws) && QueueOk(b, c, i) && SyncOk(b, ms)
  {
    forall g: nat | g < |b| ensures HeadOk(b[g], g, ws) && (g < |a| ==> b[g] == a[g]) {
      if g < |a| { assert b[..|a|][g] == b[g] && HeadOk(a[g], g, ws); }
    }
    forall w | w in ws ensures w.fd < |b| && w in b[w.fd].head { assert b[..|a|][w.fd] == b[w.fd]; }
  }

  lemma GrownRecords(a: Anfds, b: Anfds, t: Table, age: seq<nat>, log: seq<Reg>)
    requires KernOk(a, t) && AgeOk(a, age) && LogOk(log, age) && Grown(a, b)
    ensures var age' := age + seq(|b| - |a|, _ => 0); KernOk(b, t) && AgeOk(b, age') && LogOk(log, age')
    ensures forall asked :: AskedOk(a, asked) ==> AskedOk(b, asked + seq(|b| - |a|, _ => 0))
  {
    assert forall g :: 0 <= g < |a| ==> b[..|a|][g] == b[g];
  }

  // ---------- the kernel's table ----------

  datatype Entry = Entry(mask: bv32, gen: Gen)

  type Table = map<nat, Entry>

  function ToEpoll(m: bv8): bv32 {
    (if m & EV_READ != 0 then EPOLLIN else 0) | (if m & EV_WRITE != 0 then EPOLLOUT else 0)
  }

  /** A registration the loop has made: its descriptor, and which one of the descriptor's generations it is. */
  datatype Reg = Reg(fd: nat, age: nat)

  /** Every entry carries the mask and the generation the loop has on record. */
  ghost predicate KernOk(a: Anfds, t: Table) {
    forall fd :: fd in t ==> fd < |a| && Plain(a[fd].emask) && t[fd] == Entry(ToEpoll(a[fd].emask), a[fd].egen)
  }

  /** `egen` is the low half of the age. */
  ghost predicate AgeOk(a: Anfds, age: seq<nat>) {
    |age| == |a| && forall fd: nat :: fd < |a| ==> a[fd].egen == Wrap(age[fd])
  }

  /** Registrations of one descriptor have strictly increasing ages, none beyond the present one. */
  ghost predicate LogOk(log: seq<Reg>, age: seq<nat>) {
    && (forall i :: 0 <= i < |log| ==> log[i].fd < |age| && log[i].age <= age[log[i].fd])
    && (forall i, j :: 0 <= i < j < |log| && log[i].fd == log[j].fd ==> log[i].age < log[j].age)
  }

  ghost predicate Within(t: Table, t0: Table) {
    forall fd :: fd in t ==> fd in t0 && t[fd] == t0[fd]
  }

  lemma KernWithin(a: Anfds, t: Table, t0: Table)
    requires KernOk(a, t0) && Within(t, t0)
    ensures KernOk(a, t)
  {
  }

  /** A stamp passes the check of epoll_poll iff a multiple of 2^32 generations have passed since. */
  lemma StampPasses(a: Anfds, age: seq<nat>, r: Reg)
    requires AgeOk(a, age) && r.fd < |a| && r.age <= age[r.fd]
    ensures Wrap(r.age) == a[r.fd].egen <==> (age[r.fd] - r.age) % TWO_32 == 0
  {
    ModEqual(age[r.fd], r.age);
  }

  lemma ModEqual(x: nat, y: nat)
    ensures x % TWO_32 == y % TWO_32 <==> (x - y) % TWO_32 == 0
  {
    var qx, rx, qy, ry := x / TWO_32, x % TWO_32, y / TWO_32, y % TWO_32;
    assert x - y == TWO_32 * (qx - qy) + (rx - ry);
  }

  /** So an event of a superseded registration is discarded unless 2^32 generations or more have passed. */
  lemma SupersededDiscarded(a: Anfds, age: seq<nat>, log: seq<Reg>, i: nat, j: nat)
    requires AgeOk(a, age) && LogOk(log, age) && i < j < |log| && log[i].fd == log[j].fd
    requires age[log[i].fd] - log[i].age < TWO_32
    ensures Wrap(log[i].age) != a[log[i].fd].egen
  {
    StampPasses(a, age, log[i]);
  }

  /** A new mask and the next generation for `fd`, not yet known to the kernel. */
  lemma StampKeeps(a: Anfds, t: Table, age: seq<nat>, log: seq<Reg>, fd: nat, m: bv8)
    requires KernOk(a, t) && AgeOk(a, age) && LogOk(log, age) && fd < |a|
    ensures var b, age' := a[fd := a[fd].(emask := m, egen := Wrap(a[fd].egen + 1))], age[fd := age[fd] + 1];
      KernOk(b, t - {fd}) && AgeOk(b, age') && LogOk(log, age') && SameLists(a, b)
  {
  }

  /** Taking the generation back. */
  lemma UnstampKeeps(a: Anfds, t: Table, age: seq<nat>, log: seq<Reg>, fd: nat)
    requires KernOk(a, t - {fd}) && AgeOk(a, age) && LogOk(log, age) && fd < |a| && age[fd] > 0
    requires forall i :: 0 <= i < |log| && log[i].fd == fd ==> log[i].age < age[fd]
    ensures var b, age' := a[fd := a[fd].(egen := Wrap(a[fd].egen - 1))], age[fd := age[fd] - 1];
      KernOk(b, t - {fd}) && AgeOk(b, age') && LogOk(log, age') && SameLists(a, b)
  {
  }

  lemma Unwrapped(g: Gen)
    ensures Wrap(Wrap(g + 1) - 1) == g
  {
  }

  /** The kernel has taken the present generation of `fd`. */
  lemma LogNext(log: seq<Reg>, age: seq<nat>, fd: nat)
    requires LogOk(log, age) && fd < |age| && forall i :: 0 <= i < |log| && log[i].fd == fd ==> log[i].age < age[fd]
    ensures LogOk(log + [Reg(fd, age[fd])], age)
  {
  }

  lemma KernHere(a: Anfds, t: Table, fd: nat)
    requires KernOk(a, t - {fd}) && fd < |a|
    requires fd in t ==> Plain(a[fd].emask) && t[fd] == Entry(ToEpoll(a[fd].emask), a[fd].egen)
    ensures KernOk(a, t)
  {
    hide ToEpoll, Plain;
    forall g | g in t && g != fd ensures g in t - {fd} {}
  }

  lemma KernElsewhere(a: Anfds, t: Table, t': Table, fd: nat)
    requires KernOk(a, t - {fd}) && Within(t' - {fd}, t)
    ensures KernOk(a, t' - {fd})
  {
  }

  lemma RecordsKeep(a: Anfds, b: Anfds, t: Table, age: seq<nat>)
    requires KernOk(a, t) && AgeOk(a, age) && SameRecords(a, b)
    ensures KernOk(b, t) && AgeOk(b, age)
  {
  }

  lemma NothingOk(a: Anfds, c: seq<nat>, ms: Masks)
    requires a == [] && c == []
    ensures HeadsOk(a, {}) && SyncOk(a, ms) && QueueOk(a, c, 0)
  {
    hide Union, HeadOk;
  }

  lemma NoRecordsOk(a: Anfds, t: Table, age: seq<nat>, log: seq<Reg>, asked: seq<bv8>)
    requires a == [] && t == map[] && age == [] && log == [] && asked == []
    ensures KernOk(a, t) && AgeOk(a, age) && LogOk(log, age) && AskedOk(a, asked)
  {
    hide Plain, ToEpoll, Wrap;
  }

  /** A watcher that is on no list makes no difference. */
  lemma SyncAdopt(a: Anfds, ws: set<Watcher>, ms: Masks, w: Watcher, m: bv8)
    requires HeadsOk(a, ws) && SyncOk(a, ms) && w !in ws
    ensures SyncOk(a, ms[w := m])
  {
    forall fd: nat | fd < |a| && a[fd].reify == 0 ensures a[fd].events == Union(a[fd].head, ms[w := m]) {
      assert HeadOk(a[fd], fd, ws);
      UnionSame(a[fd].head, ms, ms[w := m]);
    }
  }

  // ---------- what killing a descriptor tells its watchers ----------

  const KILL_EVENTS: bv32 := 0x8000_0003 // EV_ERROR | EV_READ | EV_WRITE

  ghost function AfterKill(o: Owed, head: seq<Watcher>): Owed
    decreases |head|
  {
    if head == [] then o else AfterKill(After(After(o, Cleared(head[0])), Fed(head[0], KILL_EVENTS)), head[1..])
  }

  /** Every watcher of the descriptor is owed the error and nothing else; the others are owed what they were. */
  lemma {:induction false} AfterKillIs(o: Owed, head: seq<Watcher>, w: Watcher)
    ensures w in AfterKill(o, head) <==> w in o || w in head
    ensures w in head ==> AfterKill(o, head)[w] == KILL_EVENTS
    ensures w in o && w !in head ==> AfterKill(o, head)[w] == o[w]
    decreases |head|
  {
    if head != [] { AfterKillIs(After(After(o, Cleared(head[0])), Fed(head[0], KILL_EVENTS)), head[1..], w); }
  }

  // ---------- what an event tells the watchers of its descriptor ----------

  function Widen(m: bv8): bv32 { m as bv32 }

  ghost function FeedIf(o: Owed, w: Watcher, m: bv8): Owed {
    if m == 0 then o else After(o, Fed(w, Widen(m)))
  }

  ghost function AfterFeed(o: Owed, head: seq<Watcher>, ms: Masks, got: bv8): Owed {
    if head == [] then o
    else FeedIf(AfterFeed(o, head[..|head| - 1], ms, got), head[|head| - 1], Meet(MaskOf(head[|head| - 1], ms), got))
  }

  /** A watcher on the list is told of exactly those of the events that it asked for; nobody else is told anything. */
  lemma {:induction false} AfterFeedIs(o: Owed, head: seq<Watcher>, ms: Masks, got: bv8, w: Watcher)
    requires forall i, j :: 0 <= i < j < |head| ==> head[i] != head[j]
    ensures w !in head || Meet(MaskOf(w, ms), got) == 0 ==> SameDebt(o, AfterFeed(o, head, ms, got), w)
    ensures w in head && Meet(MaskOf(w, ms), got) != 0 ==>
      w in AfterFeed(o, head, ms, got)
        && AfterFeed(o, head, ms, got)[w] == After(o, Fed(w, Widen(Meet(MaskOf(w, ms), got))))[w]
  {
    hide Meet, Widen, Or;
    if head != [] {
      AfterFeedIs(o, head[..|head| - 1], ms, got, w);
      assert head == head[..|head| - 1] + [head[|head| - 1]];
    }
  }

  /** Feeding the watchers of one descriptor leaves those of the others alone. */
  lemma FeedOthers(o: Owed, head: seq<Watcher>, ms: Masks, got: bv8, w: Watcher)
    requires w !in head && forall i, j :: 0 <= i < j < |head| ==> head[i] != head[j]
    ensures SameDebt(o, AfterFeed(o, head, ms, got), w)
  {
    AfterFeedIs(o, head, ms, got, w);
  }

  /** Feeding never takes an event away from a watcher. */
  lemma FeedCarries(o: Owed, head: seq<Watcher>, ms: Masks, got: bv8, w: Watcher, m: bv32)
    requires Carries(o, w, m) && forall i, j :: 0 <= i < j < |head| ==> head[i] != head[j]
    ensures Carries(AfterFeed(o, head, ms, got), w, m)
  {
    hide Meet, Widen, Or, Has, AfterFeed;
    AfterFeedIs(o, head, ms, got, w);
    if w in head && Meet(MaskOf(w, ms), got) != 0 { CarryStep(o, Fed(w, Widen(Meet(MaskOf(w, ms), got))), w, m); }
  }

  /** Whoever asked for some of the events is told of them. */
  lemma FeedTells(o: Owed, head: seq<Watcher>, ms: Masks, got: bv8, w: Watcher)
    requires w in head && Meet(MaskOf(w, ms), got) != 0 && forall i, j :: 0 <= i < j < |head| ==> head[i] != head[j]
    ensures Carries(AfterFeed(o, head, ms, got), w, Widen(Meet(MaskOf(w, ms), got)))
  {
    hide Meet, Widen, Or, Has, AfterFeed;
    AfterFeedIs(o, head, ms, got, w);
    CarryStart(o, w, Widen(Meet(MaskOf(w, ms), got)));
  }

  /** What epoll reports, in libev's terms. */
  function GotOf(e: bv32): bv8 {
    (if e & (EPOLLOUT | EPOLLERR | EPOLLHUP) != 0 then EV_WRITE else 0)
    | (if e & (EPOLLIN | EPOLLERR | EPOLLHUP) != 0 then EV_READ else 0)
  }

  /** The interest in `fd` is narrowed to `m` under the present generation. */
  lemma NarrowKeeps(a: Anfds, t: Table, age: seq<nat>, fd: nat, m: bv8)
    requires KernOk(a, t) && AgeOk(a, age) && fd < |a|
    ensures var b := a[fd := a[fd].(emask := m)]; KernOk(b, t - {fd}) && AgeOk(b, age) && SameLists(a, b)
  {
  }

  // ---------- steps of the loop ----------

  ghost function MasksOf(ws: set<Watcher>): (ms: Masks)
    reads ws`events
    ensures ms.Keys == ws
  {
    map w | w in ws :: w.events
  }

  lemma MaskIs(ws: set<Watcher>, w: Watcher)
    requires w in ws
    ensures MasksOf(ws)[w] == w.events
  {
  }

  /** What epoll_wait reports: data.u64 taken apart, and the events. */
  datatype KEvent = KEvent(fd: nat, gen: Gen, events: bv32)

  /** The list of `w` has lost it and is marked; the rest is as it was. */
  ghost predicate Left(a: Anfds, b: Anfds, w: Watcher) {
    && w.fd < |a| && DiffersAt(a, b, w.fd) && b[w.fd].events == a[w.fd].events && b[w.fd].reify != 0
    && exists n: nat :: n < |a[w.fd].head| && a[w.fd].head[n] == w && b[w.fd].head == Without(a[w.fd].head, n)
  }

  lemma FirstIs(a: Anfds, ws: set<Watcher>, fd: nat)
    requires HeadsOk(a, ws) && fd < |a| && a[fd].head != []
    ensures a[fd].head[0] in ws && a[fd].head[0].fd == fd
  {
    assert HeadOk(a[fd], fd, ws);
  }

  /** The first watcher of a list occurs in it only once. */
  lemma LeftFirst(a: Anfds, b: Anfds, ws: set<Watcher>, fd: nat)
    requires HeadsOk(a, ws) && fd < |a| && a[fd].head != [] && Left(a, b, a[fd].head[0])
    ensures DiffersAt(a, b, fd) && b[fd].head == a[fd].head[1..] && b[fd].events == a[fd].events
  {
    FirstIs(a, ws, fd);
    assert HeadOk(a[fd], fd, ws);
    var n: nat :| n < |a[fd].head| && a[fd].head[n] == a[fd].head[0] && b[fd].head == Without(a[fd].head, n);
    assert n == 0;
  }

  ghost function Elems(r: seq<Watcher>): set<Watcher> { set w | w in r }

  lemma ElemsMore(r: seq<Watcher>, n: nat, ws: set<Watcher>)
    requires n < |r|
    ensures ws - Elems(r[..n + 1]) == ws - Elems(r[..n]) - {r[n]}
  {
    assert r[..n + 1] == r[..n] + [r[n]];
  }

  lemma NobodyKilled(a: Anfds, fd: nat, ws: set<Watcher>)
    requires fd < |a|
    ensures DiffersAt(a, a, fd) && a[fd].head[0..] == a[fd].head && ws == ws - Elems(a[fd].head[..0])
  {
  }

  /** Lists without a watcher. */
  lemma NoWatchers(o: Owed, ms: Masks, got: bv8)
    ensures AfterKill(o, []) == o && AfterFeed(o, [], ms, got) == o && Union([], ms) == 0
  {
  }

  lemma KilledFirst(o: Owed, head: seq<Watcher>)
    requires head != []
    ensures AfterKill(o, head) == AfterKill(After(After(o, Cleared(head[0])), Fed(head[0], KILL_EVENTS)), head[1..])
  {
  }

  lemma AgeLength(a: Anfds, age: seq<nat>)
    requires AgeOk(a, age)
    ensures |age| == |a|
  {
  }

  lemma RefusedKeeps(a: Anfds, t: Table, age: seq<nat>, fd: nat)
    requires KernOk(a, t - {fd}) && AgeOk(a, age) && fd < |a| && fd !in t
    ensures var b := a[fd := a[fd].(emask := EV_EMASK_EPERM)]; KernOk(b, t) && AgeOk(b, age) && SameLists(a, b)
  {
    assert t - {fd} == t;
  }

  // ---------- descriptors that epoll has refused ----------

  /** `fd` is marked as refused. */
  predicate IsMarked(a: Anfds, fd: nat) { fd < |a| && Meet(a[fd].emask, EV_EMASK_EPERM) != 0 }

  /** A mark stays, and `fd` is listed anew only when it is marked anew. */
  ghost predicate MarkStep(a: Anfds, ep: seq<nat>, b: Anfds, ep': seq<nat>, fd: nat) {
    && (IsMarked(a, fd) ==> IsMarked(b, fd))
    && (fd in ep' <==> fd in ep || (IsMarked(b, fd) && !IsMarked(a, fd)))
  }

  /** If the back end was last asked for something, it has refused. */
  ghost predicate AskedMarked(a: Anfds, asked: seq<bv8>, fd: nat) {
    fd < |asked| && asked[fd] != 0 ==> IsMarked(a, fd)
  }

  lemma MarkStays(a: Anfds, ep: seq<nat>, b: Anfds, ep': seq<nat>, fd: nat)
    requires MarkStep(a, ep, b, ep', fd)
    ensures IsMarked(a, fd) ==> IsMarked(b, fd)
  {
  }

  lemma MarkTrans(a: Anfds, ep: seq<nat>, b: Anfds, ep': seq<nat>, c: Anfds, ep'': seq<nat>, fd: nat)
    requires MarkStep(a, ep, b, ep', fd) && MarkStep(b, ep', c, ep'', fd)
    ensures MarkStep(a, ep, c, ep'', fd)
  {
  }

  /** Reifying `fd`, which leaves what the back end was asked for as it was, or withdraws it, or marks the
      descriptor. */
  lemma AskedStep(a: Anfds, ep: seq<nat>, asked: seq<bv8>, b: Anfds, ep': seq<nat>, m: bv8, fd: nat, g: nat)
    requires MarkStep(a, ep, b, ep', g) && fd < |asked|
    requires fd == g ==> m == asked[fd] || m == 0 || IsMarked(b, fd)
    ensures AskedMarked(a, asked, g) ==> AskedMarked(b, asked[fd := m], g)
  {
  }

  lemma MarkSame(a: Anfds, b: Anfds, ep: seq<nat>, fd: nat)
    requires SameRecords(a, b)
    ensures |b| == |a| && MarkStep(a, ep, b, ep, fd) && (IsMarked(b, fd) <==> IsMarked(a, fd))
  {
  }

  lemma MarkedAlike(a: Anfds, b: Anfds, asked: seq<bv8>, fd: nat)
    requires SameRecords(a, b)
    ensures AskedMarked(b, asked, fd) <==> AskedMarked(a, asked, fd)
  {
  }

  /** A modification concerns one descriptor, and marks it if it is refused. */
  lemma ModifyMarks(a: Anfds, ep: seq<nat>, b: Anfds, ep': seq<nat>, fd: nat, refused: bool, g: nat)
    requires DiffersAt(a, b, fd) && fd < |a| && (g == fd ==> refused || b[fd].emask == a[fd].emask)
    requires refused ==> b[fd].emask == EV_EMASK_EPERM
    requires ep' == if refused && Meet(a[fd].emask, EV_EMASK_EPERM) == 0 then ep + [fd] else ep
    ensures MarkStep(a, ep, b, ep', g) && (refused ==> IsMarked(b, fd))
  {
  }

  /** More room has been made; nothing was asked for there. */
  ghost predicate Padded(asked: seq<bv8>, asked': seq<bv8>) {
    |asked| <= |asked'| && forall g :: 0 <= g < |asked'| ==> asked'[g] == if g < |asked| then asked[g] else 0
  }

  /** Growing the table and changing lists mark nobody. */
  lemma GrownMarks(a: Anfds, b: Anfds, c: Anfds)
    requires Grown(a, b) && SameRecords(b, c)
    ensures forall g: nat :: IsMarked(c, g) <==> IsMarked(a, g)
  {
    forall g: nat | g < |a| ensures b[g] == a[g] { assert b[..|a|][g] == b[g]; }
  }

  lemma PaddedMarked(a: Anfds, asked: seq<bv8>, b: Anfds, asked': seq<bv8>, fd: nat)
    requires AskedMarked(a, asked, fd) && Padded(asked, asked') && (IsMarked(a, fd) ==> IsMarked(b, fd))
    ensures AskedMarked(b, asked', fd)
  {
  }

  lemma HeadElsewhere(a: Anfds, ws: set<Watcher>, fd: nat)
    requires HeadsOk(a, ws) && fd < |a|
    ensures forall w :: w in Elems(a[fd].head) ==> w.fd == fd
  {
    assert HeadOk(a[fd], fd, ws);
  }

  lemma EntryIs(a: Anfds, t: Table, fd: nat)
    requires KernOk(a, t) && fd < |a|
    ensures fd in t ==> t[fd] == Entry(ToEpoll(a[fd].emask), a[fd].egen)
  {
  }

  lemma SameTrans(a: Anfds, b: Anfds, c: Anfds)
    ensures SameLists(a, b) && SameLists(b, c) ==> SameLists(a, c)
    ensures SameLists(a, a)
  {
  }

  lemma ListsAt(a: Anfds, b: Anfds, fd: nat)
    requires SameLists(a, b) && fd < |a|
    ensures fd < |b| && b[fd].head == a[fd].head && b[fd].events == a[fd].events
  {
  }

  lemma NextChange(a: Anfds, ws: set<Watcher>, c: seq<nat>, i: nat, ms: Masks)
    requires HeadsOk(a, ws) && QueueOk(a, c, i) && i < |c|
    ensures c[i] < |a| && forall w :: w in a[c[i]].head ==> w in ws
  {
    assert HeadOk(a[c[i]], c[i], ws);
  }

  /** The descriptor at index `i` of the change list is brought up to date. */
  lemma UnmarkKeeps(a: Anfds, b: Anfds, ws: set<Watcher>, c: seq<nat>, i: nat, ms: Masks)
    requires HeadsOk(a, ws) && QueueOk(a, c, i) && SyncOk(a, ms) && i < |c|
    requires c[i] < |a| && b == a[c[i] := a[c[i]].(reify := 0, events := Union(a[c[i]].head, ms))]
    ensures HeadsOk(b, ws) && QueueOk(b, c, i + 1) && SyncOk(b, ms) && SameRecords(a, b)
  {
    hide Union;
    forall fd: nat | fd < |b| ensures HeadOk(b[fd], fd, ws) { assert HeadOk(a[fd], fd, ws); }
    assert c[i..] == [c[i]] + c[i + 1..];
  }

  lemma AskedAnew(a: Anfds, b: Anfds, asked: seq<bv8>, fd: nat)
    requires AskedOk(a, asked) && DiffersAt(a, b, fd) && fd < |a| && Plain(b[fd].events)
    ensures |asked| == |b| && AskedOk(b, asked[fd := b[fd].events]) && asked[fd] == a[fd].events
  {
  }

  lemma PlainUnion(a: Anfds, ws: set<Watcher>, ios: set<Watcher>, fd: nat)
    requires HeadsOk(a, ws) && ws <= ios && fd < |a| && forall w :: w in ws ==> Plain(w.events)
    ensures Plain(Union(a[fd].head, MasksOf(ios)))
  {
    hide Plain;
    assert HeadOk(a[fd], fd, ws);
    UnionPlain(a[fd].head, MasksOf(ios));
  }

  /** A descriptor with interest has watchers to lose. */
  lemma HeadShrinks(a: Anfds, ws: set<Watcher>, fd: nat, ms: Masks)
    requires HeadsOk(a, ws) && fd < |a| && a[fd].events == Union(a[fd].head, ms)
    ensures a[fd].events != 0 ==> ws - Elems(a[fd].head) < ws
  {
    assert HeadOk(a[fd], fd, ws);
    if a[fd].head != [] { assert a[fd].head[0] in ws; }
  }

  lemma FdsetMeets()
    ensures Meet(EV_IOFDSET, EV_IOFDSET) != 0
  {
  }

  lemma SettledQueue(a: Anfds, c: seq<nat>)
    requires QueueOk(a, c, |c|)
    ensures QueueOk(a, [], 0) && forall fd :: 0 <= fd < |a| ==> a[fd].reify == 0
  {
    assert c[|c|..] == [];
  }

  /** got & ~want */
  predicate Unwanted(a: Anfd, events: bv32) { GotOf(events) & !a.events != 0 }

  ghost predicate SameGens(a: Anfds, b: Anfds) {
    |a| == |b| && forall g :: 0 <= g < |a| ==> a[g].egen == b[g].egen
  }

  lemma MaskOnly(a: Anfds, fd: nat, m: bv8)
    requires fd < |a|
    ensures SameLists(a, a[fd := a[fd].(emask := m)])
  {
  }

  /** None of the events is one of the present registration of the watcher's descriptor. */
  ghost predicate NotConcerned(w: Watcher, events: seq<KEvent>, a: Anfds) {
    forall i :: 0 <= i < |events| && events[i].fd == w.fd && w.fd < |a| ==> events[i].gen != a[w.fd].egen
  }

  /** Nothing owed is taken back. */
  ghost predicate Keeps(o: Owed, o': Owed) {
    forall w, m :: w in o && Carries(o, w, m) ==> Carries(o', w, m)
  }

  lemma KeepsTrans(o: Owed, o1: Owed, o2: Owed)
    ensures Keeps(o, o) && (Keeps(o, o1) && Keeps(o1, o2) ==> Keeps(o, o2))
  {
  }

  /** An event of the descriptor's present registration that its watchers want, when nothing is to be reified. */
  ghost predicate Deliverable(a: Anfds, ev: KEvent) {
    ev.fd < |a| && ev.gen == a[ev.fd].egen && a[ev.fd].reify == 0 && !Unwanted(a[ev.fd], ev.events)
  }

  /** Every watcher that asked for some of the event is owed it. */
  ghost predicate Delivered(o: Owed, a: Anfds, ms: Masks, ev: KEvent) {
    ev.fd < |a| && forall w :: w in a[ev.fd].head && Meet(MaskOf(w, ms), GotOf(ev.events)) != 0 ==>
      Carries(o, w, Widen(Meet(MaskOf(w, ms), GotOf(ev.events))))
  }

  lemma FeedKeeps(o: Owed, head: seq<Watcher>, ms: Masks, got: bv8)
    requires forall i, j :: 0 <= i < j < |head| ==> head[i] != head[j]
    ensures Keeps(o, AfterFeed(o, head, ms, got))
  {
    hide Meet, Widen, Or, Has, AfterFeed, Carries, MaskOf;
    forall w, m | w in o && Carries(o, w, m) ensures Carries(AfterFeed(o, head, ms, got), w, m) {
      FeedCarries(o, head, ms, got, w, m);
    }
  }

  /** Feeding the watchers of the event's descriptor delivers it. */
  lemma FeedDelivers(o: Owed, a: Anfds, ms: Masks, ev: KEvent)
    requires ev.fd < |a|
    requires forall i, j :: 0 <= i < j < |a[ev.fd].head| ==> a[ev.fd].head[i] != a[ev.fd].head[j]
    ensures var o' := AfterFeed(o, a[ev.fd].head, ms, GotOf(ev.events)); Keeps(o, o') && Delivered(o', a, ms, ev)
  {
    hide Meet, Widen, Or, Has, AfterFeed, GotOf, Carries, MaskOf, Keeps;
    var head, got := a[ev.fd].head, GotOf(ev.events);
    FeedKeeps(o, head, ms, got);
    forall w | w in head && Meet(MaskOf(w, ms), got) != 0
      ensures Carries(AfterFeed(o, head, ms, got), w, Widen(Meet(MaskOf(w, ms), got)))
    {
      FeedTells(o, head, ms, got, w);
    }
  }

  /** What has been delivered stays so. */
  lemma DeliveredStays(o: Owed, a: Anfds, ms: Masks, o': Owed, b: Anfds, ev: KEvent)
    requires Delivered(o, a, ms, ev) && Keeps(o, o') && SameLists(a, b)
    ensures Delivered(o', b, ms, ev)
  {
    hide Meet, Widen, GotOf, Has, MaskOf;
  }

  lemma DeliverableStays(a: Anfds, b: Anfds, ev: KEvent)
    requires SameLists(a, b) && SameGens(a, b)
    ensures Deliverable(a, ev) <==> Deliverable(b, ev)
  {
    hide GotOf;
  }

  /** The event carries the generation of a registration that another has superseded, fewer than 2^32 ago. */
  ghost predicate Superseded(ev: KEvent, log: seq<Reg>, age: seq<nat>) {
    exists n, m :: 0 <= n < m < |log| && log[n].fd == log[m].fd == ev.fd && ev.gen == Wrap(log[n].age)
      && ev.fd < |age| && age[ev.fd] - log[n].age < TWO_32
  }

  ghost predicate AllSuperseded(w: Watcher, events: seq<KEvent>, log: seq<Reg>, age: seq<nat>) {
    forall i :: 0 <= i < |events| && events[i].fd == w.fd ==> Superseded(events[i], log, age)
  }

  /** Events of superseded registrations do not concern the present one. */
  lemma SupersededElsewhere(a: Anfds, age: seq<nat>, log: seq<Reg>, events: seq<KEvent>, w: Watcher)
    requires AgeOk(a, age) && LogOk(log, age) && AllSuperseded(w, events, log, age)
    ensures NotConcerned(w, events, a)
  {
    forall i | 0 <= i < |events| && events[i].fd == w.fd && w.fd < |a| ensures events[i].gen != a[w.fd].egen {
      var n, m :| 0 <= n < m < |log| && log[n].fd == log[m].fd == w.fd && events[i].gen == Wrap(log[n].age)
        && w.fd < |age| && age[w.fd] - log[n].age < TWO_32;
      SupersededDiscarded(a, age, log, n, m);
    }
  }

  /** The last element takes the place of element `i`. */
  lemma SwapDrop(s: seq<nat>, i: nat)
    requires i < |s|
    ensures var s' := s[i := s[|s| - 1]][..|s| - 1];
      i <= |s'| && s'[..i] == s[..i] && forall x :: x in s'[i..] <==> x in s[i + 1..]
    ensures forall x :: x in s[i := s[|s| - 1]][..|s| - 1] ==> x in s
  {
    var s' := s[i := s[|s| - 1]][..|s| - 1];
    if i < |s| - 1 {
      assert s'[i..] == [s[|s| - 1]] + s[i + 1..|s| - 1];
      assert s[i + 1..] == s[i + 1..|s| - 1] + [s[|s| - 1]];
    }
  }

  lemma PlainWant(a: Anfds, asked: seq<bv8>, fd: nat)
    requires AskedOk(a, asked) && fd < |a|
    ensures Plain(a[fd].events)
  {
  }

  lemma FeedMore(o: Owed, head: seq<Watcher>, n: nat, ws: set<Watcher>, got: bv8)
    requires n < |head| && head[n] in ws
    ensures AfterFeed(o, head[..n + 1], MasksOf(ws), got) ==
      FeedIf(AfterFeed(o, head[..n], MasksOf(ws), got), head[n], Meet(head[n].events, got))
  {
    hide Meet, Widen, After;
    assert head[..n + 1][..n] == head[..n];
  }

  lemma UnionMore(head: seq<Watcher>, n: nat, ws: set<Watcher>)
    requires n < |head| && head[n] in ws
    ensures Union(head[..n + 1], MasksOf(ws)) == Join(Union(head[..n], MasksOf(ws)), head[n].events)
  {
    assert head[..n + 1][..n] == head[..n];
  }

  lemma LeftAt(a: Anfds, b: Anfds, w: Watcher, n: nat)
    requires w.fd < |a| && DiffersAt(a, b, w.fd) && b[w.fd].events == a[w.fd].events && b[w.fd].reify != 0
    requires n < |a[w.fd].head| && a[w.fd].head[n] == w && b[w.fd].head == Without(a[w.fd].head, n)
    ensures Left(a, b, w)
  {
  }

  lemma AnfdsSame(a: Anfds)
    ensures SameRecords(a, a)
  {
  }

  lemma HeadHas(a: Anfds, ws: set<Watcher>, w: Watcher)
    requires HeadsOk(a, ws) && w in ws
    ensures w.fd < |a| && w in a[w.fd].head
  {
  }

  lemma ChangeKeeps(a: Anfds, c: seq<nat>, i: nat, fd: nat, flags: bv8)
    requires QueueOk(a, c, i) && fd < |a| && flags != 0
    ensures QueueOk(a[fd := a[fd].(reify := Join(a[fd].reify, flags))], if a[fd].reify == 0 then c + [fd] else c, i)
  {
    JoinKeeps(a[fd].reify, flags, 0);
    if a[fd].reify == 0 {
      assert (c + [fd])[i..] == c[i..] + [fd];
      forall j | i <= j < |c| ensures c[j] != fd { assert a[c[j]].reify != 0; }
    }
  }

  lemma JoinKeeps(x: bv8, y: bv8, r: bv8)
    ensures Meet(x, Join(r, Join(x, y))) == x && (y != 0 ==> Join(x, y) != 0)
  {
  }
}
