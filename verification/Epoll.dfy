/** Descriptor interest of libev-4.15/ev.c (fd_change, fd_reify, fd_kill, ev_io_start, ev_io_stop) with the epoll
    back end of libev-4.15/ev_epoll.c over a kernel whose descriptors may be closed and reopened at any time. What the
    tables mean is in `EpollState`; here are the operations, and a run in which a refused descriptor is forgotten. */
module Epoll {
  import opened Pending
  import opened EpollState

  datatype Errno = OK | ENOENT | EEXIST | EPERM | EBADF | ENOMEM

  datatype CtlOp = Add | Mod | Del

  /** What epoll_ctl answers. `room` is whether the kernel has memory for a new entry. */
  function Answer(op: CtlOp, fd: nat, files: map<nat, bool>, t: Table, room: bool): Errno {
    if fd !in files then EBADF
    else if !files[fd] then EPERM
    else if op.Add? then (if fd in t then EEXIST else if room then OK else ENOMEM)
    else if fd in t then OK else ENOENT
  }

  /** An open descriptor that epoll does not support is refused, whatever is asked for it. */
  lemma UnsupportedRefused(op: CtlOp, fd: nat, files: map<nat, bool>, t: Table, room: bool)
    ensures fd in files && !files[fd] <==> Answer(op, fd, files, t, room) == EPERM
  {
  }

  /** One epoll instance and the process's descriptors, without dup and fork. */
  class Kernel {
    var files: map<nat, bool>  // open descriptors, and whether epoll supports them
    var table: Table
    const quiet: bool          // nobody opens or closes descriptors behind the loop's back

    ghost predicate Valid()
      reads this
    {
      forall fd :: fd in table ==> fd in files && files[fd]
    }

    constructor (quiet: bool)
      ensures Valid() && table == map[] && files == map[] && this.quiet == quiet
    {
      files, table := map[], map[];
      this.quiet := quiet;
    }

    /** The program opens a descriptor. */
    method Open(fd: nat, supported: bool)
      requires Valid() && fd !in files
      modifies this`files
      ensures Valid() && files == old(files)[fd := supported]
    {
      files := files[fd := supported];
    }

    /** Any number of closes and opens, unless the kernel is quiet. */
    method Environment()
      requires Valid()
      modifies this
      ensures Valid() && Within(table, old(table)) && (quiet ==> files == old(files))
    {
      if quiet { return; }
      var n: nat := *;
      while n > 0
        invariant Valid() && Within(table, old(table))
      {
        n := n - 1;
        var fd: nat := *;
        if fd in files {
          files, table := files - {fd}, table - {fd};
        } else {
          var pollable: bool := *;
          files := files[fd := pollable];
        }
      }
    }

    /** epoll_ctl */
    method Ctl(op: CtlOp, fd: nat, e: Entry) returns (err: Errno)
      requires Valid()
      modifies this
      ensures Valid() && files == old(files) && exists room :: err == Answer(op, fd, old(files), old(table), room)
      ensures table == if err != OK then old(table) else if op.Del? then old(table) - {fd} else old(table)[fd := e]
    {
      var room: bool := *;
      err := Answer(op, fd, files, table, room);
      if err == OK { table := if op.Del? then table - {fd} else table[fd := e]; }
    }
  }

  /** What became of a request to change the kernel's interest. */
  datatype Outcome = Ignored | Installed | Kept | Refused | Killed

  class EpollLoop {
    var anfds: Anfds
    var fdchanges: seq<nat>
    var eperms: seq<nat>      // epoll_eperms [0 .. epoll_epermcnt)
    var postfork: bool
    const k: Kernel
    const q: PendingQueue
    ghost var ios: set<Watcher>      // the io watchers used with this loop
    ghost var started: set<Watcher>
    ghost var age: seq<nat>
    ghost var log: seq<Reg>
    ghost var asked: seq<bv8>        // what the back end was last asked for, per descriptor

    /** The watchers' side; entries of the change list before `i` are done with. */
    ghost predicate Interest(i: nat)
      reads this`anfds, this`fdchanges, this`ios, this`started, ios`active, ios`events
    {
      && started <= ios && HeadsOk(anfds, started) && QueueOk(anfds, fdchanges, i) && SyncOk(anfds, MasksOf(ios))
      && (forall w :: w in ios ==> (w.active != 0 <==> w in started))
      && (forall w :: w in started ==> Plain(w.events))
    }

    ghost predicate Base(i: nat)
      reads this`anfds, this`fdchanges, this`ios, this`started, ios`active, ios`events, q`pend, q`ws, q.ws`pending
    {
      q.Valid() && ios <= q.ws && Interest(i)
    }

    /** The kernel's side. */
    ghost predicate Mirror()
      reads this`anfds, this`age, this`log, k
    {
      k.Valid() && KernOk(anfds, k.table) && AgeOk(anfds, age) && LogOk(log, age)
    }

    ghost predicate Valid()
      reads this`anfds, this`fdchanges, this`ios, this`started, ios`active, ios`events, q`pend, q`ws, q.ws`pending
      reads this`age, this`log, this`asked, this`eperms, k
    {
      Base(0) && Mirror() && AskedOk(anfds, asked) && Refusals()
    }

    ghost predicate Refusals()
      reads this`anfds, this`eperms
    {
      forall fd :: fd in eperms ==> fd < |anfds|
    }

    /** `fd` is open and stays so, and epoll does not support it. */
    ghost predicate Unsupported(fd: nat)
      reads k
    {
      k.quiet && fd in k.files && !k.files[fd]
    }

    constructor (k: Kernel, q: PendingQueue)
      requires k.Valid() && k.table == map[] && q.Valid()
      ensures Valid() && this.k == k && this.q == q && ios == {} && started == {} && anfds == [] && fdchanges == []
      ensures eperms == [] && asked == []
    {
      anfds, fdchanges, eperms, postfork := [], [], [], false;
      this.k, this.q := k, q;
      ios, started, age, log, asked := {}, {}, [], [], [];
      hide *;
      new;
      Initial();
    }

    lemma Initial()
      requires k.Valid() && q.Valid() && anfds == [] && fdchanges == [] && ios == {} && started == {} && age == []
        && log == [] && asked == [] && eperms == [] && k.table == map[]
      ensures Valid()
    {
      hide Union, Good, HeadsOk, QueueOk, SyncOk, KernOk, AgeOk, LogOk, AskedOk, Kernel.Valid, PendingQueue.Valid;
      NothingOk(anfds, fdchanges, MasksOf(ios));
      NoRecordsOk(anfds, k.table, age, log, asked);
    }

    /** An initialised io watcher comes into use. */
    ghost method Adopt(w: Watcher)
      requires Valid() && w in q.ws && w.active == 0 && w !in ios
      modifies this`ios
      ensures Valid() && ios == old(ios) + {w}
    {
      hide HeadsOk, QueueOk, SyncOk, Mirror, AskedOk, Good, Plain;
      ghost var ms := MasksOf(ios);
      SyncAdopt(anfds, started, ms, w, w.events);
      ios := ios + {w};
      assert MasksOf(ios) == ms[w := w.events];
    }

    // ---------- ev.c ----------

    /** fd_change */
    method FdChange(fd: nat, flags: bv8, ghost i: nat)
      requires fd < |anfds| && flags != 0 && QueueOk(anfds, fdchanges, i)
      modifies this`anfds, this`fdchanges
      ensures QueueOk(anfds, fdchanges, i) && old(fdchanges) <= fdchanges
      ensures anfds == old(anfds)[fd := old(anfds)[fd].(reify := Join(old(anfds)[fd].reify, flags))]
      ensures |fdchanges| == |old(fdchanges)| + if old(anfds)[fd].reify == 0 then 1 else 0
    {
      var reify := anfds[fd].reify;
      ghost var a, c := anfds, fdchanges;
      anfds := anfds[fd := anfds[fd].(reify := Join(reify, flags))];
      if reify == 0 { fdchanges := fdchanges + [fd]; }
      ChangeKeeps(a, c, i, fd, flags);
    }

    /** Makes room for `fd` in the table; new records are empty. */
    method NeedFd(fd: nat)
      requires Valid()
      modifies this`anfds, this`age, this`asked
      ensures Valid() && fd < |anfds| && Grown(old(anfds), anfds) && Padded(old(asked), asked)
    {
      hide HeadsOk, QueueOk, SyncOk, KernOk, AgeOk, AskedOk, LogOk, MasksOf, Good, Plain;
      if |anfds| <= fd {
        ghost var a := anfds;
        anfds := anfds + seq(fd + 1 - |anfds|, _ => NO_ANFD);
        age := age + seq(|anfds| - |a|, _ => 0);
        asked := asked + seq(|anfds| - |a|, _ => 0);
        GrownKeeps(a, anfds, started, fdchanges, 0, MasksOf(ios));
        GrownRecords(a, anfds, k.table, old(age), log);
      }
    }

    /** wlist_add */
    method ListAdd(w: Watcher)
      requires w.fd < |anfds|
      modifies this`anfds
      ensures anfds == old(anfds)[w.fd := old(anfds)[w.fd].(head := [w] + old(anfds)[w.fd].head)]
    {
      anfds := anfds[w.fd := anfds[w.fd].(head := [w] + anfds[w.fd].head)];
    }

    /** wlist_del */
    method ListDel(w: Watcher) returns (ghost i: nat)
      requires w.fd < |anfds| && w in anfds[w.fd].head
      modifies this`anfds
      ensures i < |old(anfds)[w.fd].head| && old(anfds)[w.fd].head[i] == w
      ensures anfds == old(anfds)[w.fd := old(anfds)[w.fd].(head := Without(old(anfds)[w.fd].head, i))]
    {
      var head := anfds[w.fd].head;
      var n := 0;
      while head[n] != w
        invariant n < |head| && w !in head[..n]
        decreases |head| - n
      {
        n := n + 1;
      }
      anfds := anfds[w.fd := anfds[w.fd].(head := head[..n] + head[n + 1..])];
      i := n;
    }

    /** The two list operations of ev_io_start. */
    method Enlist(w: Watcher, flags: bv8)
      requires w.fd < |anfds| && flags != 0 && QueueOk(anfds, fdchanges, 0)
      modifies this`anfds, this`fdchanges
      ensures QueueOk(anfds, fdchanges, 0) && DiffersAt(old(anfds), anfds, w.fd) && w.fd in fdchanges
      ensures anfds[w.fd] ==
        old(anfds)[w.fd].(head := [w] + old(anfds)[w.fd].head, reify := Join(old(anfds)[w.fd].reify, flags))
    {
      hide Join;
      ghost var a := anfds;
      ListAdd(w);
      QueueSame(a, anfds, fdchanges, 0, w.fd);
      FdChange(w.fd, flags, 0);
      JoinKeeps(a[w.fd].reify, flags, 0);
    }

    /** ev_start, the list operations and the stripping of the marker bit in ev_io_start. */
    method Activate(w: Watcher, flags: bv8)
      requires w in ios && w.fd < |anfds| && flags != 0 && QueueOk(anfds, fdchanges, 0)
      modifies this`anfds, this`fdchanges, this`started, w`active, w`events
      ensures w.active == 1 && w.events == Meet(old(w.events), 0x7f) && started == old(started) + {w}
      ensures QueueOk(anfds, fdchanges, 0) && DiffersAt(old(anfds), anfds, w.fd) && w.fd in fdchanges
      ensures anfds[w.fd] ==
        old(anfds)[w.fd].(head := [w] + old(anfds)[w.fd].head, reify := Join(old(anfds)[w.fd].reify, flags))
      ensures anfds[w.fd].reify != 0 && MasksOf(ios) == old(MasksOf(ios))[w := w.events]
    {
      w.active := 1;
      started := started + {w};
      JoinKeeps(anfds[w.fd].reify, flags, 0);
      Enlist(w, flags);
      w.events := Meet(w.events, 0x7f);
    }

    /** The rest of ev_io_start, once there is room in the table. */
    method StartIo(w: Watcher)
      requires Valid() && w in ios && w !in started && w.fd < |anfds| && Plain(Meet(w.events, 0x7f))
      modifies this`anfds, this`fdchanges, this`started, w`active, w`events
      ensures Valid() && started == old(started) + {w} && w.events == Meet(old(w.events), 0x7f)
      ensures w.fd in fdchanges && w.fd < |anfds| && SameRecords(old(anfds), anfds)
      ensures Meet(Meet(old(w.events), EV_IOFDSET), anfds[w.fd].reify) == Meet(old(w.events), EV_IOFDSET)
    {
      hide HeadsOk, QueueOk, SyncOk, KernOk, AgeOk, LogOk, AskedOk, MasksOf, Good, Plain, Meet, Join, SameRecords;
      ghost var a, ms := anfds, MasksOf(ios);
      var flags := Join(Meet(w.events, EV_IOFDSET), EV_ANFD_REIFY);
      JoinKeeps(Meet(w.events, EV_IOFDSET), EV_ANFD_REIFY, 0);
      Activate(w, flags);
      StartKeeps(a, anfds, old(started), ms, w, w.events);
      RecordsKeep(a, anfds, k.table, age);
      AskedKeeps(a, anfds, asked, w.fd);
      JoinKeeps(Meet(old(w.events), EV_IOFDSET), EV_ANFD_REIFY, a[w.fd].reify);
    }

    lemma ActiveIff(w: Watcher)
      requires Valid() && w in ios
      ensures w.active != 0 <==> w in started
    {
      hide HeadsOk, QueueOk, SyncOk, Mirror, AskedOk, Good, Plain;
    }

    /** ev_io_start */
    method IoStart(w: Watcher)
      requires Valid() && w in ios && (w.active == 0 ==> Plain(Meet(w.events, 0x7f)))
      modifies this`anfds, this`age, this`asked, this`fdchanges, this`started, w`active, w`events
      ensures Valid() && started == old(started) + {w}
      ensures w.events == (if w in old(started) then old(w.events) else Meet(old(w.events), 0x7f))
      ensures w !in old(started) ==> w.fd in fdchanges && w.fd < |anfds|
      ensures w !in old(started) ==>
        Meet(Meet(old(w.events), EV_IOFDSET), anfds[w.fd].reify) == Meet(old(w.events), EV_IOFDSET)
      ensures Padded(old(asked), asked) && forall g :: IsMarked(anfds, g) <==> IsMarked(old(anfds), g)
    {
      hide Base, Mirror, AskedOk, Plain, Meet, SameRecords, IsMarked, Grown;
      ghost var a0 := anfds;
      ActiveIff(w);
      if w.active != 0 { return; }
      NeedFd(w.fd);
      ghost var a := anfds;
      StartIo(w);
      GrownMarks(a0, a, anfds);
    }

    /** The list operations of ev_io_stop. */
    method Delist(w: Watcher, ghost i: nat) returns (ghost n: nat)
      requires w in started && w.fd < |anfds| && w in anfds[w.fd].head && QueueOk(anfds, fdchanges, i)
      modifies this`anfds, this`fdchanges, this`started, w`active
      ensures w.active == 0 && started == old(started) - {w} && n < |old(anfds)[w.fd].head|
        && old(anfds)[w.fd].head[n] == w
      ensures QueueOk(anfds, fdchanges, i) && DiffersAt(old(anfds), anfds, w.fd) && old(fdchanges) <= fdchanges
      ensures anfds[w.fd].head == Without(old(anfds)[w.fd].head, n) && anfds[w.fd].reify != 0
      ensures anfds[w.fd] == old(anfds)[w.fd].(head := anfds[w.fd].head, reify := anfds[w.fd].reify)
    {
      hide Join, Without;
      ghost var a := anfds;
      n := ListDel(w);
      QueueSame(a, anfds, fdchanges, i, w.fd);
      started := started - {w};
      w.active := 0;
      JoinKeeps(a[w.fd].reify, EV_ANFD_REIFY, 0);
      FdChange(w.fd, EV_ANFD_REIFY, i);
    }

    /** ev_io_stop */
    method IoStop(w: Watcher, ghost i: nat)
      requires Base(i) && w in ios
      modifies this`anfds, this`fdchanges, this`started, w`active, q`pend, w`pending
      ensures Base(i) && started == old(started) - {w} && w.pending == 0
      ensures q.OwedNow() == After(old(q.OwedNow()), Cleared(w))
      ensures SameRecords(old(anfds), anfds) && old(fdchanges) <= fdchanges
      ensures if w in old(started) then Left(old(anfds), anfds, w)
        else anfds == old(anfds) && fdchanges == old(fdchanges)
    {
      hide HeadsOk, QueueOk, SyncOk, MasksOf, Good, Plain, SameRecords, OwedBy, After, Left;
      var _ := q.ClearPending(w);
      ghost var a := anfds;
      AnfdsSame(a);
      if w.active == 0 { return; }
      HeadHas(a, started, w);
      ghost var n := Delist(w, i);
      StopKeeps(a, anfds, old(started), MasksOf(ios), w, n);
      LeftAt(a, anfds, w, n);
    }

    /** ev_io_stop, called from outside the loop. */
    method StopIo(w: Watcher)
      requires Valid() && w in ios
      modifies this`anfds, this`fdchanges, this`started, w`active, q`pend, w`pending
      ensures Valid() && started == old(started) - {w} && w.pending == 0
        && q.OwedNow() == After(old(q.OwedNow()), Cleared(w))
      ensures (w in old(started) ==> w.fd in fdchanges) && SameRecords(old(anfds), anfds)
    {
      hide Interest, KernOk, AgeOk, LogOk, AskedOk, Good, OwedBy, After, SameRecords;
      ghost var a := anfds;
      IoStop(w, 0);
      RecordsKeep(a, anfds, k.table, age);
      if w in old(started) {
        AskedKeeps(a, anfds, asked, w.fd);
        Marked(w.fd);
      }
    }

    lemma Marked(fd: nat)
      requires Base(0) && fd < |anfds| && anfds[fd].reify != 0
      ensures fd in fdchanges
    {
      hide HeadsOk, SyncOk, Good;
      assert fdchanges[0..] == fdchanges;
    }

    /** fd_kill */
    method FdKill(fd: nat, ghost i: nat)
      requires Base(i) && fd < |anfds|
      modifies this`anfds, this`fdchanges, this`started, ios`active, q`pend, q`pendingpri, q.ws`pending
      ensures Base(i) && SameRecords(old(anfds), anfds) && DiffersAt(old(anfds), anfds, fd)
        && old(fdchanges) <= fdchanges
      ensures anfds[fd].events == old(anfds)[fd].events
      ensures anfds[fd].head == [] && started == old(started) - Elems(old(anfds)[fd].head)
      ensures q.OwedNow() == AfterKill(old(q.OwedNow()), old(anfds)[fd].head)
      ensures old(anfds)[fd].head == [] ==> anfds == old(anfds) && fdchanges == old(fdchanges)
    {
      hide Interest, Good, SameRecords, DiffersAt, OwedBy, After, Left, AfterKill, Elems;
      ghost var a, o, n, head0 := anfds, q.OwedNow(), 0, anfds[fd].head;
      AnfdsSame(a);
      NobodyKilled(a, fd, started);
      while anfds[fd].head != []
        invariant Base(i) && SameRecords(a, anfds) && DiffersAt(a, anfds, fd) && fd < |anfds|
          && old(fdchanges) <= fdchanges
        invariant 0 <= n <= |head0| && anfds[fd].head == head0[n..] && started == old(started) - Elems(head0[..n])
        invariant AfterKill(q.OwedNow(), anfds[fd].head) == AfterKill(o, head0)
        invariant anfds[fd].events == a[fd].events
        invariant n == 0 ==> anfds == a && fdchanges == old(fdchanges)
        decreases |head0| - n
      {
        KillFirst(fd, i, a);
        ElemsMore(head0, n, old(started));
        n := n + 1;
      }
      NoWatchers(q.OwedNow(), map[], 0);
      assert head0[..|head0|] == head0;
    }

    /** One turn of the loop in fd_kill. */
    method KillFirst(fd: nat, ghost i: nat, ghost a: Anfds)
      requires Base(i) && fd < |anfds| && anfds[fd].head != [] && SameRecords(a, anfds) && DiffersAt(a, anfds, fd)
      modifies this`anfds, this`fdchanges, this`started, ios`active, q`pend, q`pendingpri, q.ws`pending
      ensures Base(i) && |anfds| == |a| && anfds[fd].head == old(anfds)[fd].head[1..] && SameRecords(a, anfds)
        && DiffersAt(a, anfds, fd)
      ensures started == old(started) - {old(anfds)[fd].head[0]} && old(fdchanges) <= fdchanges
      ensures AfterKill(q.OwedNow(), anfds[fd].head) == AfterKill(old(q.OwedNow()), old(anfds)[fd].head)
      ensures anfds[fd].events == old(anfds)[fd].events
    {
      hide HeadsOk, QueueOk, SyncOk, MasksOf, Good, Plain, OwedBy, After, Left, AfterKill;
      var w := anfds[fd].head[0];
      ghost var b, o := anfds, q.OwedNow();
      FirstIs(b, started, fd);
      KilledFirst(o, b[fd].head);
      IoStop(w, i);
      LeftFirst(b, anfds, old(started), fd);
      q.FeedEvent(w, KILL_EVENTS);
    }

    // ---------- ev_epoll.c ----------

    /** epoll_ctl, after whatever else has happened to the descriptors in the meantime. */
    method Request(op: CtlOp, fd: nat, e: Entry) returns (err: Errno)
      requires k.Valid()
      modifies k
      ensures k.Valid() && Within(k.table - {fd}, old(k.table))
      ensures err == OK ==> if op.Del? then fd !in k.table else fd in k.table && k.table[fd] == e
      ensures err == EEXIST ==> op.Add? && fd in k.table && fd in old(k.table) && k.table[fd] == old(k.table)[fd]
      ensures err != OK && err != EEXIST ==> fd !in k.table
      ensures err == ENOENT ==> !op.Add?
      ensures (k.quiet ==> k.files == old(k.files)) && (old(Unsupported(fd)) <==> k.quiet && err == EPERM)
    {
      k.Environment();
      err := k.Ctl(op, fd, e);
    }

    /** Everything but the kernel's entry for `fd`. */
    ghost predicate Pausing(fd: nat, i: nat)
      reads this`anfds, this`fdchanges, this`ios, this`started, ios`active, ios`events, q`pend, q`ws, q.ws`pending
      reads this`age, this`log, k
    {
      fd < |anfds| && Base(i) && k.Valid() && KernOk(anfds, k.table - {fd}) && AgeOk(anfds, age) && LogOk(log, age)
    }

    /** The present generation of `fd` has not been registered. */
    ghost predicate Unlogged(fd: nat)
      reads this`log, this`age
    {
      fd < |age| && 0 < age[fd] && forall i :: 0 <= i < |log| && log[i].fd == fd ==> log[i].age < age[fd]
    }

    /** In epoll_modify, before the kernel is asked: the new mask is recorded under the next generation. */
    method Stamp(fd: nat, nev: bv8, ghost i: nat)
      requires Base(i) && Mirror() && fd < |anfds|
      modifies this`anfds, this`age
      ensures anfds == old(anfds)[fd := old(anfds)[fd].(emask := nev, egen := Wrap(old(anfds)[fd].egen + 1))]
      ensures |old(age)| == |anfds| && age == old(age)[fd := old(age)[fd] + 1] && Pausing(fd, i) && Unlogged(fd)
        && SameLists(old(anfds), anfds)
    {
      hide KernOk, AgeOk, HeadsOk, QueueOk, SyncOk, MasksOf, Good, Plain;
      ghost var a := anfds;
      AgeLength(anfds, age);
      StampKeeps(anfds, k.table, age, log, fd, nev);
      anfds := anfds[fd := anfds[fd].(emask := nev, egen := Wrap(anfds[fd].egen + 1))];
      age := age[fd := age[fd] + 1];
      ListsKeep(a, anfds, started, fdchanges, i, MasksOf(ios));
    }

    /** dec_egen */
    method Unstamp(fd: nat, ghost i: nat)
      requires Pausing(fd, i) && Unlogged(fd)
      modifies this`anfds, this`age
      ensures anfds == old(anfds)[fd := old(anfds)[fd].(egen := Wrap(old(anfds)[fd].egen - 1))]
      ensures |old(age)| == |anfds| && age == old(age)[fd := old(age)[fd] - 1] && Pausing(fd, i)
        && SameLists(old(anfds), anfds)
    {
      hide KernOk, AgeOk, LogOk, HeadsOk, QueueOk, SyncOk, MasksOf, Good, Plain;
      ghost var a := anfds;
      AgeLength(anfds, age);
      UnstampKeeps(anfds, k.table, age, log, fd);
      anfds := anfds[fd := anfds[fd].(egen := Wrap(anfds[fd].egen - 1))];
      age := age[fd := age[fd] - 1];
      ListsKeep(a, anfds, started, fdchanges, i, MasksOf(ios));
    }

    /** The kernel has taken the new generation. */
    ghost method Register(fd: nat, i: nat)
      requires Pausing(fd, i) && Unlogged(fd) && Plain(anfds[fd].emask)
      requires fd in k.table && k.table[fd] == Entry(ToEpoll(anfds[fd].emask), anfds[fd].egen)
      modifies this`log
      ensures Base(i) && Mirror() && log == old(log) + [Reg(fd, age[fd])]
    {
      hide KernOk, AgeOk, LogOk, HeadsOk, QueueOk, SyncOk, MasksOf, Good, Plain, ToEpoll;
      KernHere(anfds, k.table, fd);
      LogNext(log, age, fd);
      log := log + [Reg(fd, age[fd])];
    }

    /** epoll_ctl in the middle of a modification. */
    method RequestPausing(op: CtlOp, fd: nat, e: Entry, ghost i: nat) returns (err: Errno)
      requires Pausing(fd, i)
      modifies k
      ensures Pausing(fd, i) && Within(k.table - {fd}, old(k.table))
      ensures err == OK ==> if op.Del? then fd !in k.table else fd in k.table && k.table[fd] == e
      ensures err == EEXIST ==> op.Add? && fd in k.table && fd in old(k.table) && k.table[fd] == old(k.table)[fd]
      ensures err != OK && err != EEXIST ==> fd !in k.table
      ensures err == ENOENT ==> !op.Add?
      ensures (k.quiet ==> k.files == old(k.files)) && (old(Unsupported(fd)) <==> k.quiet && err == EPERM)
    {
      hide KernOk, AgeOk, LogOk, Interest, Good, Plain;
      ghost var t := k.table;
      err := Request(op, fd, e);
      KernElsewhere(anfds, t, k.table, fd);
    }

    /** fd_kill in the middle of a modification. */
    method KillPausing(fd: nat, ghost i: nat)
      requires Pausing(fd, i) && Unlogged(fd)
      modifies this`anfds, this`fdchanges, this`started, ios`active, q`pend, q`pendingpri, q.ws`pending
      ensures Pausing(fd, i) && SameRecords(old(anfds), anfds) && DiffersAt(old(anfds), anfds, fd)
        && old(fdchanges) <= fdchanges
      ensures anfds[fd].events == old(anfds)[fd].events && anfds[fd].head == []
        && started == old(started) - Elems(old(anfds)[fd].head)
      ensures q.OwedNow() == AfterKill(old(q.OwedNow()), old(anfds)[fd].head)
    {
      hide KernOk, AgeOk, LogOk, Interest, Good, Plain, AfterKill, Elems, OwedBy, DiffersAt;
      ghost var a := anfds;
      FdKill(fd, i);
      RecordsKeep(a, anfds, k.table - {fd}, age);
    }

    /** EPERM: the descriptor is always ready, but epoll does not take it. */
    method Refuse(fd: nat, oldmask: bv8, ghost i: nat)
      requires Pausing(fd, i) && fd !in k.table
      modifies this`anfds, this`eperms
      ensures Base(i) && Mirror() && SameLists(old(anfds), anfds)
      ensures anfds == old(anfds)[fd := old(anfds)[fd].(emask := EV_EMASK_EPERM)]
      ensures eperms == if Meet(oldmask, EV_EMASK_EPERM) == 0 then old(eperms) + [fd] else old(eperms)
    {
      hide AgeOk, LogOk, HeadsOk, QueueOk, SyncOk, MasksOf, Good, Plain, ToEpoll, Meet;
      ghost var a := anfds;
      anfds := anfds[fd := anfds[fd].(emask := EV_EMASK_EPERM)];
      if Meet(oldmask, EV_EMASK_EPERM) == 0 { eperms := eperms + [fd]; }
      RefusedKeeps(a, k.table, age, fd);
      ListsKeep(a, anfds, started, fdchanges, i, MasksOf(ios));
    }

    /** The kernel has kept the previous registration, which has the mask asked for. */
    method Keep(fd: nat, ghost i: nat)
      requires Pausing(fd, i) && Unlogged(fd) && Plain(anfds[fd].emask)
      requires fd in k.table && k.table[fd] == Entry(ToEpoll(anfds[fd].emask), Wrap(anfds[fd].egen - 1))
      modifies this`anfds, this`age
      ensures anfds == old(anfds)[fd := old(anfds)[fd].(egen := Wrap(old(anfds)[fd].egen - 1))]
      ensures Base(i) && Mirror() && SameLists(old(anfds), anfds)
    {
      hide KernOk, AgeOk, LogOk, Interest, Good, Plain, ToEpoll, SameLists, Unlogged, Wrap;
      Unstamp(fd, i);
      KernHere(anfds, k.table, fd);
    }

    /** The kernel has no entry and will not take one. */
    method Kill(fd: nat, ghost i: nat)
      requires Pausing(fd, i) && Unlogged(fd) && fd !in k.table
      modifies this`anfds, this`age, this`fdchanges, this`started, ios`active, q`pend, q`pendingpri, q.ws`pending
      ensures Base(i) && Mirror() && DiffersAt(old(anfds), anfds, fd) && old(fdchanges) <= fdchanges
      ensures anfds[fd].events == old(anfds)[fd].events && anfds[fd].head == []
        && started == old(started) - Elems(old(anfds)[fd].head)
      ensures anfds[fd].emask == old(anfds)[fd].emask && anfds[fd].egen == Wrap(old(anfds)[fd].egen - 1)
      ensures q.OwedNow() == AfterKill(old(q.OwedNow()), old(anfds)[fd].head)
    {
      hide KernOk, AgeOk, LogOk, Interest, Good, Plain, ToEpoll, Unlogged, Wrap, AfterKill, OwedBy, Elems;
      KillPausing(fd, i);
      Unstamp(fd, i);
      KernHere(anfds, k.table, fd);
    }

    /** The system calls of epoll_modify: the kernel is asked to change or add the entry, and asked the other way when
        it turns out to have none, or to have one already. */
    method Negotiate(fd: nat, oev: bv8, oldmask: bv8, nev: bv8, ghost i: nat) returns (out: Outcome)
      requires Pausing(fd, i)
      modifies k
      ensures Pausing(fd, i) && Within(k.table - {fd}, old(k.table)) && out != Ignored
      ensures out == Installed ==> fd in k.table && k.table[fd] == Entry(ToEpoll(nev), anfds[fd].egen)
      ensures out == Kept ==> oldmask == nev && fd in k.table && fd in old(k.table) && k.table[fd] == old(k.table)[fd]
      ensures out == Refused || out == Killed ==> fd !in k.table
      ensures (k.quiet ==> k.files == old(k.files)) && (old(Unsupported(fd)) ==> out == Refused)
    {
      hide KernOk, AgeOk, LogOk, Interest, Good, ToEpoll;
      var ev := Entry(ToEpoll(nev), anfds[fd].egen);
      var err := RequestPausing(if oev != 0 && oldmask != nev then Mod else Add, fd, ev, i);
      if err == OK { return Installed; }
      if err == ENOENT {
        err := RequestPausing(Add, fd, ev, i);
        if err == OK { return Installed; }
      } else if err == EEXIST {
        if oldmask == nev { return Kept; }
        err := RequestPausing(Mod, fd, ev, i);
        if err == OK { return Installed; }
      } else if err == EPERM {
        return Refused;
      }
      return Killed;
    }

    /** The end of epoll_modify: the records follow the kernel's answer. */
    method Conclude(fd: nat, oldmask: bv8, nev: bv8, out: Outcome, ghost i: nat)
      requires Pausing(fd, i) && Unlogged(fd) && Plain(nev) && anfds[fd].emask == nev && out != Ignored
      requires out == Installed ==> fd in k.table && k.table[fd] == Entry(ToEpoll(nev), anfds[fd].egen)
      requires out == Kept ==> fd in k.table && k.table[fd] == Entry(ToEpoll(nev), Wrap(anfds[fd].egen - 1))
      requires out == Refused || out == Killed ==> fd !in k.table
      modifies this`anfds, this`fdchanges, this`started, this`eperms, this`age, this`log
      modifies ios`active, q`pend, q`pendingpri, q.ws`pending
      ensures Base(i) && Mirror() && |anfds| == |old(anfds)| && DiffersAt(old(anfds), anfds, fd)
      ensures out == Installed || out == Kept ==>
        anfds[fd].emask == nev && k.table[fd] == Entry(ToEpoll(nev), anfds[fd].egen)
      ensures out == Refused ==> anfds[fd].emask == EV_EMASK_EPERM
      ensures eperms ==
        if out == Refused && Meet(oldmask, EV_EMASK_EPERM) == 0 then old(eperms) + [fd] else old(eperms)
      ensures fd < |old(age)|
      ensures if out == Installed then age == old(age) && log == old(log) + [Reg(fd, age[fd])] else log == old(log)
      ensures out == Killed ==> anfds[fd].head == [] && anfds[fd].events == old(anfds)[fd].events
      ensures out == Killed ==> started == old(started) - Elems(old(anfds)[fd].head) && old(fdchanges) <= fdchanges
      ensures out == Killed ==> q.OwedNow() == AfterKill(old(q.OwedNow()), old(anfds)[fd].head)
      ensures out != Killed ==> SameLists(old(anfds), anfds) && fdchanges == old(fdchanges)
      ensures out != Killed ==> started == old(started) && q.OwedNow() == old(q.OwedNow())
    {
      hide KernOk, AgeOk, LogOk, Interest, Good, Plain, AfterKill, Elems, OwedBy, ToEpoll, Meet, SameLists, Wrap;
      SameTrans(anfds, anfds, anfds);
      if out == Installed {
        Register(fd, i);
      } else if out == Kept {
        Keep(fd, i);
      } else if out == Refused {
        Refuse(fd, oldmask, i);
      } else {
        Kill(fd, i);
      }
    }

    /** epoll_modify */
    method EpollModify(fd: nat, oev: bv8, nev: bv8, ghost i: nat) returns (out: Outcome)
      requires Base(i) && Mirror() && fd < |anfds| && Plain(nev)
      modifies this`anfds, this`fdchanges, this`started, this`eperms, this`age, this`log, k
      modifies ios`active, q`pend, q`pendingpri, q.ws`pending
      ensures Base(i) && Mirror() && |anfds| == |old(anfds)| && DiffersAt(old(anfds), anfds, fd)
      ensures out == Ignored <==> nev == 0
      ensures nev == 0 ==> anfds == old(anfds) && k.table == old(k.table)
      ensures out == Installed || out == Kept ==>
        anfds[fd].emask == nev && fd in k.table && k.table[fd] == Entry(ToEpoll(nev), anfds[fd].egen)
      ensures out == Refused ==> anfds[fd].emask == EV_EMASK_EPERM && fd !in k.table
      ensures eperms ==
        if out == Refused && Meet(old(anfds)[fd].emask, EV_EMASK_EPERM) == 0 then old(eperms) + [fd] else old(eperms)
      ensures if out == Installed then
          |age| == |anfds| == |old(age)| && age[fd] == old(age)[fd] + 1 && log == old(log) + [Reg(fd, age[fd])]
        else log == old(log)
      ensures out == Killed ==> fd !in k.table && anfds[fd].head == [] && anfds[fd].events == old(anfds)[fd].events
      ensures out == Killed ==> started == old(started) - Elems(old(anfds)[fd].head) && old(fdchanges) <= fdchanges
      ensures out == Killed ==> q.OwedNow() == AfterKill(old(q.OwedNow()), old(anfds)[fd].head)
      ensures out != Killed ==> SameLists(old(anfds), anfds) && fdchanges == old(fdchanges)
      ensures out != Killed ==> started == old(started) && q.OwedNow() == old(q.OwedNow())
      ensures Within(k.table - {fd}, old(k.table))
      ensures (k.quiet ==> k.files == old(k.files)) && (old(Unsupported(fd)) && nev != 0 ==> out == Refused)
    {
      hide KernOk, AgeOk, LogOk, Interest, Good, Plain, AfterKill, Elems, OwedBy, ToEpoll, Meet, Unlogged, SameLists;
      SameTrans(anfds, anfds, anfds);
      if nev == 0 { return Ignored; }
      var oldmask := anfds[fd].emask;
      ghost var a := anfds;
      EntryIs(a, k.table, fd);
      Unwrapped(a[fd].egen);
      Stamp(fd, nev, i);
      ghost var b := anfds;
      out := Negotiate(fd, oev, oldmask, nev, i);
      Conclude(fd, oldmask, nev, out, i);
      SameTrans(a, b, anfds);
      ListsAt(a, b, fd);
    }

    /** What the outcome of a request says about the kernel's entry. */
    ghost predicate Answered(out: Outcome, fd: nat, nev: bv8)
      reads this`anfds, k`table
    {
      && fd < |anfds|
      && (out == Installed || out == Kept ==>
        anfds[fd].emask == nev && fd in k.table && k.table[fd] == Entry(ToEpoll(nev), anfds[fd].egen))
      && (out == Refused ==> anfds[fd].emask == EV_EMASK_EPERM && fd !in k.table)
      && (out == Killed ==> anfds[fd].head == [] && fd !in k.table)
    }

    lemma NotAsked(fd: nat)
      ensures fd < |anfds| ==> Answered(Ignored, fd, anfds[fd].events)
    {
    }

    /** backend_modify */
    method BackendModify(fd: nat, oev: bv8, nev: bv8, ghost i: nat) returns (out: Outcome)
      requires Base(i) && Mirror() && fd < |anfds| && Plain(nev) && nev == anfds[fd].events
      requires |asked| == |anfds| && AskedOk(anfds, asked[fd := nev]) && Refusals()
      modifies this`anfds, this`fdchanges, this`started, this`eperms, this`age, this`log, this`asked, k
      modifies ios`active, q`pend, q`pendingpri, q.ws`pending
      ensures Base(i) && Mirror() && AskedOk(anfds, asked) && |anfds| == |old(anfds)| && Refusals()
      ensures out == Killed ==> nev != 0 && started == old(started) - Elems(old(anfds)[fd].head)
      ensures (out == Ignored <==> nev == 0) && Answered(out, fd, nev) && anfds[fd].events == nev && |asked| == |anfds|
        && asked[fd] == nev
      ensures out != Killed ==> fdchanges == old(fdchanges) && started == old(started)
      ensures (k.quiet ==> k.files == old(k.files)) && (old(Unsupported(fd)) ==> out == Ignored || out == Refused)
      ensures forall g :: old(Unsupported(g)) ==> MarkStep(old(anfds), old(eperms), anfds, eperms, g)
      ensures asked == old(asked)[fd := nev] && (out == Refused ==> IsMarked(anfds, fd))
    {
      hide KernOk, AgeOk, LogOk, Interest, Good, Plain, AfterKill, Elems, OwedBy, ToEpoll, Meet, AskedOk, MarkStep,
        IsMarked;
      ghost var a, ep := anfds, eperms;
      out := EpollModify(fd, oev, nev, i);
      forall g | g != fd || old(Unsupported(fd)) || out == Refused ensures MarkStep(a, ep, anfds, eperms, g) {
        ModifyMarks(a, ep, anfds, eperms, fd, out == Refused, g);
      }
      if out == Refused { ModifyMarks(a, ep, anfds, eperms, fd, true, fd); }
      asked := asked[fd := nev];
      AskedKeeps(a, anfds, asked, fd);
    }

    /** In fd_reify: takes the mark off and adds up what the watchers ask for. */
    method Recompute(fd: nat, ghost i: nat)
      requires Base(i) && Mirror() && AskedOk(anfds, asked) && i < |fdchanges| && fd == fdchanges[i]
      modifies this`anfds
      ensures Base(i + 1) && Mirror() && fd < |anfds| && Plain(anfds[fd].events)
      ensures DiffersAt(old(anfds), anfds, fd) && |asked| == |anfds| && AskedOk(anfds, asked[fd := anfds[fd].events])
      ensures asked[fd] == old(anfds)[fd].events && anfds[fd].events == Union(anfds[fd].head, MasksOf(ios))
      ensures anfds[fd].head == old(anfds)[fd].head && SameRecords(old(anfds), anfds)
    {
      hide HeadsOk, SyncOk, QueueOk, KernOk, AgeOk, LogOk, MasksOf, Good, Plain, Union, SameRecords, AskedOk;
      ghost var a, ms := anfds, MasksOf(ios);
      NextChange(a, started, fdchanges, i, ms);
      AddUp(fd);
      UnmarkKeeps(a, anfds, started, fdchanges, i, ms);
      RecordsKeep(a, anfds, k.table, age);
      PlainUnion(anfds, started, ios, fd);
      AskedAnew(a, anfds, asked, fd);
    }

    /** The inner loop of fd_reify. */
    method AddUp(fd: nat)
      requires fd < |anfds| && forall w :: w in anfds[fd].head ==> w in ios
      modifies this`anfds
      ensures anfds == old(anfds)[fd := old(anfds)[fd].(reify := 0, events := Union(old(anfds)[fd].head, MasksOf(ios)))]
    {
      hide Union, Join, MasksOf;
      ghost var a := anfds;
      anfds := anfds[fd := anfds[fd].(reify := 0, events := 0)];
      NoWatchers(map[], MasksOf(ios), 0);
      var n := 0;
      while n < |anfds[fd].head|
        invariant |anfds| == |a| && anfds == a[fd := a[fd].(reify := 0, events := anfds[fd].events)]
        invariant 0 <= n <= |a[fd].head| && anfds[fd].events == Union(a[fd].head[..n], MasksOf(ios))
      {
        UnionMore(a[fd].head, n, ios);
        anfds := anfds[fd := anfds[fd].(events := Join(anfds[fd].events, anfds[fd].head[n].events))];
        n := n + 1;
      }
      assert a[fd].head[..n] == a[fd].head;
    }

    /** In fd_reify: asks the back end if the mark says so. */
    method AskMarked(fd: nat, oev: bv8, mark: bv8, ghost i: nat) returns (out: Outcome)
      requires Base(i) && Mirror() && fd < |anfds| && Plain(anfds[fd].events) && Refusals() && |asked| == |anfds|
      requires AskedOk(anfds, asked[fd := anfds[fd].events])
      requires Meet(mark, EV_IOFDSET) == 0 ==> asked[fd] == anfds[fd].events
      modifies this`anfds, this`fdchanges, this`started, this`eperms, this`age, this`log, this`asked, k
      modifies ios`active, q`pend, q`pendingpri, q.ws`pending
      ensures Base(i) && Mirror() && AskedOk(anfds, asked) && |anfds| == |old(anfds)| == |asked| && Refusals()
      ensures out == Killed ==> anfds[fd].events != 0 && started == old(started) - Elems(old(anfds)[fd].head)
      ensures out != Killed ==> fdchanges == old(fdchanges) && started == old(started)
      ensures anfds[fd].events == old(anfds)[fd].events == asked[fd] && Answered(out, fd, anfds[fd].events)
      ensures anfds[fd].events != 0 ==> (out != Ignored <==> Meet(mark, EV_IOFDSET) != 0)
      ensures (k.quiet ==> k.files == old(k.files)) && (old(Unsupported(fd)) ==> out == Ignored || out == Refused)
      ensures forall g :: old(Unsupported(g)) ==>
        && MarkStep(old(anfds), old(eperms), anfds, eperms, g)
        && (AskedMarked(old(anfds), old(asked), g) ==> AskedMarked(anfds, asked, g))
    {
      hide KernOk, AgeOk, LogOk, Interest, Good, Plain, AskedOk, Elems, Meet, ToEpoll, Answered, MarkStep, IsMarked,
        AskedMarked;
      ghost var a, ep, asked0, m := anfds, eperms, asked, anfds[fd].events;
      if Meet(mark, EV_IOFDSET) != 0 {
        out := BackendModify(fd, oev, anfds[fd].events, i);
      } else {
        out := Ignored;
        NotAsked(fd);
        assert asked[fd := m] == asked;
        AnfdsSame(a);
        forall g: nat ensures MarkStep(a, ep, a, ep, g) { MarkSame(a, a, ep, g); }
      }
      forall g: nat | old(Unsupported(g)) ensures AskedMarked(a, asked0, g) ==> AskedMarked(anfds, asked, g) {
        AskedStep(a, ep, asked0, anfds, eperms, m, fd, g);
      }
    }

    /** One turn of the outer loop of fd_reify. The back end is asked whenever the events have changed or the mark says
        that the descriptor itself may have, and only then. */
    method ReifyNext(i: nat) returns (out: Outcome)
      requires Base(i) && Mirror() && AskedOk(anfds, asked) && i < |fdchanges| && Refusals()
      modifies this`anfds, this`fdchanges, this`started, this`eperms, this`age, this`log, this`asked, k
      modifies ios`active, q`pend, q`pendingpri, q.ws`pending
      ensures Base(i + 1) && Mirror() && AskedOk(anfds, asked) && |anfds| == |old(anfds)| && Refusals()
      ensures started < old(started) || (started == old(started) && fdchanges == old(fdchanges))
      ensures var fd := old(fdchanges)[i]; fd < |anfds| && asked[fd] == anfds[fd].events
      ensures var fd := old(fdchanges)[i]; Answered(out, fd, anfds[fd].events)
      ensures var a := old(anfds)[old(fdchanges)[i]]; var ev := anfds[old(fdchanges)[i]].events;
        ev != 0 ==> (out != Ignored <==> a.events != ev || Meet(a.reify, EV_IOFDSET) != 0)
      ensures k.quiet ==> k.files == old(k.files)
      ensures forall g :: old(Unsupported(g)) ==>
        && MarkStep(old(anfds), old(eperms), anfds, eperms, g)
        && (AskedMarked(old(anfds), old(asked), g) ==> AskedMarked(anfds, asked, g))
      ensures forall w :: w in old(started) && old(Unsupported(w.fd)) ==> w in started
    {
      hide HeadsOk, SyncOk, QueueOk, KernOk, AgeOk, LogOk, MasksOf, Good, Plain, Union, AskedOk, Elems, Meet, ToEpoll,
        Answered, MarkStep, SameRecords, IsMarked, AskedMarked;
      var fd := fdchanges[i];
      NextChange(anfds, started, fdchanges, i, MasksOf(ios));
      var o_events, o_reify := anfds[fd].events, anfds[fd].reify;
      ghost var a, ep := anfds, eperms;
      HeadElsewhere(a, started, fd);
      Recompute(fd, i);
      ghost var b := anfds;
      if o_events != anfds[fd].events { o_reify := EV_IOFDSET; }
      FdsetMeets();
      HeadShrinks(anfds, started, fd, MasksOf(ios));
      out := AskMarked(fd, o_events, o_reify, i + 1);
      forall g: nat | old(Unsupported(g))
        ensures MarkStep(a, ep, anfds, eperms, g) && (AskedMarked(a, old(asked), g) ==> AskedMarked(anfds, asked, g))
      {
        MarkSame(a, b, ep, g);
        MarkedAlike(a, b, old(asked), g);
        MarkTrans(a, ep, b, ep, anfds, eperms, g);
      }
    }

    /** fd_reify. It terminates although killing a descriptor appends to the list it walks. A descriptor that epoll does
        not support ends up marked as refused if its watchers ask for something; it keeps its watchers, and it is newly
        listed in epoll_eperms iff it is newly marked. */
    method FdReify()
      requires Valid()
      modifies this`anfds, this`fdchanges, this`started, this`eperms, this`age, this`log, this`asked, k
      modifies ios`active, q`pend, q`pendingpri, q.ws`pending
      ensures Valid() && fdchanges == [] && started <= old(started) && |anfds| == |old(anfds)| == |asked|
      ensures forall fd :: 0 <= fd < |anfds| ==>
        anfds[fd].reify == 0 && anfds[fd].events == Union(anfds[fd].head, MasksOf(ios)) == asked[fd]
      ensures k.quiet ==> k.files == old(k.files)
      ensures forall g :: old(Unsupported(g)) ==>
        && MarkStep(old(anfds), old(eperms), anfds, eperms, g)
        && (AskedMarked(old(anfds), old(asked), g) ==> AskedMarked(anfds, asked, g))
      ensures forall w :: w in old(started) && old(Unsupported(w.fd)) ==> w in started
    {
      hide Interest, KernOk, AgeOk, LogOk, MasksOf, Good, Union, AskedOk, MarkStep, AskedMarked, SameRecords;
      ghost var a, ep := anfds, eperms;
      AnfdsSame(a);
      forall g: nat ensures MarkStep(a, ep, a, ep, g) { MarkSame(a, a, ep, g); }
      var i := 0;
      while i < |fdchanges|
        invariant Base(i) && Mirror() && AskedOk(anfds, asked) && started <= old(started) && |anfds| == |old(anfds)|
          && Refusals()
        invariant i <= |fdchanges| && (k.quiet ==> k.files == old(k.files))
        invariant forall g :: old(Unsupported(g)) ==>
          && MarkStep(a, ep, anfds, eperms, g)
          && (AskedMarked(a, old(asked), g) ==> AskedMarked(anfds, asked, g))
        invariant forall w :: w in old(started) && old(Unsupported(w.fd)) ==> w in started
        decreases started, |fdchanges| - i
      {
        ghost var b, ep' := anfds, eperms;
        var _ := ReifyNext(i);
        ListReaches(i + 1);
        forall g: nat | old(Unsupported(g)) ensures MarkStep(a, ep, anfds, eperms, g) {
          MarkTrans(a, ep, b, ep', anfds, eperms, g);
        }
        i := i + 1;
      }
      Settle(i);
    }

    lemma ListReaches(i: nat)
      requires Interest(i)
      ensures i <= |fdchanges|
    {
    }

    /** The end of fd_reify: the change list has been worked off and is emptied. */
    method Settle(i: nat)
      requires Base(i) && AskedOk(anfds, asked) && i == |fdchanges|
      modifies this`fdchanges
      ensures Base(0) && fdchanges == [] && |anfds| == |asked|
      ensures forall fd :: 0 <= fd < |anfds| ==>
        anfds[fd].reify == 0 && anfds[fd].events == Union(anfds[fd].head, MasksOf(ios)) == asked[fd]
    {
      hide HeadsOk, MasksOf, Good, Union, Plain;
      SettledQueue(anfds, fdchanges);
      fdchanges := [];
    }

    /** Time passes between two calls into the loop. */
    method Elapse()
      requires Valid()
      modifies k
      ensures Valid() && Within(k.table, old(k.table))
    {
      hide Base, KernOk, AgeOk, LogOk, AskedOk;
      ghost var t := k.table;
      k.Environment();
      KernWithin(anfds, k.table, t);
    }

    // ---------- epoll_poll ----------

    /** fd_event_nocheck */
    method FdEventNocheck(fd: nat, revents: bv8)
      requires Valid() && fd < |anfds|
      modifies q`pend, q`pendingpri, q.ws`pending
      ensures Valid() && q.OwedNow() == AfterFeed(old(q.OwedNow()), anfds[fd].head, MasksOf(ios), revents)
    {
      hide Interest, Mirror, AskedOk, MasksOf, Good, OwedBy, After, Meet, Widen, AfterFeed;
      ghost var o := q.OwedNow();
      HeadKnown(fd);
      NoWatchers(o, MasksOf(ios), revents);
      var n := 0;
      while n < |anfds[fd].head|
        invariant Valid() && 0 <= n <= |anfds[fd].head|
        invariant q.OwedNow() == AfterFeed(o, anfds[fd].head[..n], MasksOf(ios), revents)
      {
        var w := anfds[fd].head[n];
        var ev := Meet(w.events, revents);
        FeedMore(o, anfds[fd].head, n, ios, revents);
        if ev != 0 { q.FeedEvent(w, Widen(ev)); }
        n := n + 1;
      }
      assert anfds[fd].head[..n] == anfds[fd].head;
    }

    lemma HeadKnown(fd: nat)
      requires Valid() && fd < |anfds|
      ensures forall w :: w in anfds[fd].head ==> w in ios && w in q.ws && w.fd == fd
      ensures forall i, j :: 0 <= i < j < |anfds[fd].head| ==> anfds[fd].head[i] != anfds[fd].head[j]
    {
      hide QueueOk, SyncOk, MasksOf, Good, Plain, Mirror, AskedOk;
      assert HeadOk(anfds[fd], fd, started);
    }

    /** fd_event */
    method FdEvent(fd: nat, revents: bv8)
      requires Valid() && fd < |anfds|
      modifies q`pend, q`pendingpri, q.ws`pending
      ensures Valid()
      ensures q.OwedNow() == if anfds[fd].reify == 0
        then AfterFeed(old(q.OwedNow()), anfds[fd].head, MasksOf(ios), revents) else old(q.OwedNow())
    {
      hide Interest, Mirror, AskedOk, MasksOf, Good, OwedBy, AfterFeed;
      if anfds[fd].reify == 0 { FdEventNocheck(fd, revents); }
    }

    /** In epoll_poll: takes back the interest in events nobody wants. */
    method Narrow(fd: nat, gen: Gen) returns (err: Errno)
      requires Valid() && fd < |anfds| && gen == anfds[fd].egen
      modifies this`anfds, k
      ensures Valid() && anfds == old(anfds)[fd := old(anfds)[fd].(emask := old(anfds)[fd].events)]
      ensures Within(k.table - {fd}, old(k.table))
      ensures err == OK && anfds[fd].events != 0 ==>
        fd in k.table && k.table[fd] == Entry(ToEpoll(anfds[fd].events), gen)
      ensures err != OK || anfds[fd].events == 0 ==> fd !in k.table
    {
      hide HeadsOk, QueueOk, SyncOk, KernOk, AgeOk, LogOk, MasksOf, Good, Plain, ToEpoll, OwedBy;
      ghost var a, t := anfds, k.table;
      var want := anfds[fd].events;
      PlainWant(anfds, asked, fd);
      NarrowKeeps(a, t, age, fd, want);
      anfds := anfds[fd := anfds[fd].(emask := want)];
      ListsKeep(a, anfds, started, fdchanges, 0, MasksOf(ios));
      err := Request(if want != 0 then Mod else Del, fd, Entry(ToEpoll(want), gen));
      KernElsewhere(anfds, t, k.table, fd);
      KernHere(anfds, k.table, fd);
    }

    /** One received event in epoll_poll. */
    method HandleEvent(ev: KEvent) returns (fed: bool)
      requires Valid() && ev.fd < |anfds|
      modifies this`anfds, this`postfork, k, q`pend, q`pendingpri, q.ws`pending
      ensures Valid() && SameLists(old(anfds), anfds) && SameGens(old(anfds), anfds)
      ensures ev.gen != anfds[ev.fd].egen ==> !fed && anfds == old(anfds) && k.table == old(k.table)
      ensures fed && Unwanted(old(anfds)[ev.fd], ev.events) && anfds[ev.fd].events != 0 ==>
        ev.fd in k.table && k.table[ev.fd] == Entry(ToEpoll(anfds[ev.fd].events), ev.gen)
      ensures fed && Unwanted(old(anfds)[ev.fd], ev.events) && anfds[ev.fd].events == 0 ==> ev.fd !in k.table
      ensures if fed then postfork == old(postfork) else postfork
      ensures fed && anfds[ev.fd].reify == 0 ==>
        q.OwedNow() == AfterFeed(old(q.OwedNow()), anfds[ev.fd].head, MasksOf(ios), GotOf(ev.events))
      ensures !fed || anfds[ev.fd].reify != 0 ==> q.OwedNow() == old(q.OwedNow())
      ensures Deliverable(old(anfds), ev) ==> fed && anfds == old(anfds)
    {
      hide Interest, Good, OwedBy, Mirror, AskedOk, MasksOf, AfterFeed, ToEpoll, GotOf, Meet, SameLists;
      var fd, got := ev.fd, GotOf(ev.events);
      SameTrans(anfds, anfds, anfds);
      if anfds[fd].egen != ev.gen {
        postfork := true; // recreate kernel state
        return false;
      }
      if Unwanted(anfds[fd], ev.events) {
        MaskOnly(anfds, fd, anfds[fd].events);
        var err := Narrow(fd, ev.gen);
        if err != OK {
          postfork := true;
          return false;
        }
      }
      FdEvent(fd, got);
      return true;
    }

    lemma HandledOthers(o: Owed, fd: nat, got: bv8, w: Watcher)
      requires Valid() && fd < |anfds| && w.fd != fd
      ensures SameDebt(o, AfterFeed(o, anfds[fd].head, MasksOf(ios), got), w)
    {
      hide Interest, Good, OwedBy, Mirror, AskedOk, MasksOf, AfterFeed;
      HeadKnown(fd);
      FeedOthers(o, anfds[fd].head, MasksOf(ios), got, w);
    }

    /** HandleEvent, as the watchers see it. */
    method HandleNext(ev: KEvent)
      requires Valid() && ev.fd < |anfds|
      modifies this`anfds, this`postfork, k, q`pend, q`pendingpri, q.ws`pending
      ensures Valid() && SameLists(old(anfds), anfds) && SameGens(old(anfds), anfds)
      ensures forall w :: w in ios && (w.fd != ev.fd || ev.gen != anfds[ev.fd].egen) ==>
        SameDebt(old(q.OwedNow()), q.OwedNow(), w)
      ensures Keeps(old(q.OwedNow()), q.OwedNow())
      ensures Deliverable(old(anfds), ev) ==> Delivered(q.OwedNow(), anfds, MasksOf(ios), ev)
    {
      hide Interest, Good, OwedBy, Mirror, AskedOk, MasksOf, AfterFeed, ToEpoll, Meet, SameLists, SameDebt, GotOf,
        Keeps, Delivered, Unwanted;
      ghost var o := q.OwedNow();
      var fed := HandleEvent(ev);
      KeepsTrans(o, o, o);
      HeadKnown(ev.fd);
      FeedDelivers(o, anfds, MasksOf(ios), ev);
      forall w | w in ios && (w.fd != ev.fd || ev.gen != anfds[ev.fd].egen) ensures SameDebt(o, q.OwedNow(), w) {
        DebtTrans(o, o, o, w);
        if fed { HandledOthers(o, ev.fd, GotOf(ev.events), w); }
      }
    }

    /** The loop of epoll_poll over the received events. An event with another generation than the descriptor's present
        one is not passed on to anybody; a wanted event of the present one reaches everybody who asked for it. */
    method HandleEvents(events: seq<KEvent>)
      requires Valid() && forall i :: 0 <= i < |events| ==> events[i].fd < |anfds|
      modifies this`anfds, this`postfork, k, q`pend, q`pendingpri, q.ws`pending
      ensures Valid() && SameLists(old(anfds), anfds) && SameGens(old(anfds), anfds)
      ensures forall w :: w in ios && NotConcerned(w, events, old(anfds)) ==>
        SameDebt(old(q.OwedNow()), q.OwedNow(), w)
      ensures forall i :: 0 <= i < |events| && Deliverable(old(anfds), events[i]) ==>
        Delivered(q.OwedNow(), anfds, MasksOf(ios), events[i])
      ensures Keeps(old(q.OwedNow()), q.OwedNow())
      ensures events == [] ==> anfds == old(anfds) && k.files == old(k.files)
    {
      hide Interest, Good, OwedBy, Mirror, AskedOk, SameLists, SameDebt, Keeps, Delivered, Deliverable, MasksOf;
      ghost var a, o := anfds, q.OwedNow();
      SameTrans(a, a, a);
      KeepsTrans(o, o, o);
      forall w | w in ios ensures SameDebt(o, o, w) { DebtTrans(o, o, o, w); }
      for i := 0 to |events|
        invariant Valid() && SameLists(a, anfds) && SameGens(a, anfds)
          && (i == 0 ==> anfds == a && k.files == old(k.files))
        invariant forall w :: w in ios && NotConcerned(w, events, a) ==> SameDebt(o, q.OwedNow(), w)
        invariant Keeps(o, q.OwedNow())
        invariant forall j :: 0 <= j < i && Deliverable(a, events[j]) ==>
          Delivered(q.OwedNow(), anfds, MasksOf(ios), events[j])
      {
        ghost var b, o1, ms := anfds, q.OwedNow(), MasksOf(ios);
        HandleNext(events[i]);
        SameTrans(a, b, anfds);
        KeepsTrans(o, o1, q.OwedNow());
        DeliverableStays(a, b, events[i]);
        forall w | w in ios && NotConcerned(w, events, a) ensures SameDebt(o, q.OwedNow(), w) {
          DebtTrans(o, o1, q.OwedNow(), w);
        }
        forall j | 0 <= j < i && Deliverable(a, events[j]) ensures Delivered(q.OwedNow(), anfds, ms, events[j]) {
          DeliveredStays(o1, b, ms, q.OwedNow(), anfds, events[j]);
        }
      }
    }

    /** `fd` is reported without asking the kernel. */
    predicate AlwaysReady(fd: nat)
      reads this`anfds
    {
      fd < |anfds| && Meet(anfds[fd].emask, EV_EMASK_EPERM) != 0 && Meet(anfds[fd].events, 3) != 0
    }

    /** Every watcher of `fd` that asks for something has been told. */
    ghost predicate Told(fd: nat)
      requires q.Valid()
      reads this`anfds, this`ios, ios`events, q`pend, q`ws, q.ws`pending
    {
      && fd < |anfds|
      && (anfds[fd].reify == 0 ==>
        forall w :: w in anfds[fd].head && Meet(MaskOf(w, MasksOf(ios)), Meet(anfds[fd].events, 3)) != 0 ==>
          Carries(q.OwedNow(), w, Widen(Meet(MaskOf(w, MasksOf(ios)), Meet(anfds[fd].events, 3)))))
    }

    /** fd_event for a descriptor that epoll does not take. */
    method TellReady(fd: nat, ghost told: set<nat>)
      requires Valid() && fd < |anfds| && forall g :: g in told ==> Told(g)
      modifies q`pend, q`pendingpri, q.ws`pending
      ensures Valid() && Told(fd) && forall g :: g in told ==> Told(g)
      ensures forall w :: w in ios && w.fd != fd ==> SameDebt(old(q.OwedNow()), q.OwedNow(), w)
      ensures Keeps(old(q.OwedNow()), q.OwedNow())
    {
      hide Interest, Mirror, AskedOk, MasksOf, AfterFeed, Meet, Widen, SameDebt, Carries, MaskOf, Good, OwedBy, Keeps;
      ghost var o, ms, head, got := q.OwedNow(), MasksOf(ios), anfds[fd].head, Meet(anfds[fd].events, 3);
      HeadKnown(fd);
      KeepsTrans(o, o, o);
      FeedKeeps(o, head, ms, got);
      FdEvent(fd, Meet(anfds[fd].events, 3));
      forall w | w in ios && w.fd != fd ensures SameDebt(o, q.OwedNow(), w) {
        DebtTrans(o, o, o, w);
        FeedOthers(o, head, ms, got, w);
      }
      if anfds[fd].reify == 0 {
        forall w, m | Carries(o, w, m) ensures Carries(q.OwedNow(), w, m) { FeedCarries(o, head, ms, got, w, m); }
        forall w | w in head && Meet(MaskOf(w, ms), got) != 0
          ensures Carries(q.OwedNow(), w, Widen(Meet(MaskOf(w, ms), got)))
        {
          FeedTells(o, head, ms, got, w);
        }
      }
    }

    /** The last refused descriptor takes the place of one that is dropped. */
    method DropEperm(i: nat)
      requires Valid() && i < |eperms|
      modifies this`eperms
      ensures Valid() && i <= |eperms| && eperms[..i] == old(eperms)[..i]
      ensures forall x :: x in eperms[i..] <==> x in old(eperms)[i + 1..]
    {
      hide Interest, Mirror, AskedOk;
      ghost var ep := eperms;
      SwapDrop(eperms, i);
      eperms := eperms[i := eperms[|eperms| - 1]][..|eperms| - 1];
      assert Refusals() by { assert forall x :: x in eperms ==> x in ep; }
    }

    /** The end of epoll_poll: descriptors that epoll does not take are reported, and those nobody watches any more are
        dropped from the list. */
    method SynthesizeEperms()
      requires Valid()
      modifies this`eperms, q`pend, q`pendingpri, q.ws`pending
      ensures Valid() && forall fd :: fd in eperms <==> fd in old(eperms) && AlwaysReady(fd)
      ensures forall fd :: fd in eperms ==> Told(fd)
      ensures forall w :: w in ios && w.fd !in old(eperms) ==> SameDebt(old(q.OwedNow()), q.OwedNow(), w)
      ensures Keeps(old(q.OwedNow()), q.OwedNow())
    {
      hide Interest, Mirror, AskedOk, MasksOf, Meet, Widen, SameDebt, Carries, MaskOf, Good, OwedBy, AlwaysReady, Keeps;
      ghost var o, told: set<nat>, old0 := q.OwedNow(), {}, eperms;
      KeepsTrans(o, o, o);
      forall w | w in ios ensures SameDebt(o, o, w) { DebtTrans(o, o, o, w); }
      var i := |eperms|;
      while i > 0
        invariant Valid() && 0 <= i <= |eperms| && i <= |old0| && eperms[..i] == old0[..i]
        invariant forall fd :: fd in told ==> Told(fd)
        invariant forall fd :: fd in eperms[i..] <==> fd in old0[i..] && AlwaysReady(fd)
        invariant forall fd :: fd in eperms[i..] ==> fd in told
        invariant forall w :: w in ios && w.fd !in old0 ==> SameDebt(o, q.OwedNow(), w)
        invariant Keeps(o, q.OwedNow())
      {
        i := i - 1;
        var fd := eperms[i];
        ghost var o1 := q.OwedNow();
        assert fd in eperms;
        assert old0[..i + 1][i] == old0[i] && eperms[..i + 1][i] == fd;
        assert old0[i..] == [fd] + old0[i + 1..];
        if AlwaysReady(fd) {
          TellReady(fd, told);
          KeepsTrans(o, o1, q.OwedNow());
          told := told + {fd};
          assert eperms[i..] == [fd] + eperms[i + 1..];
          forall w | w in ios && w.fd !in old0 ensures SameDebt(o, q.OwedNow(), w) { DebtTrans(o, o1, q.OwedNow(), w); }
        } else {
          DropEperm(i);
        }
      }
    }

    /** epoll_poll, for whatever events the kernel reports. Every wanted event of a descriptor's present registration
        reaches the watchers that asked for it, and every refused descriptor's watchers are told. A watcher none of
        whose descriptor's events belongs to the present registration, and whose descriptor is not listed as refused,
        is told of nothing; in particular if all of them belong to registrations superseded fewer than 2^32
        generations ago. */
    method EpollPoll(events: seq<KEvent>)
      requires Valid() && forall i :: 0 <= i < |events| ==> events[i].fd < |anfds|
      modifies this`anfds, this`postfork, this`eperms, k, q`pend, q`pendingpri, q.ws`pending
      ensures Valid() && SameLists(old(anfds), anfds) && SameGens(old(anfds), anfds)
      ensures events == [] ==> anfds == old(anfds) && k.files == old(k.files)
      ensures forall fd :: fd in eperms <==> fd in old(eperms) && AlwaysReady(fd)
      ensures forall fd :: fd in eperms ==> Told(fd)
      ensures forall i :: 0 <= i < |events| && Deliverable(old(anfds), events[i]) ==>
        Delivered(q.OwedNow(), anfds, MasksOf(ios), events[i])
      ensures forall w :: w in ios && NotConcerned(w, events, old(anfds)) && w.fd !in old(eperms) ==>
        SameDebt(old(q.OwedNow()), q.OwedNow(), w)
      ensures forall w :: w in ios && AllSuperseded(w, events, log, age) && w.fd !in old(eperms) ==>
        SameDebt(old(q.OwedNow()), q.OwedNow(), w)
    {
      hide Interest, KernOk, AgeOk, LogOk, AskedOk, SameLists, SameDebt, Told, AlwaysReady, NotConcerned, OwedBy, Good,
        Delivered, Deliverable, Keeps, MasksOf, AllSuperseded;
      ghost var o, a := q.OwedNow(), anfds;
      forall w | w in ios && AllSuperseded(w, events, log, age) ensures NotConcerned(w, events, a) {
        SupersededElsewhere(a, age, log, events, w);
      }
      HandleEvents(events);
      ghost var o1, b := q.OwedNow(), anfds;
      SynthesizeEperms();
      SameTrans(b, b, b);
      forall w | w in ios && NotConcerned(w, events, a) && w.fd !in old(eperms) ensures SameDebt(o, q.OwedNow(), w) {
        DebtTrans(o, o1, q.OwedNow(), w);
      }
      forall i | 0 <= i < |events| && Deliverable(a, events[i])
        ensures Delivered(q.OwedNow(), anfds, MasksOf(ios), events[i])
      {
        DeliveredStays(o1, b, MasksOf(ios), q.OwedNow(), anfds, events[i]);
      }
    }

    /** A refused descriptor is meant to be listed in epoll_eperms. It is iff it was listed before or not marked as
        refused before. */
    method RefusedListed(fd: nat, oev: bv8, nev: bv8) returns (out: Outcome)
      requires Base(0) && Mirror() && fd < |anfds| && Plain(nev)
      modifies this`anfds, this`fdchanges, this`started, this`eperms, this`age, this`log, k
      modifies ios`active, q`pend, q`pendingpri, q.ws`pending
      ensures out == Refused ==> |anfds| == |old(anfds)| && Meet(anfds[fd].emask, EV_EMASK_EPERM) != 0
      ensures out == Refused ==>
        (fd in eperms <==> fd in old(eperms) || Meet(old(anfds)[fd].emask, EV_EMASK_EPERM) == 0)
      ensures old(Unsupported(fd)) && nev != 0 ==> out == Refused
    {
      hide Interest, Mirror, OwedBy, Good, AfterKill, SameLists, Within;
      out := EpollModify(fd, oev, nev, 0);
    }

    /** So a refused descriptor nobody watches is forgotten by the next poll, mark and all but the list entry, and when
        it is watched and refused again it is never listed: its watchers wait in vain. */
    method RefusedForgotten(fd: nat, nev: bv8) returns (out: Outcome)
      requires Valid() && fd < |anfds| && Plain(nev)
      requires Meet(anfds[fd].emask, EV_EMASK_EPERM) != 0 && Meet(anfds[fd].events, 3) == 0
      modifies this`anfds, this`fdchanges, this`started, this`eperms, this`age, this`log, k
      modifies ios`active, q`pend, q`pendingpri, q.ws`pending
      ensures out == Refused ==> fd !in eperms
      ensures old(Unsupported(fd)) && nev != 0 ==> out == Refused
    {
      hide Interest, Mirror, AskedOk, OwedBy, Good, Told, SameDebt, Plain, Keeps;
      SynthesizeEperms();
      out := RefusedListed(fd, 0, nev);
    }

    /** A watcher starts on a descriptor that epoll does not support, and the change is passed on. */
    method WatchUnsupported(w: Watcher)
      requires Valid() && Unsupported(w.fd) && w in ios && w !in started && w.events == EV_READ
      requires AskedMarked(anfds, asked, w.fd)
      modifies this`anfds, this`fdchanges, this`started, this`eperms, this`age, this`log, this`asked, k
      modifies ios`active, w`events, q`pend, q`pendingpri, q.ws`pending
      ensures Valid() && q.Valid() && Unsupported(w.fd) && w in started && started <= old(started) + {w}
        && w.events == EV_READ
      ensures fdchanges == [] && w.fd < |anfds| && w in anfds[w.fd].head && anfds[w.fd].reify == 0
      ensures Meet(anfds[w.fd].events, EV_READ) != 0 && IsMarked(anfds, w.fd) && AskedMarked(anfds, asked, w.fd)
      ensures w.fd in eperms <==> w.fd in old(eperms) || !IsMarked(old(anfds), w.fd)
    {
      hide Interest, Mirror, AskedOk, OwedBy, Good, Union, MasksOf, IsMarked, Meet, Plain;
      ghost var a, asked0 := anfds, asked;
      ReadOnly();
      IoStart(w);
      PaddedMarked(a, asked0, anfds, asked, w.fd);
      FdReify();
      Listed(w);
      MaskIs(ios, w);
      ReadAsked(anfds[w.fd].head, MasksOf(ios), w);
    }

    lemma Listed(w: Watcher)
      requires Valid() && w in started
      ensures w in ios && w.fd < |anfds| && w in anfds[w.fd].head
    {
      hide QueueOk, SyncOk, MasksOf, Good, Plain, Mirror, AskedOk;
    }

    /** The only watcher stops, and the change is passed on. */
    method UnwatchLast(w: Watcher)
      requires Valid() && Unsupported(w.fd) && w in ios && started <= {w} && w.fd < |anfds|
      requires AskedMarked(anfds, asked, w.fd)
      modifies this`anfds, this`fdchanges, this`started, this`eperms, this`age, this`log, this`asked, k
      modifies ios`active, q`pend, q`pendingpri, q.ws`pending
      ensures Valid() && Unsupported(w.fd) && started == {} && w.events == old(w.events)
      ensures w.fd < |anfds| && anfds[w.fd].events == 0 == anfds[w.fd].reify && AskedMarked(anfds, asked, w.fd)
      ensures IsMarked(old(anfds), w.fd) ==> IsMarked(anfds, w.fd)
    {
      hide Interest, Mirror, AskedOk, OwedBy, Good, Union, MasksOf, IsMarked, Meet, Plain, AskedMarked, SameRecords,
        MarkStep;
      ghost var a := anfds;
      StopIo(w);
      MarkSame(a, anfds, eperms, w.fd);
      MarkedAlike(a, anfds, asked, w.fd);
      ghost var b, ep := anfds, eperms;
      FdReify();
      MarkStays(b, ep, anfds, eperms, w.fd);
      NobodyListed(w.fd);
      NoWatchers(map[], MasksOf(ios), 0);
    }

    lemma NobodyListed(fd: nat)
      requires Valid() && started == {} && fd < |anfds|
      ensures anfds[fd].head == []
    {
      hide QueueOk, SyncOk, MasksOf, Good, Plain, Mirror, AskedOk;
      assert HeadOk(anfds[fd], fd, started);
      HasFirst(anfds[fd].head);
    }

    /** A poll that finds nothing, as a watcher for reading of a refused descriptor sees it. */
    method PollIdle(w: Watcher)
      requires Valid() && w in ios && IsMarked(anfds, w.fd) && anfds[w.fd].reify == 0 && w.events == EV_READ
      modifies this`anfds, this`postfork, this`eperms, k, q`pend, q`pendingpri, q.ws`pending
      ensures Valid() && q.Valid() && anfds == old(anfds) && k.files == old(k.files)
      ensures w.fd in eperms <==> w.fd in old(eperms) && Meet(anfds[w.fd].events, 3) != 0
      ensures w.fd in eperms && w in anfds[w.fd].head && Meet(anfds[w.fd].events, EV_READ) != 0 ==>
        Carries(q.OwedNow(), w, Widen(EV_READ))
      ensures w.fd !in old(eperms) ==> SameDebt(old(q.OwedNow()), q.OwedNow(), w)
    {
      hide Interest, Mirror, AskedOk, OwedBy, Good, MasksOf, Meet, Widen, Carries, SameDebt;
      MaskIs(ios, w);
      ReadMeets(anfds[w.fd].events);
      EpollPoll([]);
    }
  }

  lemma HasFirst(head: seq<Watcher>)
    ensures head == [] || exists w :: w in head
  {
    if head != [] { assert head[0] in head; }
  }

  lemma NothingMeets()
    ensures Meet(0, 3) == 0
  {
  }

  lemma ReadMeets(m: bv8)
    ensures Meet(m, EV_READ) != 0 ==> Meet(EV_READ, Meet(m, 3)) == EV_READ && Meet(m, 3) != 0
  {
  }

  lemma ReadOnly()
    ensures Plain(Meet(EV_READ, 0x7f)) && Meet(EV_READ, 0x7f) == EV_READ
    ensures Meet(EV_READ, EV_READ) == EV_READ != 0
  {
  }

  /** A watcher for reading makes the union ask for reading. */
  lemma ReadAsked(head: seq<Watcher>, ms: Masks, w: Watcher)
    requires w in head && w in ms && ms[w] == EV_READ
    ensures Meet(Union(head, ms), EV_READ) != 0 && Union(head, ms) != 0
  {
    ReadOnly();
    UnionAsks(head, ms, EV_READ);
  }

  /** A loop with one watcher for reading from a descriptor that epoll does not support. */
  method UnsupportedLoop(fd: nat) returns (loop: EpollLoop, w: Watcher)
    ensures fresh(loop) && fresh(loop.q) && fresh(loop.k) && fresh(w) && loop.ios == {w}
    ensures loop.Valid() && loop.Unsupported(fd) && w.fd == fd && w.events == EV_READ && fresh(loop.q.ws)
    ensures loop.started == {} && !IsMarked(loop.anfds, fd) && loop.asked == [] && loop.eperms == []
  {
    hide EpollLoop.Valid, PendingQueue.Valid, Kernel.Valid;
    var dummy := new Watcher(0, 0);
    var q := new PendingQueue(dummy);
    var k := new Kernel(true);
    k.Open(fd, false);
    w := new Watcher(0, fd);
    w.events := EV_READ;
    q.Adopt(w);
    loop := new EpollLoop(k, q);
    loop.Adopt(w);
  }

  /** A run that ends with a watcher waiting in vain: it watches a descriptor that epoll does not support and is told
      (`first`), stops for the length of a poll, and watches again; the poll that follows (`before` and after) does not
      tell it. */
  method RefusedRun(fd: nat) returns (loop: EpollLoop, w: Watcher, ghost first: Owed, ghost before: Owed)
    ensures loop.Valid() && loop.Unsupported(fd) && w in loop.started && w.fd == fd && w.events == EV_READ
    ensures loop.fdchanges == [] && fd < |loop.anfds| && loop.anfds[fd].reify == 0 && w in loop.anfds[fd].head
    ensures IsMarked(loop.anfds, fd) && fd !in loop.eperms
    ensures Carries(first, w, Widen(EV_READ)) && SameDebt(before, loop.q.OwedNow(), w)
  {
    hide EpollLoop.Valid, PendingQueue.Valid, Kernel.Valid, Carries, SameDebt, Meet, Widen, IsMarked;
    loop, w := UnsupportedLoop(fd);
    loop.WatchUnsupported(w);
    ReadMeets(loop.anfds[fd].events);
    loop.PollIdle(w);
    first := loop.q.OwedNow();
    loop.UnwatchLast(w);
    NothingMeets();
    loop.PollIdle(w);
    loop.WatchUnsupported(w);
    before := loop.q.OwedNow();
    loop.PollIdle(w);
  }
}
