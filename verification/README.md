# Verified models of nginx structures, libev, GIO and libevwork

Dafny models of the stateful parts of this repository, with proofs. `dafny verify dfyconfig.toml` checks everything.

| files | what they model |
|---|---|
| `RbShape`, `RbHeap`, `RbFixup`, `RbDelete`, `RbDelFix`, `RbOrder`, `RbTree`, `RbClient` | nginx's red-black tree on node objects with parent links and a shared sentinel, its three insertion orders, and the resolver that uses it |
| `Crc32` | the CRC-32 that keys the resolver's tree |
| `Queue` | nginx's circular list, its stable sort and its middle element |
| `Wakeup` | libev's lock-free wakeup handshake between senders and the loop, as interleaved atomic steps |
| `Pending`, `TimerHeap`, `TimerExpiry`, `Timers` | libev's pending stacks and its 4-ary timer heap |
| `EpollState`, `Epoll` | libev's descriptor bookkeeping with the epoll back end, over an abstract kernel |
| `Backends` | libev's poll and select back ends |
| `Exporter` | GIO's action group exporter and a remote mirror that follows it |
| `BufferedOut` | GIO's buffered output stream |
| `Packets` | libevwork's length-framed packets and the connection that accumulates them |

Conventions. Objects the source updates in place are classes whose `Valid` is the representation invariant; each method's
`ensures` ties the new abstract value to the old one. Arrays and lists that the source reallocates are `seq` fields. What
decides between outcomes outside the program is either a parameter or a nondeterministic choice: what a base stream or
the kernel answers, what happens to descriptors between two system calls, what callbacks do. Heap states inside the tree
proofs are captured as maps from nodes to their fields, and positions in the tree as paths to the root.

The tree. `Delete` splices out the node or its successor, with the sentinel's `parent` as scratch, and repairs colours in
a loop over eight cases. The parent link of the root is not reliably maintained by the code and is claimed for other
nodes only. Order is "the in-order sequence is non-decreasing", since rotations put equal keys on either side. The pure
shapes say what a rotation or a recolouring means, and each heap step is shown to carry out the step on shapes.

The wakeup. A poll may leave out the pipe's event when other events fill the receive array. Assumed are sequential consistency, an initialised pipe with room for at least one byte (a full pipe stays
readable), and signals attached to this loop. Any number of callers take part, each at its own place in evpipe_write.

The kernel. One epoll instance of one process without dup and fork. Descriptors may be closed, and opened again as
something else, before every system call; changing an existing entry succeeds; adding may fail for want of memory. In a
quiet kernel nobody else touches descriptors; only what is said of unsupported descriptors assumes one.

Where the code does less than its comments promise, the exact condition is proved:

* epoll_poll drops a refused descriptor that nobody watches from epoll_eperms but leaves it marked as refused in
  `emask`. When it is watched and refused again, epoll_modify takes the mark to mean that it is listed, so its watchers
  are never told. A refused descriptor is listed iff it was listed before or was not marked
  (`Epoll.EpollLoop.RefusedListed`); `Epoll.RefusedRun` is a run that ends with a watcher waiting in vain.
* The wrapping timer comparison is not an order on all keys (`RbOrder.TimerNotTransitive`). It is one on a set of keys
  if and only if they lie in a window of fewer than 2^31 ticks (`RbOrder.TimerCoherentIff`).
* The completeness condition of onData adds header size and length in 32 bits. No buffer makes it read past its end iff
  the packet limit is at least 4 and not the value for "no limit" (`Packets.OverrunIff`). What a stream that does not
  overrun is dispatched as is proved for every limit.
* A non-empty write to a buffered stream without auto-grow fails iff the buffer is full and either has size 0, for which
  `g_malloc (0)` yields null and the base stream's write refuses that, or cannot be put out to the last byte
  (`BufferedOut.BufferedStream.Write`).
* When a peer sends data and closes the connection within one read event, `__onRead` gives the connection up before
  looking at the data (`Packets.ClientConn.OnRead`, outcome Fault).

## Model

| member | source | states |
|---|---|---|
| `RbTree.Tree.constructor` | Rbtree/ngx_rbtree.h:45-49 | the tree starts empty, with a black sentinel as its root |
| `RbTree.InsertValue` | Rbtree/ngx_rbtree.c:93-115 | the new red node hangs at a free position where, by plain key, everything passed on the left is not after it and everything passed on the right is after it |
| `RbTree.InsertTimerValue` | Rbtree/ngx_rbtree.c:118-150 | the same for the signed 32-bit difference of timer keys |
| `RbTree.InsertResolverValue` | Rbtree/test.c:49-87 | the same for (hash, name) pairs |
| `RbTree.Tree.LeftRotate` | Rbtree/ngx_rbtree.c:321-348 | rotating at any position changes the subtree there to its left rotation, with all links right, below the root and above it |
| `RbTree.Tree.RightRotate` | Rbtree/ngx_rbtree.c:352-379 | the mirror image |
| `RbTree.Tree.InsertRecolour` | Rbtree/ngx_rbtree.c:50-54 | the red-uncle case paints three nodes and moves to the grandparent |
| `RbTree.Tree.InsertLeft` | Rbtree/ngx_rbtree.c:47-65 | one turn with the parent on the left keeps the invariant of the loop and climbs |
| `RbTree.Tree.InsertRight` | Rbtree/ngx_rbtree.c:67-86 | one turn with the parent on the right, likewise |
| `RbTree.Tree.InsertFixup` | Rbtree/ngx_rbtree.c:43-89 | the loop ends in a red-black tree with the same nodes in the same order |
| `RbTree.Tree.Insert` | Rbtree/ngx_rbtree.c:21-90 | inserting keeps a valid red-black tree and adds exactly the node; in a sorted tree it comes right after everything that is not after it, so equal keys keep insertion order |
| `RbTree.Min` | Rbtree/ngx_rbtree.h:72-80 | the loop ends at the leftmost node below its start |
| `RbTree.Tree.FindSubst` | Rbtree/ngx_rbtree.c:164-180 | the node taken out is the deleted one, or the successor below its right child, and has at most one child |
| `RbTree.Tree.Unlink` | Rbtree/ngx_rbtree.c:197-215 | the only child of the node taken out takes its place |
| `RbTree.Tree.Replace` | Rbtree/ngx_rbtree.c:217-240 | the successor takes over place, colour and children of the deleted node |
| `RbTree.Tree.DropRoot` | Rbtree/ngx_rbtree.c:182-193 | taking out the root leaves its only child, painted black, or the empty tree |
| `RbTree.Tree.DeleteRedLeft` | Rbtree/ngx_rbtree.c:259-264 | a red sibling is rotated away, and the new sibling is black |
| `RbTree.Tree.DeleteNearLeft` | Rbtree/ngx_rbtree.c:271-276 | a red near nephew is rotated to the far side |
| `RbTree.Tree.DeleteRotateLeft` | Rbtree/ngx_rbtree.c:271-282 | a sibling with a red child ends the loop at the root |
| `RbTree.Tree.DeleteLeft` | Rbtree/ngx_rbtree.c:256-283 | one turn of the deletion loop keeps its invariant and makes progress; the sibling is never the sentinel |
| `RbTree.Tree.DeleteRight` | Rbtree/ngx_rbtree.c:285-313 | the mirror image |
| `RbTree.Tree.DeleteFixup` | Rbtree/ngx_rbtree.c:254-316 | the loop terminates and leaves a valid red-black tree with the same nodes in the same order |
| `RbTree.Tree.Repair` | Rbtree/ngx_rbtree.c:248-316 | with a red node taken out nothing is left to repair, otherwise the loop repairs it |
| `RbTree.Tree.Sibling` | Rbtree/ngx_rbtree.c:256-292 | what the deletion loop reads as the sibling is a real node, with the children and colours the shape says |
| `RbTree.Tree.Delete` | Rbtree/ngx_rbtree.c:153-317 | deleting any node keeps a valid red-black tree, removes exactly that node from the in-order sequence, keeps a sorted tree sorted, and wipes the node |
| `RbFixup.InsInner` | Rbtree/ngx_rbtree.c:57-60 | rotating an inner grandchild outward keeps the loop's invariant |
| `RbFixup.InsOuter` | Rbtree/ngx_rbtree.c:62-64 | the final recolouring and rotation removes the red-red pair and keeps black heights |
| `RbDelFix.DelRed` | Rbtree/ngx_rbtree.c:259-264 | red sibling: colours and black heights after the rotation |
| `RbDelFix.DelBoth` | Rbtree/ngx_rbtree.c:266-268 | two black nephews: the missing black moves up |
| `RbDelFix.DelNear` | Rbtree/ngx_rbtree.c:271-276 | red near nephew: colours and black heights after the rotation |
| `RbDelFix.DelFar` | Rbtree/ngx_rbtree.c:278-282 | red far nephew: the missing black is made up for |
| `RbDelete.SuccessorOrder` | Rbtree/ngx_rbtree.c:172-231 | putting the successor in the deleted node's place removes exactly that node from the order |
| `RbShape.HeightBound` | Rbtree/ngx_rbtree.c:21-90 | a red-black tree of n nodes has height at most 2 log2(n + 1) |
| `RbClient.TreeHeight` | Rbtree/ngx_rbtree.c:21-90 | the same for any tree object |
| `RbOrder.Memn2CmpIsLex` | Rbtree/test.c:26-47 | ngx_memn2cmp is the dictionary order on byte strings |
| `RbOrder.PlainCoherent` | Rbtree/ngx_rbtree.c:93-115 | comparing plain keys is a strict weak order on any keys |
| `RbOrder.ResolverCoherent` | Rbtree/test.c:49-87 | the (hash, name) comparison is a strict weak order on any keys |
| `RbOrder.TimerIsUnwrapped` | Rbtree/ngx_rbtree.c:118-141 | inside a window of 2^31 ticks the wrapping comparison compares unwrapped times, also through 0 |
| `RbOrder.TimerCoherent` | Rbtree/ngx_rbtree.c:118-141 | so it is a strict weak order there |
| `RbOrder.TimerCoherentIff` | Rbtree/ngx_rbtree.c:118-141 | it is one on a set of keys if and only if some window holds them all |
| `RbOrder.TimerNotTransitive` | Rbtree/ngx_rbtree.c:118-141 | three keys in no window, on which it is not even transitive |
| `RbClient.LookupStep` | Rbtree/test.c:114-137 | a lookup step never leaves the side on which a wanted record can be, whatever rotations have done to equal keys |
| `RbClient.Lookup` | Rbtree/test.c:104-142 | the lookup finds a record with the name and hash iff the tree holds one |
| `RbClient.InsertName` | Rbtree/test.c:95-102 | a new record, filed under the CRC-32 of its name, is in the tree afterwards, which stays sorted with every record under its hash |
| `RbClient.FindName` | Rbtree/test.c:158-171 | a lookup under the CRC-32 of a name finds a record of that name iff the tree holds one |
| `RbClient.EarliestTimer` | Rbtree/ngx_rbtree.h:72-80 | with all live keys in one window ngx_rbtree_min returns the earliest deadline |
| `RbClient.InsertTimer` | Rbtree/ngx_rbtree.c:118-150 | inserting inside the window keeps the sequence sorted by unwrapped time |
| `RbClient.Deinit` | Rbtree/test.c:144-156 | tearing down terminates with an empty tree, taking the nodes out in sorted order |
| `Wakeup.RunKeeps` | libev-4.15/ev.c:2002-2048 | every state of every interleaving of senders and loop satisfies the protocol's invariant |
| `Wakeup.StepKeeps` | libev-4.15/ev.c:2052-2111 | each atomic step of a sender, of pipecb and of the loop keeps it |
| `Wakeup.BlockedLoopIsWoken` | libev-4.15/ev.c:3082-3140 | whenever the loop is blocked and a flag is set, the pipe is readable or a sender is about to write |
| `Wakeup.NoLostWakeup` | libev-4.15/ev.c:3082-3140 | blocked on an empty pipe with no sender in mid-call, no flag, no signal and no started watcher's mark is outstanding |
| `Wakeup.EverySendIsFed` | libev-4.15/ev.c:4356-4361 | a send to a watcher that stays started has been followed by its event by then |
| `Wakeup.MarkCleared` | libev-4.15/ev.c:2103-2109 | a sent mark disappears only by feeding the watcher or restarting it |
| `Pending.PendingQueue.FeedEvent` | libev-4.15/ev.c:1617-1634 | the watcher is owed one call with the union of the events fed, and its back-index names the slot |
| `Pending.PendingQueue.ClearPending` | libev-4.15/ev.c:3242-3268 | the watcher is owed nothing any more, and the events it was owed are returned |
| `Pending.PendingQueue.RunCallback` | libev-4.15/ev.c:2757-2775 | whatever a callback feeds and clears, the stacks stay consistent and pendingpri is raised when it has to be |
| `Pending.PendingQueue.InvokeTop` | libev-4.15/ev.c:2766-2773 | one call is for a watcher of the most urgent non-empty stack, with exactly the events it is owed |
| `Pending.PendingQueue.InvokePending` | libev-4.15/ev.c:2757-2775 | terminates for any finite script of callbacks; every call is right when it is made, in the end nothing is owed; whoever the callbacks leave alone gets exactly one call with the events owed, most urgent first and per priority last in, first out |
| `Pending.PushGood` | libev-4.15/ev.c:1624-1630 | a push keeps every back-index naming the one slot of its watcher |
| `Pending.PutGood` | libev-4.15/ev.c:3244-3251 | overwriting a slot with more events or with the dummy, likewise |
| `Pending.PopGood` | libev-4.15/ev.c:2766-2770 | a pop, likewise |
| `Pending.TopIsRight` | libev-4.15/ev.c:2757-2775 | the top of the most urgent stack is owed what its slot says, and nobody owed is more urgent |
| `Pending.FeedAnswered` | libev-4.15/ev.c:1617-1634 | in any legal history that ends with the watcher owed nothing, each feed is answered by exactly one next call, carrying its events, or by a clear |
| `TimerHeap.HParentIs` | libev-4.15/ev.c:1844-1847 | with truncating division the root is its own parent and every other entry's parent is before it |
| `TimerHeap.SwapKeeps` | libev-4.15/ev.c:1850-1918 | exchanging two entries and their back-indices keeps them naming each other |
| `TimerHeap.UpStep` | libev-4.15/ev.c:1899-1918 | one step up leaves only the moved entry in doubt |
| `TimerHeap.DownStep` | libev-4.15/ev.c:1851-1894 | one step down leaves only the moved entry in doubt |
| `TimerHeap.FirstIsEarliest` | libev-4.15/ev.c:2609-2622 | in a heap the first entry is the earliest |
| `Timers.TimerLoop.UpHeap` | libev-4.15/ev.c:1899-1918 | upheap restores the order, and every started timer knows its index |
| `Timers.TimerLoop.MinChild` | libev-4.15/ev.c:1862-1878 | both search paths of downheap find the earliest child |
| `Timers.TimerLoop.DownHeap` | libev-4.15/ev.c:1851-1894 | downheap restores the order, and every started timer knows its index |
| `Timers.TimerLoop.AdjustHeap` | libev-4.15/ev.c:1922-1928 | adjustheap does, after any change of one entry |
| `Timers.TimerLoop.Reheap` | libev-4.15/ev.c:1930-1940 | reheap puts entries in any order in heap order, and every started timer knows its index |
| `Timers.TimerLoop.TimerStart` | libev-4.15/ev.c:3349-3371 | the heap stays valid and holds exactly one more started timer, at its relative time from now; a started timer is left alone |
| `Timers.TimerLoop.TimerStop` | libev-4.15/ev.c:3373-3402 | the heap stays valid without the timer, which is owed nothing and keeps its remaining time |
| `Timers.TimerLoop.TimerAgain` | libev-4.15/ev.c:3405-3430 | a repeating timer runs from now, another is stopped; the heap stays valid and the timer is owed nothing |
| `Timers.TimerLoop.HeadIsEarliest` | libev-4.15/ev.c:2609-2622 | entry HEAP0 is the earliest of exactly the started timers |
| `Timers.TimerLoop.FeedReverseDone` | libev-4.15/ev.c:1643-1649 | each collected watcher is fed once, the last first, so earlier ones end up nearer the top of their stack |
| `Timers.TimerLoop.TakeDue` | libev-4.15/ev.c:2806-2833 | the loop terminates and takes exactly the timers with at < mn_now, repeating ones once, earliest first |
| `Timers.TimerLoop.TimersReify` | libev-4.15/ev.c:2801-2838 | each timer that had run out is fed exactly once and no other; repeating ones go on at max(at + repeat, now), others stop; nothing due is left |
| `Timers.TimerLoop.CallTimers` | libev-4.15/ev.c:2757-2838 | followed by ev_invoke_pending under any callbacks, every expired timer they neither feed nor clear is called, once, and those of one priority that were not pending are called in non-decreasing expiry order |
| `TimerExpiry.FeedDownIs` | libev-4.15/ev.c:1643-1649 | feeding different watchers from the end adds the event to each of them once |
| `TimerExpiry.LifoTopDown` | libev-4.15/ev.c:2757-2775 | emptying the stacks calls every pending watcher once, by priority and then from the top |
| `TimerExpiry.ExpiryOrder` | libev-4.15/ev.c:2801-2838 | reversed feeding and calling from the top of the stacks down compose to expiry order |
| `EpollState.UnionAsks` | libev-4.15/ev.c:1713-1719 | the recorded events ask for something iff some watcher of the descriptor does |
| `Epoll.EpollLoop.FdChange` | libev-4.15/ev.c:1733-1747 | a descriptor is in the change list exactly once iff it is marked |
| `Epoll.EpollLoop.ListDel` | libev-4.15/ev.c:3227-3240 | wlist_del takes the watcher out of its list |
| `Epoll.EpollLoop.IoStart` | libev-4.15/ev.c:3302-3326 | the watcher is on its descriptor's list, which is marked and listed, with the marker bit of a changed descriptor passed on; everything stays consistent |
| `Epoll.EpollLoop.IoStop` | libev-4.15/ev.c:3328-3347 | the watcher is on no list and owed nothing, its descriptor is marked; also in the middle of fd_reify |
| `Epoll.EpollLoop.FdKill` | libev-4.15/ev.c:1750-1760 | every watcher of the descriptor is stopped and owed exactly the error, read and write events |
| `EpollState.AfterKillIs` | libev-4.15/ev.c:1750-1760 | and nobody else's debts change |
| `Epoll.EpollLoop.ReifyNext` | libev-4.15/ev.c:1704-1727 | one descriptor is brought up to date; the back end is asked iff the events changed or the descriptor may have |
| `Epoll.EpollLoop.FdReify` | libev-4.15/ev.c:1696-1731 | terminates although killing appends to the list it walks; ends with the list empty, no mark set, and every descriptor's events equal to the union of its watchers' and to what the back end was last asked for; one that epoll does not support keeps its watchers, is marked when asked for, and is newly listed iff it is newly marked |
| `Epoll.Kernel.Ctl` | libev-4.15/ev_epoll.c:94-131 | the kernel's side: the answers of epoll_ctl that the code distinguishes |
| `Epoll.EpollLoop.Negotiate` | libev-4.15/ev_epoll.c:94-131 | after MOD or ADD and the retry the other way, the kernel has the new entry, or has kept an old one with the same mask, or has none |
| `Epoll.EpollLoop.EpollModify` | libev-4.15/ev_epoll.c:70-141 | every kernel entry still carries the recorded mask and generation; a modification that neither kills nor is refused leaves an entry with the new mask; installed generations strictly increase; a killed descriptor has no entry |
| `Epoll.EpollLoop.Elapse` | libev-4.15/ev_epoll.c:43-62 | descriptors closed and reopened behind the loop's back leave it consistent |
| `EpollState.StampPasses` | libev-4.15/ev_epoll.c:181-186 | an event's stamp passes the generation check iff a multiple of 2^32 generations have passed since its registration |
| `EpollState.SupersededDiscarded` | libev-4.15/ev_epoll.c:174-186 | so the stamp of a superseded registration fewer than 2^32 generations old differs from the present one |
| `Epoll.EpollLoop.Narrow` | libev-4.15/ev_epoll.c:188-214 | taking back unwanted interest leaves the entry with the wanted mask under the same generation, or none |
| `Epoll.EpollLoop.FdEvent` | libev-4.15/ev.c:1677-1686 | watchers are told of the events they asked for, unless the descriptor is waiting to be reified |
| `EpollState.AfterFeedIs` | libev-4.15/ev.c:1662-1675 | a watcher is told of exactly those events it asked for, and nobody else of anything |
| `Epoll.EpollLoop.HandleEvent` | libev-4.15/ev_epoll.c:166-215 | an event with another stamp changes nothing but asks for the kernel state to be rebuilt; another is passed on, after narrowing |
| `Epoll.EpollLoop.SynthesizeEperms` | libev-4.15/ev_epoll.c:225-235 | of the refused descriptors exactly the watched ones stay listed, and all their watchers are told |
| `Epoll.EpollLoop.EpollPoll` | libev-4.15/ev_epoll.c:144-236 | for any events the kernel reports: a wanted event of the present registration reaches every watcher that asked for it; a watcher without a current event and without a refused descriptor is told of nothing, in particular if all its events are of registrations superseded fewer than 2^32 generations ago |
| `Epoll.EpollLoop.RefusedListed` | libev-4.15/ev_epoll.c:118-131 | a refused descriptor is listed in epoll_eperms iff it was listed before or not marked as refused before |
| `Epoll.EpollLoop.RefusedForgotten` | libev-4.15/ev_epoll.c:225-235 | so one that nobody watched at a poll is not listed when it is watched and refused again, as it is if epoll does not support it |
| `Epoll.RefusedRun` | libev-4.15/ev_epoll.c:118-236 | a run from an empty loop: watching, polling, stopping, polling and watching again leaves the watcher started, its descriptor marked but not listed, and the next poll silent |
| `Backends.ModifiedAt` | libev-4.15/ev.c:1698-1731 | a caller that knows the present mask always gets the new one in its place |
| `Backends.PollSet.Modify` | libev-4.15/ev_poll.c:51-86 | polls and pollidxs stay inverse to each other and list exactly the descriptors with a mask, with their events |
| `Backends.DropPoll` | libev-4.15/ev_poll.c:75-85 | moving the last entry into the gap keeps them inverse |
| `Backends.PollScan` | libev-4.15/ev_poll.c:107-126 | every entry the kernel has marked is handled once, in order, and the scan stops within the array |
| `Backends.PutBitIs` | libev-4.15/ev_select.c:129-135 | the assignments to a word change the one bit to what is asked and no other, for words of 32 and of 64 bits |
| `Backends.SelectSet.Grow` | libev-4.15/ev_select.c:111-127 | growing the vectors changes no membership |
| `Backends.SelectSet.Modify` | libev-4.15/ev_select.c:70-138 | the two vectors have exactly the bits of the map set, across growth |
| `Backends.SelectSet.Scan` | libev-4.15/ev_select.c:249-272 | every descriptor with a result bit is reported once, with exactly its events, from the highest down |
| `Backends.SameInterest` | libev-4.15/ev_select.c:108-135 | for one map both representations hold the same descriptors with the same events |
| `Backends.RunBoth` | libev-4.15/ev_poll.c:51-86 | after any sequence of modifications both back ends stand for the same map |
| `Exporter.ActionGroupExporter.SetEvents` | glib-2.56.1/gio/gactiongroupexporter.c:229-262 | the mask is recorded or removed, and the source is queued iff something waits |
| `Exporter.ActionGroupExporter.OnActionAdded` | glib-2.56.1/gio/gactiongroupexporter.c:264-283 | the handler's mask, its assertion included |
| `Exporter.ActionGroupExporter.OnActionRemoved` | glib-2.56.1/gio/gactiongroupexporter.c:285-316 | a queued addition is cancelled, otherwise a removal replaces pending changes; the handler's assertion holds, and so does what it is meant to say |
| `Exporter.ActionGroupExporter.OnStateChanged` | glib-2.56.1/gio/gactiongroupexporter.c:318-343 | the handler's mask, its assertion included |
| `Exporter.ActionGroupExporter.OnEnabledChanged` | glib-2.56.1/gio/gactiongroupexporter.c:345-364 | the handler's mask, its assertion included |
| `Exporter.CoalesceAccounts` | glib-2.56.1/gio/gactiongroupexporter.c:264-364 | after any legal signal the name's mask again accounts for what the mirror lacks |
| `Exporter.Reachable` | glib-2.56.1/gio/gactiongroupexporter.c:161-166 | only six masks ever wait, so the assertion of the dispatcher holds |
| `Exporter.ActionGroupExporter.Handle` | glib-2.56.1/gio/gactiongroupexporter.c:264-364 | every legal signal leaves the queue accounting for the difference between mirror and group |
| `Exporter.Converges` | glib-2.56.1/gio/gactiongroupexporter.c:139-209 | a signal built from all that waits takes the mirror to the group |
| `Exporter.ActionGroupExporter.DispatchEvents` | glib-2.56.1/gio/gactiongroupexporter.c:139-209 | one signal is sent, after which the mirror equals the group, nothing waits and no source is queued |
| `Exporter.ActionGroupExporter.FlushQueue` | glib-2.56.1/gio/gactiongroupexporter.c:211-220 | after a flush the mirror equals the group, with a signal only if one was due |
| `Exporter.Run` | glib-2.56.1/gio/gactiongroupexporter.c:534-587 | from export on, for every legal sequence of signals, idle turns and method calls, applying all Changed signals gives the group |
| `Crc32.PolynomialIs` | Rbtree/ngx_crc32.c:26-99 | the constant is the polynomial of section 5.5 of the W3C PNG specification, lowest power first |
| `Crc32.StepLinear` | Rbtree/ngx_crc32.h:17-47 | a step of the bitwise register is linear |
| `Crc32.Table16Is` | Rbtree/ngx_crc32.c:26-31 | entry i of the small table is what four bitwise steps make of i |
| `Crc32.Table256Is` | Rbtree/ngx_crc32.c:34-99 | entry i of the big table is what eight bitwise steps make of i |
| `Crc32.ByteIs` | Rbtree/ngx_crc32.h:36-47 | one table step on a byte is feeding its eight bits, lowest first |
| `Crc32.NibblesIs` | Rbtree/ngx_crc32.h:25-29 | two steps of the small table are feeding the same eight bits |
| `Crc32.FeedAdd` | Rbtree/ngx_crc32.h:54-66 | feeding two pieces is feeding them joined |
| `Crc32.CrcLong` | Rbtree/ngx_crc32.h:35-47 | the byte-table routine computes the bitwise CRC-32 of every input |
| `Crc32.ShortTable.CrcShort` | Rbtree/ngx_crc32.h:17-32 | the nibble-table routine computes the same |
| `Crc32.ShortTable.TableInit` | Rbtree/ngx_crc32.c:105-120 | the copied table has the same contents; without memory the old one stays |
| `Crc32.Running.Update` | Rbtree/ngx_crc32.h:54-66 | an update feeds its bytes to the running value |
| `Crc32.CrcPieces` | Rbtree/ngx_crc32.h:50-70 | init, an update per piece, and final give the CRC of the joined pieces, however the input is cut |
| `Queue.Link.constructor` | Queue/ngx_queue.h:26-28 | an initialised queue is an empty ring |
| `Queue.InsertAfter` | Queue/ngx_queue.h:37-44 | the ring has the new member right after the given one |
| `Queue.InsertTail` | Queue/ngx_queue.h:48-52 | the ring has the new member at its end |
| `Queue.Remove` | Queue/ngx_queue.h:91-93 | the ring has lost exactly that member |
| `Queue.Split` | Queue/ngx_queue.h:99-105 | two rings: what was before the member, and the member with what follows |
| `Queue.Append` | Queue/ngx_queue.h:109-113 | one ring with the members of both, also when one of them is empty |
| `Queue.Middle` | Queue/ngx_queue.c:20-49 | the member at index floor(n / 2) of a queue of n |
| `Queue.Seek` | Queue/ngx_queue.c:76-83 | the inner loop stops behind the last member of the sorted part that is not greater |
| `Queue.InsertStable` | Queue/ngx_queue.c:69-86 | inserting there keeps the part sorted and stable |
| `Queue.Sort` | Queue/ngx_queue.c:57-87 | the result is a well-formed ring with the same members, stably sorted for every total preorder |
| `Queue.StableUnique` | Queue/ngx_queue.c:52-87 | there is only one stable sorted arrangement, so the sort computes it |
| `Packets.XorTwice` | libevwork_using/JsonPacket.cpp:65-75 | the codec undoes itself |
| `Packets.XorFunc` | libevwork_using/JsonPacket.cpp:65-75 | the loop in place computes it |
| `Packets.Jpacket.End` | libevwork_using/JsonPacket.cpp:26-43 | the packet is the encoding of the text, and its header reads back as the length |
| `Packets.Jpacket.Parse` | libevwork_using/JsonPacket.cpp:45-63 | the decoded text, accepted iff the reader accepts it |
| `Packets.PeekHeader` | libevwork_using/JsonPacket.cpp:38-41 | a written header reads back |
| `Packets.JsonData.OnData` | libevwork_using/JsonData.cpp:27-84 | one call dispatches the complete packets at the head of the buffer in order, returns the bytes used or -1 at the first rejected packet, and keeps the two counters with their wrap-around |
| `Packets.OverrunIff` | libevwork_using/JsonData.cpp:43-57 | some buffer makes onData read past its end iff the limit is below 4 or is the value for no limit |
| `Packets.ProcessAppend` | libevwork_using/JsonData.cpp:27-84 | under every limit a stream taken in two parts, keeping the rest of the first, is processed as one; a rejection or overrun stays where it is |
| `Packets.RoundTrip` | libevwork_using/JsonPacket.cpp:26-63 | encoded texts one after the other come out as the same texts, with nothing left over |
| `Packets.ClientConn.Receive` | libevwork_using/ClientConn.cpp:298-332 | the reading loop buffers everything available, unless the cap or a fault ends the connection |
| `Packets.ClientConn.OnRead` | libevwork_using/ClientConn.cpp:293-355 | what has been dispatched and what is buffered is what processing the whole stream so far gives |
| `Packets.ClientConn.Deliver` | libevwork_using/ClientConn.cpp:293-355 | under every limit, for a stream that does not overrun and every chunking that stays under the cap, the same packets are dispatched as by one onData over the whole stream, and the connection is closed iff that rejects |
| `Packets.SendAndReceive` | libevwork_using/ClientConn.cpp:293-355 | under every limit encoded texts it lets pass, in any chunking, are dispatched as they were, in order |
| `BufferedOut.BaseStream.WriteAll` | glib-2.56.1/gio/goutputstream.c:264-300 | what is reported as written has reached the stream, also on failure |
| `BufferedOut.BufferedStream.SetBufferSize` | glib-2.56.1/gio/gbufferedoutputstream.c:195-228 | resizing keeps every buffered byte and never goes below them |
| `BufferedOut.BufferedStream.FlushBuffer` | glib-2.56.1/gio/gbufferedoutputstream.c:405-437 | what the base stream took leaves the buffer and the rest stays in order, whether or not it failed |
| `BufferedOut.BufferedStream.Write` | glib-2.56.1/gio/gbufferedoutputstream.c:439-477 | no byte is lost or doubled; a non-empty write takes a byte or fails; with auto-grow it takes all and leaves the base stream alone; without, it fails iff the buffer is full and of size 0 or not put out to the last byte |
| `BufferedOut.BufferedStream.Flush` | glib-2.56.1/gio/gbufferedoutputstream.c:479-499 | it succeeds iff there is a buffer, it has been put out and the base stream flushes; then everything is in the base stream |
| `BufferedOut.BufferedStream.Tell` | glib-2.56.1/gio/gbufferedoutputstream.c:526-546 | the offset is where the base stream was opened plus all bytes accepted so far |
| `BufferedOut.Run` | glib-2.56.1/gio/gbufferedoutputstream.c:195-546 | over any sequence of operations base contents followed by the buffer are the bytes accepted, in order |

## Left out

- System calls, sockets, inotify, signalfd, fork and child handling, and the rounding of floating-point time; the kernel is an abstract table, a byte count and nondeterministic answers, and times are reals.
- Weak memory: the fences of the wakeup handshake are taken to give sequential consistency.
- libev's periodic watchers (`reheap`, which only they use, is proved on the timer heap), idle, prepare, check and stat watchers, the kqueue, port and Windows back ends, and the clock-jump handling of time_update.
- Recursive calls of ev_run and ev_invoke_pending from callbacks, and changing a watcher while it is active or pending.
- Priorities outside EV_MINPRI to EV_MAXPRI, which pri_adjust clamps when a watcher starts.
- Attaching a signal to another loop, and stopping the pipe watcher while signals are in use.
- `libevwork_full/Buffer.h`: its erase adds the size again when it compacts, so it is not the queue its users take it for.
- `SList/list.h` and the second packet class of libevwork, which would repeat easier proofs.
- JSON parsing (a predicate on the text), GObject, D-Bus and GVariant (the receiver is "removals, then changes, then additions"), sending on connections and their timers, and seeking, truncating, closing and the asynchronous operations of the buffered stream.
- Branches that are never taken: the fourth comparison on the slow path of downheap, the left-child case of the node taken out by ngx_rbtree_delete, and the second test for a zero mask in epoll_modify.
- The 128-byte truncation of names in Rbtree/test.c; a record's name is fixed when it is made.
- The generic fd_set variant of the select back end.
- Packets.ClientConn.Deliver: what happens after onData has read past the end of its buffer is not modelled; `Packets.OverrunIff` says under which limits a stream can make it do so.
- Timers.TimerLoop.CallTimers: a callback that stops a timer appears as its clearing; what starting and stopping do to the heap is stated by TimerStart, TimerStop and TimerAgain.
- Packets.ClientConn.OnRead: a connection without a data handler, which discards its input, is not modelled.
- Backends.SelectSet.Grow: does not model a failing reallocation, which ends the process in libev.
- BufferedOut.BaseStream.WriteAll: takes from the documentation of g_output_stream_write that a write of at least one byte that does not fail puts out at least one.
- Epoll.EpollLoop.EpollModify: age counters are unbounded ghosts beside the 32-bit `egen`; dup and fork, which give one open file several entries, are not modelled.
- Epoll.EpollLoop.FdReify: that the kernel's entry is still there afterwards is not claimed, since descriptors may be closed at any time; `Epoll.EpollLoop.ReifyNext` says what holds after each request.
- Wakeup.NoLostWakeup: the pipe is assumed to be initialised before the first send.
