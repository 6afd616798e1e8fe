/** The lock-free wakeup handshake of libev-4.15/ev.c: evpipe_write, pipecb and the polling part of ev_run,
    as atomic steps that any number of callers and the loop take in any order. */
module Wakeup {

  type Tid = nat     // a caller of ev_async_send or ev_feed_signal
  type Watcher = nat // an ev_async watcher
  type Signal = nat

  datatype Flag = SigFlag | AsyncFlag

  /** Where a caller stands inside evpipe_write. */
  datatype Caller =
    | Check(flag: Flag)        // about to test *flag
    | SetFlag(flag: Flag)      // *flag was 0, about to set it
    | SetSkipped               // about to set pipe_write_skipped
    | ReadWanted               // about to read pipe_write_wanted
    | ClearSkipped             // it was set: about to clear pipe_write_skipped
    | DoWrite                  // about to write to the pipe
    | Done

  /** Where the loop stands. */
  datatype LoopPc =
    | Run                      // outside poll: callbacks run, watchers are started and stopped
    | Starting(w: Watcher)     // ev_async_start has cleared w->sent but not yet entered w in asyncs
    | WantSet                  // pipe_write_wanted is set, about to read pipe_write_skipped
    | Poll(block: bool)        // in backend_poll
    | Polled                   // back from poll, about to clear pipe_write_wanted
    | Unwanted                 // about to read pipe_write_skipped
    | CbStart(read: bool)      // pipecb: about to read the pipe if `read`
    | CbSkipped                // about to clear pipe_write_skipped
    | CbSig                    // about to test sig_pending
    | CbSigClear               // it was 1: about to clear it
    | CbSigScan(i: nat)        // signals below i are still to be tested
    | CbAsync                  // about to test async_pending
    | CbAsyncClear
    | CbAsyncScan(i: nat)      // asyncs below i are still to be tested
    | CbAsyncTake(i: nat)      // asyncs[i] was seen sent, about to clear and feed it

  datatype Config = Config(eventfd: bool, capacity: nat, nsig: nat)

  /** sig_pending, async_pending, pipe_write_skipped, pipe_write_wanted, bytes in the pipe. */
  datatype Shared = Shared(sig: bool, async: bool, skipped: bool, wanted: bool, pipe: nat)

  /** signals[].pending, ev_async.sent, and what has been fed so far. */
  datatype Marks = Marks(sigs: set<Signal>, sent: set<Watcher>, fedAsync: seq<Watcher>, fedSig: seq<Signal>)

  /** The loop's own state: the started ev_async watchers and the pending events of pipe_w. */
  datatype LoopState = LoopState(pc: LoopPc, asyncs: seq<Watcher>, pipeRead: bool, pipeCustom: bool)

  datatype State = State(sh: Shared, marks: Marks, lp: LoopState, callers: map<Tid, Caller>)

  datatype Step =
    | Send(t: Tid, w: Watcher)            // ev_async_send marks the watcher
    | Raise(t: Tid, sg: Signal)           // ev_feed_signal marks the signal
    | Advance(t: Tid)                     // the caller's next atomic step in evpipe_write
    // the loop's next atomic step; `nowait`: poll has another reason not to block, or to return; `full`: the events it
    // reports leave no place for the pipe's
    | Loop(nowait: bool, full: bool)
    | Invoke                              // EV_INVOKE_PENDING calls pipecb
    | StartAsync(w: Watcher) | StopAsync(i: nat)

  predicate IsSet(sh: Shared, f: Flag) { if f.SigFlag? then sh.sig else sh.async }

  predicate CbPending(lp: LoopState) { lp.pipeRead || lp.pipeCustom }

  predicate Enabled(cf: Config, s: State, st: Step) {
    match st
    case Send(t, _) => t !in s.callers
    case Raise(t, sg) => t !in s.callers && sg < cf.nsig
    case Advance(t) => t in s.callers
    case Loop(nowait, full) => LoopEnabled(s.sh, s.lp, nowait, full)
    case Invoke => s.lp.pc.Run? && CbPending(s.lp)
    case StartAsync(w) => s.lp.pc.Run? && w !in s.lp.asyncs
    case StopAsync(i) => s.lp.pc.Run? && i < |s.lp.asyncs|
  }

  /** The next poll comes only after all pending events were invoked; a blocking poll returns only for a reason. */
  predicate LoopEnabled(sh: Shared, lp: LoopState, nowait: bool, full: bool) {
    && (lp.pc.Run? ==> !CbPending(lp))
    && (lp.pc.Poll? && lp.pc.block ==> nowait || (sh.pipe > 0 && !full))
  }

  /** evpipe_write, one step: what the caller does to the shared variables, and where it goes next. */
  function Write(cf: Config, sh: Shared, c: Caller): Shared {
    match c
    case SetFlag(f) => if f.SigFlag? then sh.(sig := true) else sh.(async := true)
    case SetSkipped => sh.(skipped := true)
    case ClearSkipped => sh.(skipped := false)
    case DoWrite => sh.(pipe := if sh.pipe < cf.capacity then sh.pipe + 1 else sh.pipe)
    case _ => sh
  }

  function Next(sh: Shared, c: Caller): Caller {
    match c
    case Check(f) => if IsSet(sh, f) then Done else SetFlag(f)
    case SetFlag(_) => SetSkipped
    case SetSkipped => ReadWanted
    case ReadWanted => if sh.wanted then ClearSkipped else Done
    case ClearSkipped => DoWrite
    case _ => Done
  }

  function Moved(cs: map<Tid, Caller>, t: Tid, c: Caller): map<Tid, Caller> {
    if c.Done? then cs - {t} else cs[t := c]
  }

  /** What pipecb leaves in the pipe: up to four bytes are read from it, or the counter of an eventfd is. */
  function Drained(cf: Config, pipe: nat): nat {
    if cf.eventfd || pipe <= 4 then 0 else pipe - 4
  }

  /** The loop's next step: on the shared variables, */
  function LoopShared(cf: Config, sh: Shared, pc: LoopPc): Shared {
    match pc
    case Run => sh.(wanted := true)
    case Polled => sh.(wanted := false)
    case CbStart(read) => if read then sh.(pipe := Drained(cf, sh.pipe)) else sh
    case CbSkipped => sh.(skipped := false)
    case CbSigClear => sh.(sig := false)
    case CbAsyncClear => sh.(async := false)
    case _ => sh
  }

  /** on its own state, */
  function LoopNext(cf: Config, sh: Shared, m: Marks, lp: LoopState, nowait: bool, full: bool): LoopState {
    match lp.pc
    case Run => lp.(pc := WantSet)
    case Starting(w) => lp.(asyncs := lp.asyncs + [w], pc := Run)
    case WantSet => lp.(pc := Poll(!nowait && !sh.skipped))
    case Poll(_) => lp.(pipeRead := lp.pipeRead || (sh.pipe > 0 && !full), pc := Polled)
    case Polled => lp.(pc := Unwanted)
    case Unwanted => lp.(pipeCustom := lp.pipeCustom || sh.skipped, pc := Run)
    case CbStart(_) => lp.(pc := CbSkipped)
    case CbSkipped => lp.(pc := CbSig)
    case CbSig => lp.(pc := if sh.sig then CbSigClear else CbAsync)
    case CbSigClear => lp.(pc := CbSigScan(cf.nsig))
    case CbSigScan(i) => lp.(pc := if i == 0 then CbAsync else CbSigScan(i - 1))
    case CbAsync => lp.(pc := if sh.async then CbAsyncClear else Run)
    case CbAsyncClear => lp.(pc := CbAsyncScan(|lp.asyncs|))
    case CbAsyncScan(i) =>
      lp.(pc := if i == 0 then Run
                else if i <= |lp.asyncs| && lp.asyncs[i - 1] in m.sent then CbAsyncTake(i - 1)
                else CbAsyncScan(i - 1))
    case CbAsyncTake(i) => lp.(pc := CbAsyncScan(i))
  }

  /** and on the marks. */
  function LoopMarks(m: Marks, lp: LoopState): Marks {
    match lp.pc
    case CbSigScan(i) =>
      if i > 0 && i - 1 in m.sigs then m.(sigs := m.sigs - {i - 1}, fedSig := m.fedSig + [i - 1]) else m
    case CbAsyncTake(i) =>
      if i < |lp.asyncs| then m.(sent := m.sent - {lp.asyncs[i]}, fedAsync := m.fedAsync + [lp.asyncs[i]]) else m
    case _ => m
  }

  function Apply(cf: Config, s: State, st: Step): State
    requires Enabled(cf, s, st)
  {
    match st
    case Send(t, w) => s.(marks := s.marks.(sent := s.marks.sent + {w}), callers := s.callers[t := Check(AsyncFlag)])
    case Raise(t, sg) => s.(marks := s.marks.(sigs := s.marks.sigs + {sg}), callers := s.callers[t := Check(SigFlag)])
    case Advance(t) => s.(sh := Write(cf, s.sh, s.callers[t]), callers := Moved(s.callers, t, Next(s.sh, s.callers[t])))
    case Loop(nowait, full) =>
      s.(sh := LoopShared(cf, s.sh, s.lp.pc), lp := LoopNext(cf, s.sh, s.marks, s.lp, nowait, full),
         marks := LoopMarks(s.marks, s.lp))
    case Invoke => s.(lp := s.lp.(pipeRead := false, pipeCustom := false, pc := CbStart(s.lp.pipeRead)))
    case StartAsync(w) => s.(marks := s.marks.(sent := s.marks.sent - {w}), lp := s.lp.(pc := Starting(w)))
    case StopAsync(i) => s.(lp := s.lp.(asyncs := SwapOut(s.lp.asyncs, i)))
  }

  /** In ev_async_stop: the last started watcher takes the place of the one that stops. */
  function SwapOut(q: seq<Watcher>, i: nat): seq<Watcher>
    requires i < |q|
  {
    q[i := q[|q| - 1]][..|q| - 1]
  }

  predicate Init(s: State) {
    && s.sh == Shared(false, false, false, false, 0)
    && s.marks == Marks({}, {}, [], [])
    && s.lp == LoopState(Run, [], false, false)
    && s.callers == map[]
  }

  /** A run: states linked by enabled steps. */
  ghost predicate IsRun(cf: Config, run: seq<State>, steps: seq<Step>) {
    && |run| == |steps| + 1 && Init(run[0])
    && forall i :: 0 <= i < |steps| ==> Enabled(cf, run[i], steps[i]) && run[i + 1] == Apply(cf, run[i], steps[i])
  }

  // ---------- the invariant ----------

  ghost predicate CallerAt(cs: map<Tid, Caller>, c: Caller) { exists t :: t in cs && cs[t] == c }

  /** The loop is inside pipecb and has yet to test the flag. */
  predicate WillTest(pc: LoopPc, f: Flag) {
    match pc
    case CbStart(_) => true
    case CbSkipped => true
    case CbSig => true
    case CbSigClear => true
    case CbSigScan(_) => f.AsyncFlag?
    case CbAsync => f.AsyncFlag?
    case CbAsyncClear => f.AsyncFlag?
    case _ => false
  }

  predicate Outside(pc: LoopPc) { pc.Polled? || pc.Unwanted? || pc.Run? || pc.Starting? }

  /** Something will bring the loop to pipecb. */
  ghost predicate Promised(sh: Shared, lp: LoopState, cs: map<Tid, Caller>) {
    sh.pipe > 0 || sh.skipped || CbPending(lp) || CallerAt(cs, ClearSkipped) || CallerAt(cs, DoWrite)
  }

  /** A set flag is never forgotten. */
  ghost predicate FlagKept(sh: Shared, lp: LoopState, cs: map<Tid, Caller>, f: Flag) {
    IsSet(sh, f) ==> Promised(sh, lp, cs) || CallerAt(cs, SetSkipped) || WillTest(lp.pc, f)
  }

  /** While the loop blocks, a skip mark belongs to a caller that will write. */
  ghost predicate SkipOwned(sh: Shared, pc: LoopPc, cs: map<Tid, Caller>) {
    && (pc.Poll? && pc.block && sh.skipped ==> CallerAt(cs, ReadWanted) || CallerAt(cs, ClearSkipped))
    && (pc.WantSet? || pc.Poll? || pc.Polled? ==> sh.wanted)
  }

  /** The scan of pipecb will still come to watcher `w` (signal `sg`). */
  predicate WillScan(lp: LoopState, w: Watcher) {
    match lp.pc
    case CbAsyncScan(i) => exists j | 0 <= j < |lp.asyncs| :: j < i && lp.asyncs[j] == w
    case CbAsyncTake(i) => exists j | 0 <= j < |lp.asyncs| :: j <= i && lp.asyncs[j] == w
    case _ => false
  }

  predicate WillScanSig(pc: LoopPc, sg: Signal) { pc.CbSigScan? && sg < pc.i }

  predicate Started(lp: LoopState, w: Watcher) { w in lp.asyncs || lp.pc == Starting(w) }

  /** A sent watcher that is started will be found. */
  ghost predicate SentKept(sh: Shared, m: Marks, lp: LoopState, cs: map<Tid, Caller>, w: Watcher) {
    w in m.sent && Started(lp, w) ==>
      sh.async || CallerAt(cs, Check(AsyncFlag)) || CallerAt(cs, SetFlag(AsyncFlag)) || WillScan(lp, w)
  }

  ghost predicate SigKept(cf: Config, sh: Shared, m: Marks, pc: LoopPc, cs: map<Tid, Caller>, sg: Signal) {
    sg in m.sigs ==>
      sg < cf.nsig &&
      (sh.sig || CallerAt(cs, Check(SigFlag)) || CallerAt(cs, SetFlag(SigFlag)) || WillScanSig(pc, sg))
  }

  ghost predicate Inv(cf: Config, s: State) {
    && FlagKept(s.sh, s.lp, s.callers, SigFlag) && FlagKept(s.sh, s.lp, s.callers, AsyncFlag)
    && SkipOwned(s.sh, s.lp.pc, s.callers)
    && (CbPending(s.lp) ==> Outside(s.lp.pc))
    && (forall w: Watcher :: SentKept(s.sh, s.marks, s.lp, s.callers, w))
    && (forall sg: Signal :: SigKept(cf, s.sh, s.marks, s.lp.pc, s.callers, sg))
  }

  // ---------- what holds in every state of every run ----------

  lemma {:induction false} RunKeeps(cf: Config, run: seq<State>, steps: seq<Step>, i: nat)
    requires IsRun(cf, run, steps) && cf.capacity > 0 && i < |run|
    ensures Inv(cf, run[i])
  {
    hide Inv, Enabled, Apply, Init;
    if i == 0 { InitInv(cf, run[0]); }
    else {
      RunKeeps(cf, run, steps, i - 1);
      StepKeeps(cf, run[i - 1], steps[i - 1]);
    }
  }

  /** The caller has set its flag and is not done. */
  predicate OnItsWay(c: Caller) { c.SetSkipped? || c.ReadWanted? || c.ClearSkipped? || c.DoWrite? }

  /** No wakeup is lost: in every state of every run, while the loop is blocked and a flag is set, the pipe is
      readable or some caller is still on its way to writing to it. */
  lemma BlockedLoopIsWoken(cf: Config, run: seq<State>, steps: seq<Step>, i: nat)
    requires IsRun(cf, run, steps) && cf.capacity > 0 && i < |run|
    requires run[i].lp.pc == Poll(true) && (run[i].sh.sig || run[i].sh.async)
    ensures run[i].sh.pipe > 0 || exists t :: t in run[i].callers && OnItsWay(run[i].callers[t])
  {
    RunKeeps(cf, run, steps, i);
  }

  /** Once the loop is blocked on an empty pipe and no caller is in mid-call, nothing is outstanding. */
  lemma NoLostWakeup(cf: Config, run: seq<State>, steps: seq<Step>, i: nat)
    requires IsRun(cf, run, steps) && cf.capacity > 0 && i < |run|
    requires run[i].lp.pc == Poll(true) && run[i].sh.pipe == 0 && run[i].callers == map[]
    ensures !run[i].sh.sig && !run[i].sh.async && run[i].marks.sigs == {}
    ensures forall w :: w in run[i].lp.asyncs ==> w !in run[i].marks.sent
  {
    RunKeeps(cf, run, steps, i);
    var s := run[i];
    forall w | w in s.lp.asyncs ensures w !in s.marks.sent { assert SentKept(s.sh, s.marks, s.lp, s.callers, w); }
    forall sg: Signal ensures sg !in s.marks.sigs { assert SigKept(cf, s.sh, s.marks, s.lp.pc, s.callers, sg); }
  }

  // ---------- delivery ----------

  /** Step `k` of the run feeds watcher `w` to the pending queue. */
  ghost predicate Feeds(run: seq<State>, k: nat, w: Watcher)
    requires k + 1 < |run|
  {
    run[k + 1].marks.fedAsync == run[k].marks.fedAsync + [w]
  }

  lemma {:induction false} LeavesSent(run: seq<State>, i: nat, j: nat, w: Watcher) returns (k: nat)
    requires i <= j < |run| && w in run[i].marks.sent && w !in run[j].marks.sent
    ensures i <= k < j && w in run[k].marks.sent && w !in run[k + 1].marks.sent
    decreases j - i
  {
    if w !in run[i + 1].marks.sent { k := i; } else { k := LeavesSent(run, i + 1, j, w); }
  }

  /** A sent mark disappears only by being fed or by restarting the watcher. */
  lemma MarkCleared(cf: Config, s: State, st: Step, w: Watcher)
    requires Enabled(cf, s, st) && w in s.marks.sent && w !in Apply(cf, s, st).marks.sent
    ensures st == StartAsync(w) || Apply(cf, s, st).marks.fedAsync == s.marks.fedAsync + [w]
  {
  }

  /** Every ev_async_send to a watcher that stays started has been followed by its event once the loop is
      blocked on an empty pipe with no caller in mid-call. */
  lemma EverySendIsFed(cf: Config, run: seq<State>, steps: seq<Step>, i: nat, j: nat, t: Tid, w: Watcher)
      returns (k: nat)
    requires IsRun(cf, run, steps) && cf.capacity > 0 && i < j < |run| && steps[i] == Send(t, w)
    requires run[j].lp.pc == Poll(true) && run[j].sh.pipe == 0 && run[j].callers == map[] && w in run[j].lp.asyncs
    requires forall n :: i < n < j ==> steps[n] != StartAsync(w)
    ensures i < k < j && Feeds(run, k, w)
  {
    NoLostWakeup(cf, run, steps, j);
    assert run[i + 1] == Apply(cf, run[i], steps[i]);
    k := LeavesSent(run, i + 1, j, w);
    MarkCleared(cf, run[k], steps[k], w);
  }

  // ---------- why each step keeps the invariant ----------

  lemma InitInv(cf: Config, s: State)
    requires Init(s)
    ensures Inv(cf, s)
  {
  }

  // ---------- callers' steps ----------

  /** Who else stands where; and where the moving caller arrives. */
  lemma Others(cs: map<Tid, Caller>, t: Tid, c: Caller, n: Caller)
    requires t in cs
    ensures CallerAt(cs, c) && cs[t] != c ==> CallerAt(Moved(cs, t, n), c)
    ensures !n.Done? ==> CallerAt(Moved(cs, t, n), n)
  {
    var cs' := Moved(cs, t, n);
    if CallerAt(cs, c) && cs[t] != c {
      var o :| o in cs && cs[o] == c;
      assert o in cs' && cs'[o] == c;
    }
    if !n.Done? { assert t in cs' && cs'[t] == n; }
  }

  lemma FlagKeptAdvance(cf: Config, s: State, t: Tid, f: Flag)
    requires t in s.callers && cf.capacity > 0 && FlagKept(s.sh, s.lp, s.callers, f)
    ensures var s' := Apply(cf, s, Advance(t)); FlagKept(s'.sh, s'.lp, s'.callers, f)
  {
    hide CallerAt, Moved;
    var n := Next(s.sh, s.callers[t]);
    Others(s.callers, t, SetSkipped, n);
    Others(s.callers, t, ClearSkipped, n);
    Others(s.callers, t, DoWrite, n);
  }

  lemma SkipOwnedAdvance(cf: Config, s: State, t: Tid)
    requires t in s.callers && SkipOwned(s.sh, s.lp.pc, s.callers)
    ensures var s' := Apply(cf, s, Advance(t)); SkipOwned(s'.sh, s'.lp.pc, s'.callers)
  {
    hide CallerAt, Moved;
    var n := Next(s.sh, s.callers[t]);
    Others(s.callers, t, ReadWanted, n);
    Others(s.callers, t, ClearSkipped, n);
  }

  lemma SentKeptAdvance(cf: Config, s: State, t: Tid, w: Watcher)
    requires t in s.callers && SentKept(s.sh, s.marks, s.lp, s.callers, w)
    ensures var s' := Apply(cf, s, Advance(t)); SentKept(s'.sh, s'.marks, s'.lp, s'.callers, w)
  {
    hide CallerAt, Moved, WillScan, Started;
    var n := Next(s.sh, s.callers[t]);
    Others(s.callers, t, Check(AsyncFlag), n);
    Others(s.callers, t, SetFlag(AsyncFlag), n);
  }

  lemma SigKeptAdvance(cf: Config, s: State, t: Tid, sg: Signal)
    requires t in s.callers && SigKept(cf, s.sh, s.marks, s.lp.pc, s.callers, sg)
    ensures var s' := Apply(cf, s, Advance(t)); SigKept(cf, s'.sh, s'.marks, s'.lp.pc, s'.callers, sg)
  {
    hide CallerAt, Moved, WillScanSig;
    var n := Next(s.sh, s.callers[t]);
    Others(s.callers, t, Check(SigFlag), n);
    Others(s.callers, t, SetFlag(SigFlag), n);
  }

  lemma AdvanceKeeps(cf: Config, s: State, t: Tid)
    requires t in s.callers && cf.capacity > 0 && Inv(cf, s)
    ensures Inv(cf, Apply(cf, s, Advance(t)))
  {
    hide FlagKept, SkipOwned, SentKept, SigKept, Write, Next, Moved;
    var s' := Apply(cf, s, Advance(t));
    FlagKeptAdvance(cf, s, t, SigFlag);
    FlagKeptAdvance(cf, s, t, AsyncFlag);
    SkipOwnedAdvance(cf, s, t);
    forall w: Watcher ensures SentKept(s'.sh, s'.marks, s'.lp, s'.callers, w) { SentKeptAdvance(cf, s, t, w); }
    forall sg: Signal ensures SigKept(cf, s'.sh, s'.marks, s'.lp.pc, s'.callers, sg) { SigKeptAdvance(cf, s, t, sg); }
  }

  // ---------- the loop's steps ----------

  lemma LoopFlags(cf: Config, s: State, nowait: bool, full: bool)
    requires LoopEnabled(s.sh, s.lp, nowait, full) && Inv(cf, s)
    ensures var s' := Apply(cf, s, Loop(nowait, full));
      && FlagKept(s'.sh, s'.lp, s.callers, SigFlag) && FlagKept(s'.sh, s'.lp, s.callers, AsyncFlag)
      && SkipOwned(s'.sh, s'.lp.pc, s.callers) && (CbPending(s'.lp) ==> Outside(s'.lp.pc))
  {
    hide CallerAt, SentKept, SigKept;
  }

  /** The loop is in the part of pipecb that deals with ev_async watchers, or about to enter one. */
  predicate AtAsyncs(pc: LoopPc) {
    pc.Starting? || pc.CbAsync? || pc.CbAsyncClear? || pc.CbAsyncScan? || pc.CbAsyncTake?
  }

  lemma LoopSentScan(cf: Config, s: State, nowait: bool, full: bool, w: Watcher)
    requires LoopEnabled(s.sh, s.lp, nowait, full) && SentKept(s.sh, s.marks, s.lp, s.callers, w)
    requires AtAsyncs(s.lp.pc)
    ensures var s' := Apply(cf, s, Loop(nowait, full)); SentKept(s'.sh, s'.marks, s'.lp, s'.callers, w)
  {
    hide CallerAt, LoopEnabled;
  }

  lemma LoopSent(cf: Config, s: State, nowait: bool, full: bool, w: Watcher)
    requires LoopEnabled(s.sh, s.lp, nowait, full) && SentKept(s.sh, s.marks, s.lp, s.callers, w)
    ensures var s' := Apply(cf, s, Loop(nowait, full)); SentKept(s'.sh, s'.marks, s'.lp, s'.callers, w)
  {
    hide CallerAt, LoopEnabled;
    if AtAsyncs(s.lp.pc) { LoopSentScan(cf, s, nowait, full, w); }
  }

  lemma LoopSigs(cf: Config, s: State, nowait: bool, full: bool, sg: Signal)
    requires LoopEnabled(s.sh, s.lp, nowait, full) && SigKept(cf, s.sh, s.marks, s.lp.pc, s.callers, sg)
    ensures var s' := Apply(cf, s, Loop(nowait, full)); SigKept(cf, s'.sh, s'.marks, s'.lp.pc, s'.callers, sg)
  {
    hide CallerAt;
  }

  lemma LoopKeeps(cf: Config, s: State, nowait: bool, full: bool)
    requires LoopEnabled(s.sh, s.lp, nowait, full) && Inv(cf, s)
    ensures Inv(cf, Apply(cf, s, Loop(nowait, full)))
  {
    hide FlagKept, SkipOwned, SentKept, SigKept, LoopNext, LoopShared, LoopMarks;
    var s' := Apply(cf, s, Loop(nowait, full));
    LoopFlags(cf, s, nowait, full);
    forall w: Watcher ensures SentKept(s'.sh, s'.marks, s'.lp, s'.callers, w) { LoopSent(cf, s, nowait, full, w); }
    forall sg: Signal ensures SigKept(cf, s'.sh, s'.marks, s'.lp.pc, s'.callers, sg) {
      LoopSigs(cf, s, nowait, full, sg);
    }
  }

  // ---------- the remaining steps: a new call, pipecb being invoked, watchers coming and going ----------

  lemma NewCaller(cs: map<Tid, Caller>, t: Tid, c: Caller, n: Caller)
    requires t !in cs
    ensures CallerAt(cs, c) ==> CallerAt(cs[t := n], c)
    ensures CallerAt(cs[t := n], n)
  {
    var cs' := cs[t := n];
    assert cs'[t] == n;
    if CallerAt(cs, c) {
      var o :| o in cs && cs[o] == c;
      assert o in cs' && cs'[o] == c;
    }
  }

  lemma CallKeeps(cf: Config, s: State, st: Step)
    requires (st.Send? || st.Raise?) && Enabled(cf, s, st) && Inv(cf, s)
    ensures Inv(cf, Apply(cf, s, st))
  {
    hide CallerAt, WillScan, Started, WillTest;
    var n := if st.Send? then Check(AsyncFlag) else Check(SigFlag);
    NewCaller(s.callers, st.t, SetSkipped, n);
    NewCaller(s.callers, st.t, ReadWanted, n);
    NewCaller(s.callers, st.t, ClearSkipped, n);
    NewCaller(s.callers, st.t, DoWrite, n);
    NewCaller(s.callers, st.t, Check(AsyncFlag), n);
    NewCaller(s.callers, st.t, SetFlag(AsyncFlag), n);
    NewCaller(s.callers, st.t, Check(SigFlag), n);
    NewCaller(s.callers, st.t, SetFlag(SigFlag), n);
    var s' := Apply(cf, s, st);
    forall w: Watcher ensures SentKept(s'.sh, s'.marks, s'.lp, s'.callers, w) {
      assert SentKept(s.sh, s.marks, s.lp, s.callers, w);
    }
    forall sg: Signal ensures SigKept(cf, s'.sh, s'.marks, s'.lp.pc, s'.callers, sg) {
      assert SigKept(cf, s.sh, s.marks, s.lp.pc, s.callers, sg);
    }
  }

  lemma InvokeKeeps(cf: Config, s: State)
    requires Enabled(cf, s, Invoke) && Inv(cf, s)
    ensures Inv(cf, Apply(cf, s, Invoke))
  {
    hide CallerAt;
    var s' := Apply(cf, s, Invoke);
    forall w: Watcher ensures SentKept(s'.sh, s'.marks, s'.lp, s'.callers, w) {
      assert SentKept(s.sh, s.marks, s.lp, s.callers, w);
    }
    forall sg: Signal ensures SigKept(cf, s'.sh, s'.marks, s'.lp.pc, s'.callers, sg) {
      assert SigKept(cf, s.sh, s.marks, s.lp.pc, s.callers, sg);
    }
  }

  lemma StartStopKeeps(cf: Config, s: State, st: Step)
    requires (st.StartAsync? || st.StopAsync?) && Enabled(cf, s, st) && Inv(cf, s)
    ensures Inv(cf, Apply(cf, s, st))
  {
    hide CallerAt;
    if st.StopAsync? { assert forall w :: w in SwapOut(s.lp.asyncs, st.i) ==> w in s.lp.asyncs; }
    var s' := Apply(cf, s, st);
    forall w: Watcher ensures SentKept(s'.sh, s'.marks, s'.lp, s'.callers, w) {
      assert SentKept(s.sh, s.marks, s.lp, s.callers, w);
    }
    forall sg: Signal ensures SigKept(cf, s'.sh, s'.marks, s'.lp.pc, s'.callers, sg) {
      assert SigKept(cf, s.sh, s.marks, s.lp.pc, s.callers, sg);
    }
  }

  lemma StepKeeps(cf: Config, s: State, st: Step)
    requires Enabled(cf, s, st) && cf.capacity > 0 && Inv(cf, s)
    ensures Inv(cf, Apply(cf, s, st))
  {
    hide Inv, LoopEnabled, Apply;
    match st
    case Advance(t) => AdvanceKeeps(cf, s, t);
    case Loop(nowait, full) => LoopKeeps(cf, s, nowait, full);
    case Invoke => InvokeKeeps(cf, s);
    case Send(_, _) => CallKeeps(cf, s, st);
    case Raise(_, _) => CallKeeps(cf, s, st);
    case StartAsync(_) => StartStopKeeps(cf, s, st);
    case StopAsync(_) => StartStopKeeps(cf, s, st);
  }
}
