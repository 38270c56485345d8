/** The dump shows the process as it was when everybody was stopped, whichever way it is written. */
module Snapshot {
  import opened Bytes
  import opened Inputs
  import opened Lister
  import opened ListerSafety

  // ---- Invariants ----

  /** The thread that asked for the dump. */
  predicate Requester(c: Config, t: Tid) {
    c.frame.Some? && c.frame.value.0 == t
  }

  /** `shown` are the registers to show for thread `t` whose own are `own`: those, but for the requesting thread, which
      shows the snapshot it took of itself, with its own `fs_base` and `gs_base` (bytes 168 to 183). */
  predicate ShowsRegs(c: Config, t: Tid, shown: Regs, own: Regs) {
    if Requester(c, t)
    then forall b | 0 <= b < 216 :: shown[b] == if 168 <= b < 184 then own[b] else c.frame.value.1[b]
    else shown == own
  }

  /** `th` shows thread `t` with the registers `r`; FP registers that could not be read are zero. */
  predicate Portrays(c: Config, th: ThreadState, t: Tid, r: ThreadRegs, fp: bool) {
    && th.pid == t && ShowsRegs(c, t, th.regs, r.regs)
    && (if fp then th.fpregs == r.fpregs else forall b | 0 <= b < 512 :: th.fpregs[b] == 0)
  }

  lemma CaptureShows(c: Config, t: Tid, r: ThreadRegs, fp: bool)
    ensures Portrays(c, Capture(c, t, r, fp), t, r, fp)
  {
  }

  /** The captured threads show those at the front of the list, in order, as they were when their registers were
      `frozen`. */
  ghost predicate PortrayList(c: Config, pids: seq<Tid>, ts: seq<ThreadState>, fpRead: seq<bool>,
                              frozen: Tid -> ThreadRegs)
  {
    && |ts| == |fpRead| <= |pids|
    && forall i | 0 <= i < |ts| :: Portrays(c, ts[i], pids[i], frozen(pids[i]), fpRead[i])
  }

  /** The captured registers are those of the first stopped threads at the capture point. */
  ghost predicate CaptureInv(c: Config, me: Locals, d: Dump) {
    && PortrayList(c, me.pids, d.captured, d.fpRead, d.frozenRegs)
    && (me.pc.Capturing? ==> |d.captured| == me.pc.k <= Min(|me.pids|, MAX_DUMP_THREADS))
    && (d.captureOk ==> |d.captured| == Min(|me.pids|, MAX_DUMP_THREADS))
    && (Early(me.pc) ==> d.captured == [] && !d.captureOk)
  }

  /** A stopped thread's registers do not change. */
  ghost predicate RegsInv(me: Locals, os: Os, d: Dump) {
    me.pc.Capturing? ==> forall t | t in os.attached :: os.regs(t) == d.frozenRegs(t)
  }

  /** With everybody stopped, memory does not change from the capture point until they are resumed. */
  ghost predicate MemInv(c: Config, me: Locals, os: Os, d: Dump) {
    d.allStopped && InCallback(me.pc) ==> os.live <= os.attached && AgreeOffOwned(c, os.mem, d.frozenMem)
  }

  /** The child's copy is the frozen memory, and everything written so far came from there. */
  ghost predicate OutInv(c: Config, s: State) {
    var d := s.dump;
    && (d.allStopped && s.child.Child? ==> AgreeOffOwned(c, s.child.mem, d.frozenMem))
    && (d.allStopped ==> forall a | a in d.out && !c.owned(a) :: d.out[a] == d.frozenMem(a))
    && (s.child.Child? && s.child.acted ==> s.child.armed && s.child.status.Some?)
    && (Early(s.me.pc) ==> s.child.NoChild? && d.out == map[] && !d.allStopped)
  }

  /** After a reliable last pass, the threads alive at the capture point were all stopped, and are the list. */
  ghost predicate ScanInv(me: Locals, pass: Pass, d: Dump) {
    (d.captureOk || me.pc.Capturing?) ==>
      && (pass.missed || pass.exited || d.allStopped)
      && (d.allStopped ==> d.frozenLive == Elems(me.pids))
  }

  /** Before the capture point. */
  predicate Early(pc: Pc) {
    pc.Setup? || pc.Opening? || pc.NewPass? || InPass(pc) || pc.ScanDone? || pc.Calling?
  }

  ghost predicate SnapInv(c: Config, s: State) {
    CaptureInv(c, s.me, s.dump) && RegsInv(s.me, s.os, s.dump) && MemInv(c, s.me, s.os, s.dump) && OutInv(c, s)
    && ScanInv(s.me, s.pass, s.dump)
  }

  // ---- Every step keeps them ----

  lemma EnvFrozen(c: Config, s: State, e: EnvStep)
    requires SnapInv(c, s) && EnvEnabled(c, s.os, e)
    ensures SnapInv(c, ApplyEnv(s, e))
  {
  }

  lemma ScanFrozen(c: Config, s: State, st: ScanStep)
    requires Inv(c, s) && SnapInv(c, s) && ScanEnabled(c, s, st)
    ensures SnapInv(c, ApplyScan(c, s, st))
  {
    ScanLeavesDump(c, s, st);
    BeforeCapture(c, s, ApplyScan(c, s, st));
  }

  lemma ScanLeavesDump(c: Config, s: State, st: ScanStep)
    requires ScanEnabled(c, s, st)
    ensures
      var t := ApplyScan(c, s, st);
      && t.dump == s.dump && t.child == s.child && Early(s.me.pc)
      && (Early(t.me.pc) || t.me.pc.Resuming? || t.me.pc.Done?)
  {
  }

  lemma BeforeCapture(c: Config, s: State, t: State)
    requires SnapInv(c, s) && Early(s.me.pc) && t.dump == s.dump && t.child == s.child
    requires Early(t.me.pc) || t.me.pc.Resuming? || t.me.pc.Done?
    ensures SnapInv(c, t)
  {
  }

  /** At the capture point everything that is kept is put in place. */
  lemma FreezeFrozen(c: Config, s: State)
    requires Inv(c, s) && SnapInv(c, s) && s.me.pc.Calling?
    ensures SnapInv(c, Freeze(s))
  {
    assert s.os.live <= s.os.attached ==> s.os.live == Elems(s.me.pids);
  }

  lemma CallFrozen(c: Config, s: State, mem: Content, ok: bool)
    requires Inv(c, s) && SnapInv(c, s) && CallbackEnabled(c, s, UserCallback(mem, ok))
    ensures SnapInv(c, ApplyCallback(c, s, UserCallback(mem, ok)))
  {
    var called := s.(os := s.os.(mem := mem));
    if ok {
      CallbackMoves(c, s, called);
      FreezeFrozen(c, called);
    }
  }

  lemma CallbackFrozen(c: Config, s: State, st: CallbackStep)
    requires Inv(c, s) && SnapInv(c, s) && CallbackEnabled(c, s, st)
    ensures SnapInv(c, ApplyCallback(c, s, st))
  {
    match st {
      case UserCallback(mem, ok) => CallFrozen(c, s, mem, ok);
      case NoCallback => FreezeFrozen(c, s);
      case CaptureOne(fp) => CaptureFrozen(c, s, fp);
      case Fork(pid) => ForkFrozen(c, s, pid);
      case Emit(a) => EmitFrozen(c, s, a);
      case Scribble(mem) => ScribbleFrozen(c, s, mem);
      case _ => MovesFrozen(c, s, ApplyCallback(c, s, st));
    }
  }

  lemma ForkFrozen(c: Config, s: State, pid: Tid)
    requires SnapInv(c, s) && CallbackEnabled(c, s, Fork(pid))
    ensures SnapInv(c, ApplyCallback(c, s, Fork(pid)))
  {
  }

  lemma EmitFrozen(c: Config, s: State, a: nat)
    requires SnapInv(c, s) && CallbackEnabled(c, s, Emit(a))
    ensures SnapInv(c, ApplyCallback(c, s, Emit(a)))
  {
  }

  lemma ScribbleFrozen(c: Config, s: State, mem: Content)
    requires SnapInv(c, s) && CallbackEnabled(c, s, Scribble(mem))
    ensures SnapInv(c, ApplyCallback(c, s, Scribble(mem)))
  {
  }

  /** The callback moves on after the capture, or gives it up. */
  lemma MovesFrozen(c: Config, s: State, t: State)
    requires SnapInv(c, s) && t.os == s.os && t.pass == s.pass && t.child == s.child && t.me == s.me.(pc := t.me.pc)
    requires t.dump == s.dump.(captureOk := t.dump.captureOk, inlineOk := t.dump.inlineOk, result := t.dump.result)
    requires InCallback(s.me.pc) && !s.me.pc.Calling? && InCallback(t.me.pc) && !t.me.pc.Calling? && !t.me.pc.Capturing?
    requires t.dump.captureOk ==> s.dump.captureOk || (s.me.pc.Capturing? && s.me.pc.k >= ToCapture(s))
    ensures SnapInv(c, t)
  {
  }

  lemma CaptureFrozen(c: Config, s: State, fp: bool)
    requires Inv(c, s) && SnapInv(c, s) && CallbackEnabled(c, s, CaptureOne(fp))
    ensures SnapInv(c, ApplyCallback(c, s, CaptureOne(fp)))
  {
    var tid := s.me.pids[s.me.pc.k];
    assert tid in s.os.attached;
    CaptureShows(c, tid, s.os.regs(tid), fp);
    CapturedMore(c, s, Capture(c, tid, s.os.regs(tid), fp), fp);
  }

  lemma PortrayMore(c: Config, pids: seq<Tid>, ts: seq<ThreadState>, fpRead: seq<bool>, frozen: Tid -> ThreadRegs,
                    th: ThreadState, fp: bool)
    requires PortrayList(c, pids, ts, fpRead, frozen) && |ts| < |pids|
    requires Portrays(c, th, pids[|ts|], frozen(pids[|ts|]), fp)
    ensures PortrayList(c, pids, ts + [th], fpRead + [fp], frozen)
  {
  }

  /** One more thread has been captured. */
  lemma CapturedMore(c: Config, s: State, th: ThreadState, fp: bool)
    requires SnapInv(c, s) && s.me.pc.Capturing? && s.me.pc.k < ToCapture(s)
    requires Portrays(c, th, s.me.pids[s.me.pc.k], s.dump.frozenRegs(s.me.pids[s.me.pc.k]), fp)
    ensures
      var me := s.me.(pc := Capturing(s.me.pc.k + 1));
      SnapInv(c, s.(me := me, dump := s.dump.(captured := s.dump.captured + [th], fpRead := s.dump.fpRead + [fp])))
  {
    PortrayMore(c, s.me.pids, s.dump.captured, s.dump.fpRead, s.dump.frozenRegs, th, fp);
  }

  /** Once the callback is over, nothing that counts changes any more. */
  lemma PastCallback(c: Config, s: State, t: State)
    requires SnapInv(c, s) && t.dump == s.dump && t.child == s.child && t.me.pids == s.me.pids && t.pass == s.pass
    requires t.me.pc.Resuming? || t.me.pc.Reaping? || t.me.pc.Done?
    ensures SnapInv(c, t)
  {
  }

  lemma LeaveFrozen(c: Config, s: State, st: LeaveStep)
    requires SnapInv(c, s) && LeaveEnabled(s, st)
    ensures SnapInv(c, ApplyLeave(s, st))
  {
    PastCallback(c, s, ApplyLeave(s, st));
  }

  lemma ChildFrozen(c: Config, s: State, st: ChildStep)
    requires SnapInv(c, s) && ChildEnabled(c, s, st)
    ensures SnapInv(c, ApplyChild(s, st))
  {
  }

  lemma CrashFrozen(c: Config, s: State, sig: nat)
    requires SnapInv(c, s) && !s.me.pc.Done?
    ensures SnapInv(c, ApplyCrash(s, sig))
  {
    PastCallback(c, s, ApplyCrash(s, sig));
  }

  lemma SnapStep(c: Config, s: State, st: Step)
    requires Inv(c, s) && SnapInv(c, s) && Enabled(c, s, st)
    ensures SnapInv(c, Apply(c, s, st))
  {
    match st
    case Env(e) => EnvFrozen(c, s, e);
    case Scan(x) => ScanFrozen(c, s, x);
    case Callback(x) => CallbackFrozen(c, s, x);
    case Leaving(x) => LeaveFrozen(c, s, x);
    case InChild(x) => ChildFrozen(c, s, x);
    case Crash(sig) => CrashFrozen(c, s, sig);
    case CallerWait(_, _) =>
  }

  lemma {:induction false} RunFrozen(c: Config, s: State, steps: seq<Step>, t: State)
    requires Inv(c, s) && SnapInv(c, s) && Runs(c, s, steps, t)
    ensures SnapInv(c, t)
    decreases |steps|
  {
    if steps != [] {
      StepKeeps(c, s, steps[0]);
      SnapStep(c, s, steps[0]);
      RunFrozen(c, Apply(c, s, steps[0]), steps[1..], t);
    }
  }

  lemma AlwaysFrozen(c: Config, t: State)
    requires Reachable(c, t)
    ensures SnapInv(c, t)
  {
    var s, steps :| Init(c, s) && Runs(c, s, steps, t);
    RunFrozen(c, s, steps, t);
  }

  // ---- The capture point ----

  lemma FrozenStep(c: Config, s: State, st: Step)
    requires Enabled(c, s, st) && !Early(s.me.pc)
    ensures SameFrozen(s, Apply(c, s, st))
  {
    match st
    case Env(e) => FrozenElsewhere(s, ApplyEnv(s, e));
    case Callback(x) => FrozenCallback(c, s, x);
    case Leaving(x) => FrozenLeave(s, x);
    case InChild(x) => FrozenElsewhere(s, ApplyChild(s, x));
    case _ =>
  }

  lemma FrozenElsewhere(s: State, t: State)
    requires !Early(s.me.pc) && t.me == s.me && t.dump == s.dump.(out := t.dump.out)
    ensures SameFrozen(s, t)
  {
  }

  lemma FrozenLeave(s: State, x: LeaveStep)
    requires LeaveEnabled(s, x)
    ensures SameFrozen(s, ApplyLeave(s, x))
  {
    var t := ApplyLeave(s, x);
    assert t.dump == s.dump && (t.me.pc.Resuming? || t.me.pc.Reaping? || t.me.pc.Done?);
  }

  lemma FrozenCallback(c: Config, s: State, x: CallbackStep)
    requires CallbackEnabled(c, s, x) && !Early(s.me.pc)
    ensures SameFrozen(s, ApplyCallback(c, s, x))
  {
  }

  /** Past the capture point, and with the same one. */
  ghost predicate SameFrozen(s: State, t: State) {
    && !Early(t.me.pc) && t.dump.frozenMem == s.dump.frozenMem && t.dump.frozenRegs == s.dump.frozenRegs
    && t.dump.frozenLive == s.dump.frozenLive
  }

  lemma {:induction false} RunStaysFrozen(c: Config, s: State, steps: seq<Step>, t: State)
    requires Runs(c, s, steps, t) && !Early(s.me.pc)
    ensures SameFrozen(s, t)
    decreases |steps|
  {
    if steps != [] {
      FrozenStep(c, s, steps[0]);
      RunStaysFrozen(c, Apply(c, s, steps[0]), steps[1..], t);
    }
  }

  /** The capture point is when the user's callback returns, with everything it wrote, or if there is none when the scan
      is over; and it stays that point to the end of the run. */
  lemma CapturePoint(c: Config, s: State, call: CallbackStep, steps: seq<Step>, t: State)
    requires CallbackEnabled(c, s, call) && (call.NoCallback? || (call.UserCallback? && call.ok))
    requires Runs(c, ApplyCallback(c, s, call), steps, t)
    ensures t.dump.frozenMem == if call.NoCallback? then s.os.mem else call.mem
    ensures t.dump.frozenRegs == s.os.regs && t.dump.frozenLive == s.os.live
  {
    RunStaysFrozen(c, ApplyCallback(c, s, call), steps, t);
  }

  // ---- What a dump shows ----

  /** If in the last pass no live sibling failed to attach and none exited unstopped, a successful capture shows the
      process as it was at the capture point, after whatever the user's callback wrote: each thread alive then (up to
      the first 512) once, in list order, with its registers of that moment; and every byte ever written to the core,
      outside the lister's own memory, is the byte that was there at that moment. What resumed siblings do afterwards
      has no effect on either. */
  lemma ConsistentSnapshot(c: Config, t: State)
    requires Reachable(c, t) && t.dump.captureOk && !t.pass.missed && !t.pass.exited
    ensures t.dump.allStopped && Elems(t.me.pids) == t.dump.frozenLive
    ensures CapturedAsStopped(c, t) && WrittenAsFrozen(c, t)
  {
    AlwaysFrozen(c, t);
  }

  ghost predicate CapturedAsStopped(c: Config, t: State) {
    var d, pids := t.dump, t.me.pids;
    |d.captured| == Min(|pids|, 512) && PortrayList(c, pids, d.captured, d.fpRead, d.frozenRegs)
  }

  ghost predicate WrittenAsFrozen(c: Config, t: State) {
    forall a | a in t.dump.out && !c.owned(a) :: t.dump.out[a] == t.dump.frozenMem(a)
  }

  /** The registers are right even after an unreliable scan, and memory is whenever everybody was stopped. */
  lemma SnapshotParts(c: Config, t: State)
    requires Reachable(c, t)
    ensures t.dump.captureOk ==> CapturedAsStopped(c, t)
    ensures t.dump.allStopped ==> WrittenAsFrozen(c, t)
  {
    AlwaysFrozen(c, t);
  }

  lemma SameShown(c1: Config, c2: Config, t: Tid, a: Regs, b: Regs, own: Regs)
    requires c1.frame == c2.frame && ShowsRegs(c1, t, a, own) && ShowsRegs(c2, t, b, own)
    ensures a == b
  {
    assert |a| == |b|;
  }

  /** Two dumps of the same frozen process agree, whatever their strategies and whatever the siblings did after
      being resumed. */
  lemma StrategiesAgree(c1: Config, t1: State, c2: Config, t2: State)
    requires Reachable(c1, t1) && Reachable(c2, t2) && t1.dump.captureOk && t2.dump.captureOk
    requires t1.dump.allStopped && t2.dump.allStopped && t1.me.pids == t2.me.pids && c1.frame == c2.frame
    requires forall a :: t1.dump.frozenMem(a) == t2.dump.frozenMem(a)
    requires forall p | p in t1.me.pids :: t1.dump.frozenRegs(p) == t2.dump.frozenRegs(p)
    ensures |t1.dump.captured| == |t2.dump.captured|
    ensures forall i | 0 <= i < |t1.dump.captured| ::
      t1.dump.captured[i].pid == t2.dump.captured[i].pid && t1.dump.captured[i].regs == t2.dump.captured[i].regs
    ensures forall a | a in t1.dump.out && a in t2.dump.out && !c1.owned(a) && !c2.owned(a) ::
      t1.dump.out[a] == t2.dump.out[a]
  {
    SnapshotParts(c1, t1);
    SnapshotParts(c2, t2);
    forall i | 0 <= i < |t1.dump.captured|
      ensures t1.dump.captured[i].pid == t2.dump.captured[i].pid && t1.dump.captured[i].regs == t2.dump.captured[i].regs
    {
      SameShown(c1, c2, t1.me.pids[i], t1.dump.captured[i].regs, t2.dump.captured[i].regs,
        t1.dump.frozenRegs(t1.me.pids[i]).regs);
    }
  }

  /** A remark: the handler of a child that has disarmed itself finds no list, so it never acts on siblings, however the
      child ends. (Even armed it would act in vain, since the child traces nobody.) */
  lemma DisarmedChildIsHarmless(c: Config, t: State)
    requires Reachable(c, t) && t.child.Child? && !t.child.armed
    ensures !t.child.acted
  {
    AlwaysFrozen(c, t);
  }

  /** `mem` is what the serializer reads in state `t`: the process itself in-line, the child's copy otherwise. */
  ghost predicate Serializing(t: State, mem: Content) {
    (t.me.pc.Inline? && mem == t.os.mem) || (t.child.Child? && mem == t.child.mem)
  }

  /** As long as the serializer runs, what it can read is the frozen memory. */
  lemma ReadsFrozen(c: Config, t: State, mem: Content)
    requires Reachable(c, t) && t.dump.allStopped && Serializing(t, mem)
    ensures AgreeOffOwned(c, mem, t.dump.frozenMem)
  {
    AlwaysFrozen(c, t);
  }
}
