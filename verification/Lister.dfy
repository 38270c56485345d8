/** The freeze, snapshot and resume protocol as a transition system.

    The lister is a thread cloned into the process. It attaches its siblings one by one, runs the dump callback while
    they are stopped, and lets them go. Siblings that are not stopped may spawn, write or exit between any two of its
    steps, every system call may fail, and the lister may crash anywhere. */
module Lister {
  import opened Bytes
  import opened Kernel
  import opened Inputs

  type Tid = i32
  type Content = nat -> byte

  const MAX_THREADS: nat := 4096
  const MAX_DUMP_THREADS: nat := 512
  const SIGABRT: nat := 6

  /** A thread's registers. */
  datatype ThreadRegs = ThreadRegs(regs: Regs, fpregs: FpRegs)

  /** What does not change during a dump. `owned` are the lister's own addresses, such as its stack; `frame` is the
      register snapshot taken in the thread that asked for the dump; `callback` tells whether there is a user callback
      to run before the capture; `shares` are the threads that run in the lister's own memory. */
  datatype Config = Config(
    self: Tid, ppid: Tid, forkSnapshot: bool, callback: bool, frame: Option<(Tid, Regs)>, owned: nat -> bool,
    shares: Tid -> bool)

  datatype WaitStatus = Exit(code: nat) | Killed(sig: nat)

  /** The process as the kernel sees it. A thread in `attached` is stopped. */
  datatype Os = Os(live: set<Tid>, attached: set<Tid>, killed: set<Tid>, mem: Content, regs: Tid -> ThreadRegs)

  /** What follows once the siblings are resumed: exit 1, exit 3, or the end of a complete dump. */
  datatype After = Fail | NotFound | Reap

  /** Where the lister is. `rest` are the directory entries still to look at. */
  datatype Pc =
    | Setup
    | Opening
    | NewPass
    | Reading
    | Walking(rest: seq<Tid>)
    | Waiting(tid: Tid, rest: seq<Tid>)
    | Verified(tid: Tid, rest: seq<Tid>)
    | Recorded(tid: Tid, rest: seq<Tid>)
    | ScanDone
    | Calling
    | Capturing(k: nat)
    | Forking
    | Publishing(child: Tid)
    | Inline
    | Returned
    | Resuming(i: nat, after: After)
    | Reaping(child: Tid)
    | Done(status: WaitStatus)

  /** The lister's variables, with `SIG_PIDS` (as `armed`) and `SIG_NUM_THREADS`. */
  datatype Locals = Locals(
    pc: Pc, pids: seq<Tid>, found: bool, installed: bool, armed: bool, sigNum: nat, crashed: bool)

  /** The current scan pass: `added` is the lister's counter, the rest is history. `stayed` are the threads alive since
      the pass began, `running` those of them that were not stopped then. `missed`: a live sibling was listed and could
      not be attached. `exited`: a sibling that was not stopped exited. */
  datatype Pass = Pass(
    count: nat, added: nat, listed: set<Tid>, stayed: set<Tid>, running: set<Tid>, missed: bool, exited: bool)

  /** The dump callback: what it captured and wrote, its result, and (as history) the state at its capture point, which
      is after the user's callback has returned and before the first register is read, and for which threads the FP
      registers could be read. */
  datatype Dump = Dump(
    frozenMem: Content, frozenRegs: Tid -> ThreadRegs, frozenLive: set<Tid>, allStopped: bool,
    captured: seq<ThreadState>, fpRead: seq<bool>, captureOk: bool, out: map<nat, byte>, inlineOk: Option<bool>,
    result: int)

  /** The snapshot child: a private copy of memory, its inherited crash list, whether it ever acted on that, and how its
      serializer and the child itself ended. */
  datatype Child =
    | NoChild
    | Child(mem: Content, armed: bool, acted: bool, wrote: Option<bool>, status: Option<WaitStatus>)

  datatype Params = Params(result: int, err: int)

  datatype Answer = Success | ThreadList(errno: int) | DumpFailed

  /** `stale` is what an earlier dump left in `snapshotChild`, and `foreign` the status that reaping it brought. */
  datatype State = State(
    os: Os, me: Locals, pass: Pass, dump: Dump, child: Child, snapshotChild: Tid, params: Params, reaped: bool,
    stale: Tid, foreign: Option<WaitStatus>, waited: Option<bool>, answer: Option<Answer>)

  // ---- Steps ----

  /** A sibling that is not stopped does something. */
  datatype EnvStep = Work(who: Tid, mem: Content, regs: Tid -> ThreadRegs) | Spawn(who: Tid, tid: Tid) | Leave(who: Tid)

  datatype ScanStep =
    | SetupFails(errno: int)
    | Arm
    | OpenFails(errno: int)
    | OpenOk
    | StartPass
    | Batch(entries: seq<Tid>)
    | Interrupted
    | EndOfDirectory
    | DirFails(errno: int)
    | Walk(marked: bool, attach: bool)
    | VerifyFails
    | VerifyOk
    | Record
    | Publish
    | Decide

  datatype CallbackStep =
    | UserCallback(mem: Content, ok: bool)
    | NoCallback
    | CaptureFails
    | CaptureOne(fp: bool)
    | CaptureDone
    | Fork(pid: Tid)
    | ForkFails
    | SetChild
    | Emit(a: nat)
    | InlineDone(ok: bool)
    | Scribble(mem: Content)

  datatype LeaveStep = Clear | ResumeOne | ResumeDone | ReapFails(errno: int) | ReapOk | ReapForeign(status: WaitStatus)

  datatype ChildStep =
    | Disarm
    | ChildEmit(a: nat)
    | ChildScribble(mem: Content)
    | ChildExit(ok: bool)
    | ChildCrash(sig: nat)
    | ChildKilled(sig: nat)

  datatype Step =
    | Env(env: EnvStep)
    | Scan(scan: ScanStep)
    | Callback(call: CallbackStep)
    | Leaving(leave: LeaveStep)
    | InChild(kid: ChildStep)
    | Crash(sig: nat)
    | CallerWait(ok: bool, errno: int)

  /** A sibling that can run. */
  predicate Running(os: Os, t: Tid) {
    t in os.live && t !in os.attached
  }

  ghost predicate EnvEnabled(c: Config, os: Os, e: EnvStep) {
    && Running(os, e.who)
    && match e
       case Work(t, _, regs) => forall u | u != t :: regs(u) == os.regs(u)
       case Spawn(_, u) => u !in os.live && u != 0 && u != c.self
       case Leave(t) => true
  }

  function ApplyEnv(s: State, e: EnvStep): State {
    match e
    case Work(_, mem, regs) => s.(os := s.os.(mem := mem, regs := regs))
    case Spawn(_, u) => s.(os := s.os.(live := s.os.live + {u}))
    case Leave(t) =>
      s.(os := s.os.(live := s.os.live - {t}),
         pass := if InPass(s.me.pc) then s.pass.(stayed := s.pass.stayed - {t}, exited := true) else s.pass)
  }

  predicate InPass(pc: Pc) {
    pc.Reading? || pc.Walking? || pc.Waiting? || pc.Verified? || pc.Recorded?
  }

  /** A directory entry the lister tries to attach; `marked` tells whether the thread has the marker socket. */
  predicate Candidate(c: Config, me: Locals, h: Tid, marked: bool) {
    h != 0 && h != c.self && h !in me.pids && marked
  }

  predicate ScanEnabled(c: Config, s: State, st: ScanStep) {
    var pc := s.me.pc;
    match st
    case SetupFails(_) => pc.Setup?
    case Arm => pc.Setup?
    case OpenFails(_) => pc.Opening?
    case OpenOk => pc.Opening?
    case StartPass => pc.NewPass?
    case Batch(_) => pc.Reading?
    case Interrupted => pc.Reading?
    // A thread that lives through a whole pass is listed in it.
    case EndOfDirectory => pc.Reading? && s.pass.stayed <= s.pass.listed
    case DirFails(_) => pc.Reading?
    case Walk(marked, attach) =>
      pc.Walking? && (pc.rest != [] && Candidate(c, s.me, pc.rest[0], marked) && attach ==> Running(s.os, pc.rest[0]))
    case VerifyFails => pc.Waiting?
    // The two peeks tell a thread that shares the lister's memory from one that does not.
    case VerifyOk => pc.Waiting? && c.shares(pc.tid)
    case Record => pc.Verified?
    case Publish => pc.Recorded?
    case Decide => pc.ScanDone?
  }

  function Failing(s: State, errno: int): State {
    s.(me := s.me.(pc := Resuming(0, Fail)), params := Params(-1, errno))
  }

  function ApplyWalk(c: Config, s: State, marked: bool, attach: bool): State
    requires s.me.pc.Walking?
  {
    var rest := s.me.pc.rest;
    if rest == [] then s.(me := s.me.(pc := Reading)) else
    var h := rest[0];
    var skip := s.(me := s.me.(pc := Walking(rest[1..])));
    if !Candidate(c, s.me, h, marked) then
      skip.(pass := s.pass.(missed := s.pass.missed || (Running(s.os, h) && !marked)))
    else if |s.me.pids| >= MAX_THREADS then Failing(s, ENOMEM)
    else if !attach then skip.(pass := s.pass.(missed := s.pass.missed || Running(s.os, h)))
    else s.(os := s.os.(attached := s.os.attached + {h}), me := s.me.(pc := Waiting(h, rest[1..])))
  }

  function ApplyScan(c: Config, s: State, st: ScanStep): State
    requires ScanEnabled(c, s, st)
  {
    var me, pass, os := s.me, s.pass, s.os;
    match st
    case SetupFails(errno) => s.(me := me.(pc := Done(Exit(1))), params := Params(-1, errno))
    case Arm => s.(me := me.(pc := Opening, armed := true, sigNum := 0, installed := true))
    case OpenFails(errno) => s.(me := me.(pc := Done(Exit(1))), params := Params(-1, errno))
    case OpenOk => s.(me := me.(pc := NewPass))
    case StartPass =>
      s.(me := me.(pc := Reading), pass := Pass(pass.count + 1, 0, {}, os.live, os.live - os.attached, false, false))
    case Batch(entries) =>
      s.(me := me.(pc := Walking(entries)), pass := pass.(listed := pass.listed + set x | x in entries))
    case Interrupted => s
    case EndOfDirectory => s.(me := me.(pc := if pass.added == 0 then ScanDone else NewPass))
    case DirFails(errno) => Failing(s, errno)
    case Walk(marked, attach) => ApplyWalk(c, s, marked, attach)
    case VerifyFails =>
      s.(os := os.(attached := os.attached - {me.pc.tid}), me := me.(pc := Walking(me.pc.rest)),
         pass := pass.(missed := true))
    case VerifyOk => s.(me := me.(pc := Verified(me.pc.tid, me.pc.rest)))
    case Record => s.(me := me.(pc := Recorded(me.pc.tid, me.pc.rest), pids := me.pids + [me.pc.tid]))
    case Publish =>
      s.(me := me.(pc := Walking(me.pc.rest), sigNum := |me.pids|, found := me.found || me.pc.tid == c.ppid),
         pass := pass.(added := pass.added + 1))
    case Decide =>
      if me.found then
        s.(me := me.(pc := Calling))
      else s.(me := me.(pc := Resuming(0, NotFound), armed := false, sigNum := 0))
  }

  /** How many threads are captured. */
  function ToCapture(s: State): nat {
    Min(|s.me.pids|, MAX_DUMP_THREADS)
  }

  /** `fs_base` and `gs_base`, which only the kernel can read. */
  const BASES: nat := 168
  const BASES_END: nat := 184

  /** The registers shown for a thread: its own, but the requesting thread appears at its call site, with its own
      segment bases. */
  function Shown(c: Config, t: Tid, r: Regs): Regs {
    if c.frame.Some? && c.frame.value.0 == t then
      c.frame.value.1[..BASES] + r[BASES..BASES_END] + c.frame.value.1[BASES_END..]
    else r
  }

  /** The thread as captured; FP registers that cannot be read are left zero. */
  function Capture(c: Config, t: Tid, r: ThreadRegs, fp: bool): ThreadState {
    ThreadState(t, Shown(c, t, r.regs), if fp then r.fpregs else Zeros(512))
  }

  /** The capture point. */
  function Freeze(s: State): State {
    s.(me := s.me.(pc := Capturing(0)),
       dump := s.dump.(frozenMem := s.os.mem, frozenRegs := s.os.regs, frozenLive := s.os.live,
                       allStopped := s.os.live <= s.os.attached))
  }

  ghost predicate AgreeOffOwned(c: Config, a: Content, b: Content) {
    forall x | !c.owned(x) :: a(x) == b(x)
  }

  ghost predicate CallbackEnabled(c: Config, s: State, st: CallbackStep) {
    var pc := s.me.pc;
    match st
    case UserCallback(_, _) => pc.Calling? && c.callback
    case NoCallback => pc.Calling? && !c.callback
    case CaptureFails => pc.Capturing?
    case CaptureOne(_) => pc.Capturing? && pc.k < ToCapture(s)
    case CaptureDone => pc.Capturing? && pc.k >= ToCapture(s)
    case Fork(pid) => pc.Forking? && c.forkSnapshot && pid > 0
    case ForkFails => pc.Forking?
    case SetChild => pc.Publishing?
    case Emit(_) => pc.Inline?
    case InlineDone(_) => pc.Inline?
    case Scribble(mem) => !pc.Done? && AgreeOffOwned(c, mem, s.os.mem)
  }

  /** The user's callback may write to any memory, and may call the dump off. Registers are read with ptrace, which
      needs the thread to be stopped. */
  function ApplyCallback(c: Config, s: State, st: CallbackStep): State
    requires CallbackEnabled(c, s, st)
  {
    var me, dump := s.me, s.dump;
    match st
    case UserCallback(mem, ok) =>
      var called := s.(os := s.os.(mem := mem));
      if ok then Freeze(called) else called.(me := me.(pc := Returned), dump := dump.(result := -1))
    case NoCallback => Freeze(s)
    case CaptureFails => s.(me := me.(pc := Returned), dump := dump.(result := -1))
    case CaptureOne(fp) =>
      var t := me.pids[me.pc.k];
      s.(me := me.(pc := Capturing(me.pc.k + 1)),
         dump := dump.(captured := dump.captured + [Capture(c, t, s.os.regs(t), fp)], fpRead := dump.fpRead + [fp]))
    case CaptureDone => s.(me := me.(pc := Forking), dump := dump.(captureOk := true))
    case Fork(pid) => s.(me := me.(pc := Publishing(pid)), child := Child(s.os.mem, me.armed, false, None, None))
    case ForkFails => s.(me := me.(pc := Inline))
    case SetChild => s.(me := me.(pc := Returned), snapshotChild := me.pc.child, dump := dump.(result := 0))
    case Emit(a) => s.(dump := dump.(out := dump.out[a := s.os.mem(a)]))
    case InlineDone(ok) =>
      s.(me := me.(pc := Returned), dump := dump.(inlineOk := Some(ok), result := if ok then 0 else -1))
    case Scribble(mem) => s.(os := s.os.(mem := mem))
  }

  predicate LeaveEnabled(s: State, st: LeaveStep) {
    var pc := s.me.pc;
    match st
    case Clear => pc.Returned?
    case ResumeOne => pc.Resuming? && pc.i < |s.me.pids|
    case ResumeDone => pc.Resuming? && pc.i >= |s.me.pids|
    case ReapFails(errno) => pc.Reaping? && errno != EINTR
    case ReapOk => pc.Reaping? && s.child.Child? && s.child.status.Some?
    case ReapForeign(w) => pc.Reaping? && s.child.NoChild? && Sensible(w)
  }

  function ApplyLeave(s: State, st: LeaveStep): State
    requires LeaveEnabled(s, st)
  {
    var me := s.me;
    match st
    case Clear => s.(me := me.(pc := Resuming(0, Reap), armed := false, sigNum := 0), params := Params(0, 0))
    case ResumeOne =>
      s.(os := s.os.(attached := s.os.attached - {me.pids[me.pc.i]}),
         me := me.(pc := Resuming(me.pc.i + 1, me.pc.after)))
    case ResumeDone => ApplyResumed(s)
    case ReapFails(errno) => s.(me := me.(pc := Done(Exit(0))), params := Params(-1, errno))
    case ReapOk =>
      s.(me := me.(pc := Done(Exit(0))), reaped := true,
         params := FoldChild(s.params, Encoded(s.child.status.value)))
    case ReapForeign(w) =>
      s.(me := me.(pc := Done(Exit(0))), foreign := Some(w), params := FoldChild(s.params, Encoded(w)))
  }

  function ApplyResumed(s: State): State
    requires s.me.pc.Resuming?
  {
    match s.me.pc.after
    case Fail => s.(me := s.me.(pc := Done(Exit(1))))
    case NotFound => s.(me := s.me.(pc := Done(Exit(3))))
    case Reap =>
      var next := if s.snapshotChild > 0 then Reaping(s.snapshotChild) else Done(Exit(0));
      s.(me := s.me.(pc := next), snapshotChild := 0)
  }

  ghost predicate ChildEnabled(c: Config, s: State, st: ChildStep) {
    && s.child.Child? && s.child.status.None?
    && match st
       case Disarm => s.child.armed
       case ChildEmit(_) => !s.child.armed
       case ChildScribble(mem) => AgreeOffOwned(c, mem, s.child.mem)
       case ChildExit(_) => !s.child.armed
       case ChildCrash(_) => true
       case ChildKilled(sig) => 0 < sig < 127
  }

  /** The child is not the tracer of anyone: a crash handler that still sees the list makes futile calls. */
  function ApplyChild(s: State, st: ChildStep): State
    requires s.child.Child?
  {
    var kid := s.child;
    match st
    case Disarm => s.(child := kid.(armed := false))
    case ChildEmit(a) => s.(dump := s.dump.(out := s.dump.out[a := kid.mem(a)]))
    case ChildScribble(mem) => s.(child := kid.(mem := mem))
    case ChildExit(ok) => s.(child := kid.(wrote := Some(ok), status := Some(Exit(if ok then 0 else 1))))
    case ChildCrash(sig) => s.(child := kid.(acted := kid.armed, status := Some(Exit(HandlerExit(sig)))))
    case ChildKilled(sig) => s.(child := kid.(status := Some(Killed(sig))))
  }

  function HandlerExit(sig: nat): nat {
    if sig == SIGABRT then 1 else 2
  }

  /** What the crash handler reaches: the published part of the list. */
  function Published(me: Locals): set<Tid> {
    if me.installed && me.armed then set i | 0 <= i < Min(me.sigNum, |me.pids|) :: me.pids[i] else {}
  }

  /** The crash handler resumes or kills the tracees it can see. Without a handler the signal just kills the lister. */
  function ApplyCrash(s: State, sig: nat): State {
    var hit := Published(s.me) * s.os.attached;
    var os := s.os.(attached := s.os.attached - hit);
    var me := s.me.(crashed := true, armed := s.me.armed && !s.me.installed,
                    pc := Done(if s.me.installed then Exit(HandlerExit(sig)) else Killed(sig)));
    if sig == SIGABRT then s.(os := os.(live := os.live - hit, killed := os.killed + hit), me := me)
    else s.(os := os, me := me)
  }

  ghost predicate Enabled(c: Config, s: State, st: Step) {
    match st
    case Env(e) => EnvEnabled(c, s.os, e)
    case Scan(x) => ScanEnabled(c, s, x)
    case Callback(x) => CallbackEnabled(c, s, x)
    case Leaving(x) => LeaveEnabled(s, x)
    case InChild(x) => ChildEnabled(c, s, x)
    case Crash(sig) => !s.me.pc.Done? && 0 < sig < 127
    case CallerWait(_, errno) => s.me.pc.Done? && s.answer.None? && errno != EINTR
  }

  function Apply(c: Config, s: State, st: Step): State
    requires Enabled(c, s, st)
  {
    match st
    case Env(e) => ApplyEnv(s, e)
    case Scan(x) => ApplyScan(c, s, x)
    case Callback(x) => ApplyCallback(c, s, x)
    case Leaving(x) => ApplyLeave(s, x)
    case InChild(x) => ApplyChild(s, x)
    case Crash(sig) => ApplyCrash(s, sig)
    case CallerWait(ok, errno) => ApplyCallerWait(s, ok, errno)
  }

  // ---- Wait statuses and the answer ----

  /** A wait status as the kernel encodes it. */
  function Encoded(w: WaitStatus): nat {
    match w
    case Exit(code) => code % 256 * 256
    case Killed(sig) => sig % 128
  }

  /** A status that can come out of a wait. */
  predicate Sensible(w: WaitStatus) {
    match w
    case Exit(code) => code < 256
    case Killed(sig) => 0 < sig < 127
  }

  predicate Exited(status: nat) {
    status % 128 == 0
  }

  function ExitCode(status: nat): nat {
    status / 256 % 256
  }

  /** `reap_snapshot_child` on a status. */
  function FoldChild(p: Params, status: nat): Params {
    if Exited(status) && ExitCode(status) == 0 then p else Params(-1, EFAULT)
  }

  /** `decode_lister_status`. */
  function Decoded(p: Params, status: nat): Params {
    if !Exited(status) then Params(-1, EFAULT) else
    match ExitCode(status)
    case 0 => p
    case 1 => Params(-1, if p.err == 0 then ECHILD else p.err)
    case 2 => Params(-1, EFAULT)
    case 3 => Params(-1, EPERM)
    case _ => Params(-1, ECHILD)
  }

  /** The answer to the caller of the dump. */
  function Folded(p: Params, result: int): Answer {
    if p.result == -1 then ThreadList(p.err) else if result == 0 then Success else DumpFailed
  }

  /** The caller waits for the lister; if the wait fails, the status it decodes is still zero. */
  function ApplyCallerWait(s: State, ok: bool, errno: int): State
    requires s.me.pc.Done?
  {
    var p := if ok then Decoded(s.params, Encoded(s.me.pc.status)) else Decoded(Params(-1, errno), 0);
    s.(params := p, waited := Some(ok), answer := Some(Folded(p, s.dump.result)))
  }

  // ---- Runs ----

  /** A dump is about to begin. The crash list of an earlier dump may still be around, and so may its snapshot child. */
  predicate Init(c: Config, s: State) {
    && c.self != 0 && c.ppid != 0 && c.ppid != c.self
    && 0 !in s.os.live && c.self !in s.os.live && s.os.attached == {} && s.os.killed == {}
    && s.me.pc == Setup && s.me.pids == [] && !s.me.found && !s.me.installed && !s.me.crashed
    && s.pass == Pass(0, 0, {}, {}, {}, false, false)
    && s.dump.captured == [] && s.dump.fpRead == [] && !s.dump.allStopped && !s.dump.captureOk && s.dump.out == map[]
    && s.dump.inlineOk.None? && s.dump.result == -1
    && s.child.NoChild? && s.snapshotChild == s.stale >= 0 && s.params == Params(-1, 0) && !s.reaped
    && s.foreign.None? && s.waited.None? && s.answer.None?
  }

  /** `steps` lead from `s` to `t`. */
  ghost predicate Runs(c: Config, s: State, steps: seq<Step>, t: State)
    decreases |steps|
  {
    if steps == [] then s == t
    else Enabled(c, s, steps[0]) && Runs(c, Apply(c, s, steps[0]), steps[1..], t)
  }

  /** `t` can come about in some dump. */
  ghost predicate Reachable(c: Config, t: State) {
    exists s, steps :: Init(c, s) && Runs(c, s, steps, t)
  }
}
