/** How the outcome of a dump reaches its caller: exit statuses, the shared parameter block and the final answer. */
module ListerResult {
  import opened Bytes
  import opened Kernel
  import opened Lister
  import opened ListerSafety

  // ---- The parameter block ----

  /** The parameter block the caller shares with the lister. */
  class ParamBlock {
    var result: int
    var err: int

    constructor ()
      ensures Value() == Params(-1, 0)
    {
      result, err := -1, 0;
    }

    ghost function Value(): Params
      reads this
    {
      Params(result, err)
    }

    /** `fail`: store an errno. */
    method Fail(errno: int)
      modifies this
      ensures Value() == Params(-1, errno)
    {
      result, err := -1, errno;
    }

    /** The callback has returned `rc`. */
    method Succeed(rc: int)
      modifies this
      ensures Value() == Params(rc, 0)
    {
      result, err := rc, 0;
    }

    /** `decode_lister_status`. */
    method DecodeListerStatus(status: nat)
      modifies this
      ensures Value() == Decoded(old(Value()), status)
    {
      if status % 128 == 0 {
        match status / 256 % 256 {
          case 0 =>
          case 1 =>
            if err == 0 {
              err := ECHILD;
            }
            result := -1;
          case 2 =>
            err, result := EFAULT, -1;
          case 3 =>
            err, result := EPERM, -1;
          case _ =>
            err, result := ECHILD, -1;
        }
      } else {
        err, result := EFAULT, -1;
      }
    }

    /** `reap_snapshot_child`, given how the wait went after retrying interruptions. */
    method ReapSnapshotChild(wait: SysResult)
      modifies this
      ensures Value() == if wait.Err? then Params(-1, wait.errno) else FoldChild(old(Value()), wait.n)
    {
      match wait
      case Err(errno) =>
        result, err := -1, errno;
      case Ok(status) =>
        var ok := status % 128 == 0 && status / 256 % 256 == 0;
        if !ok {
          result, err := -1, EFAULT;
        }
    }
  }

  /** Decoding recovers how the process ended. */
  lemma StatusRoundTrip(w: WaitStatus)
    requires Sensible(w)
    ensures Exited(Encoded(w)) <==> w.Exit?
    ensures w.Exit? ==> ExitCode(Encoded(w)) == w.code
  {
  }

  // ---- The answer ----

  /** The serializer reported success: the in-line one, or the child that was reaped. */
  predicate Serialized(s: State) {
    if s.child.NoChild? then s.dump.inlineOk == Some(true) else s.reaped && s.child.wrote == Some(true)
  }

  /** The callback wrote nothing, or wrote in-line. */
  ghost predicate WithoutChild(s: State) {
    || (!s.dump.captureOk && s.dump.result == -1)
    || (s.dump.captureOk && s.dump.inlineOk.Some? && (s.dump.result == 0 <==> s.dump.inlineOk.value))
  }

  /** The ways a callback returns: without a capture, after writing in-line, and with a child at work. */
  ghost predicate CallbackOutcome(s: State) {
    if s.child.NoChild? then WithoutChild(s) && s.snapshotChild == s.stale
    else s.dump.captureOk && s.dump.result == 0 && s.snapshotChild > 0
  }

  ghost predicate Untouched(s: State) {
    !s.dump.captureOk && s.child.NoChild? && s.dump.inlineOk.None? && s.dump.result == -1 && s.snapshotChild == s.stale
  }

  /** The child exits with code zero exactly when its serializer has succeeded. */
  ghost predicate ChildInv(kid: Child)
    requires kid.Child?
  {
    && (kid.status.Some? ==> Sensible(kid.status.value))
    && (kid.status == Some(Exit(0)) <==> kid.wrote == Some(true))
    && (kid.wrote.Some? ==> kid.status.Some?)
  }

  /** The outcome recorded so far, phase by phase. */
  ghost predicate ProgressInv(s: State) {
    var pc, d := s.me.pc, s.dump;
    && s.stale >= 0
    && (s.child.Child? ==> ChildInv(s.child))
    && (pc.Setup? || pc.Opening? || pc.NewPass? || InPass(pc) || pc.ScanDone? || pc.Calling? || pc.Capturing? ==>
          Untouched(s))
    && (pc.Forking? || pc.Inline? ==> d.captureOk && s.child.NoChild? && s.snapshotChild == s.stale)
    && (pc.Publishing? ==> d.captureOk && s.child.Child? && pc.child > 0 && s.snapshotChild == s.stale)
    && (pc.Returned? ==> CallbackOutcome(s))
    && (pc.Resuming? && pc.after.Reap? ==> CallbackOutcome(s) && s.params == Params(0, 0))
    && (pc.Resuming? && !pc.after.Reap? ==> Untouched(s))
    && (pc.Reaping? ==>
          && s.snapshotChild == 0 && s.params == Params(0, 0)
          && (if s.child.NoChild? then s.stale > 0 && WithoutChild(s) else d.captureOk && d.result == 0))
    && (!pc.Done? ==> !s.reaped && s.foreign.None?)
    && (s.reaped ==> s.child.Child? && s.child.status.Some?)
  }

  /** What a finished lister hands over. */
  ghost predicate FinalInv(s: State) {
    && (!s.me.pc.Done? ==> s.answer.None?)
    && (s.me.pc.Done? && !s.me.crashed ==> s.snapshotChild == if s.me.pc.status == Exit(0) then 0 else s.stale)
    && (s.answer.None? && s.me.pc.Done? ==>
          && Sensible(s.me.pc.status)
          && (s.me.crashed ==> s.me.pc.status.Killed? || s.me.pc.status in {Exit(1), Exit(2)})
          && (s.me.pc.status == Exit(0) ==> HandedOver(s)))
    && (s.answer.Some? ==> s.waited.Some? && s.me.pc.Done? && Judged(s, s.answer.value))
  }

  /** Nothing left over from an earlier dump spoils the outcome of a dump without a child. */
  predicate Unspoiled(s: State) {
    s.stale == 0 || s.foreign == Some(Exit(0))
  }

  ghost predicate HandedOver(s: State) {
    if s.child.NoChild? then
      && (s.dump.result == 0 <==> s.dump.captureOk && Serialized(s))
      && (if Unspoiled(s) then s.params == Params(0, 0) else s.params.result == -1)
    else
      && s.dump.captureOk && s.dump.result == 0
      && (if s.reaped then s.params == (if Serialized(s) then Params(0, 0) else Params(-1, EFAULT))
          else s.params.result == -1)
  }

  /** The whole classification of answers. */
  ghost predicate Judged(s: State, a: Answer)
    requires s.me.pc.Done?
  {
    var status := s.me.pc.status;
    if s.waited == Some(false) || status == Exit(1) then a.ThreadList?
    else if status == Exit(0) then
      if s.child.NoChild? then
        if Unspoiled(s) then a == (if s.dump.captureOk && Serialized(s) then Success else DumpFailed) else a.ThreadList?
      else if s.reaped then s.dump.captureOk && a == if Serialized(s) then Success else ThreadList(EFAULT)
      else a.ThreadList?
    else a == ThreadList(if status == Exit(3) then EPERM else EFAULT)
  }

  ghost predicate ResultInv(s: State) {
    ProgressInv(s) && FinalInv(s)
  }

  lemma WaitJudges(c: Config, s: State, ok: bool, errno: int)
    requires Inv(c, s) && ResultInv(s) && Enabled(c, s, CallerWait(ok, errno))
    ensures ResultInv(ApplyCallerWait(s, ok, errno))
  {
    StatusRoundTrip(s.me.pc.status);
  }

  lemma LeaveJudged(c: Config, s: State, st: LeaveStep)
    requires Inv(c, s) && ResultInv(s) && LeaveEnabled(s, st)
    ensures ResultInv(ApplyLeave(s, st))
  {
    match st {
      case ReapOk => StatusRoundTrip(s.child.status.value);
      case ReapForeign(w) => StatusRoundTrip(w);
      case _ =>
    }
  }

  lemma ScanJudged(c: Config, s: State, st: ScanStep)
    requires Inv(c, s) && ResultInv(s) && ScanEnabled(c, s, st)
    ensures ResultInv(ApplyScan(c, s, st))
  {
    match st {
      case Walk(marked, attach) => WalkJudged(c, s, marked, attach);
      case _ =>
    }
  }

  lemma WalkJudged(c: Config, s: State, marked: bool, attach: bool)
    requires Inv(c, s) && ResultInv(s) && ScanEnabled(c, s, Walk(marked, attach))
    ensures ResultInv(ApplyWalk(c, s, marked, attach))
  {
  }

  lemma CallbackJudged(c: Config, s: State, st: CallbackStep)
    requires Inv(c, s) && ResultInv(s) && CallbackEnabled(c, s, st)
    ensures ResultInv(ApplyCallback(c, s, st))
  {
  }

  lemma ChildJudged(c: Config, s: State, st: ChildStep)
    requires Inv(c, s) && ResultInv(s) && ChildEnabled(c, s, st)
    ensures ResultInv(ApplyChild(s, st))
  {
  }

  lemma EnvJudged(c: Config, s: State, e: EnvStep)
    requires ResultInv(s) && EnvEnabled(c, s.os, e)
    ensures ResultInv(ApplyEnv(s, e))
  {
  }

  lemma CrashJudged(c: Config, s: State, sig: nat)
    requires ResultInv(s) && Enabled(c, s, Crash(sig))
    ensures ResultInv(ApplyCrash(s, sig))
  {
  }

  lemma ResultStep(c: Config, s: State, st: Step)
    requires Inv(c, s) && ResultInv(s) && Enabled(c, s, st)
    ensures ResultInv(Apply(c, s, st))
  {
    match st
    case Env(e) => EnvJudged(c, s, e);
    case Scan(x) => ScanJudged(c, s, x);
    case Callback(x) => CallbackJudged(c, s, x);
    case Leaving(x) => LeaveJudged(c, s, x);
    case InChild(x) => ChildJudged(c, s, x);
    case Crash(sig) => CrashJudged(c, s, sig);
    case CallerWait(ok, errno) => WaitJudges(c, s, ok, errno);
  }

  lemma {:induction false} RunJudged(c: Config, s: State, steps: seq<Step>, t: State)
    requires Inv(c, s) && ResultInv(s) && Runs(c, s, steps, t)
    ensures ResultInv(t)
    decreases |steps|
  {
    if steps != [] {
      StepKeeps(c, s, steps[0]);
      ResultStep(c, s, steps[0]);
      RunJudged(c, Apply(c, s, steps[0]), steps[1..], t);
    }
  }

  lemma AlwaysJudged(c: Config, t: State)
    requires Reachable(c, t)
    ensures ResultInv(t)
  {
    var s, steps :| Init(c, s) && Runs(c, s, steps, t);
    RunJudged(c, s, steps, t);
  }

  /** The caller is told of success exactly when the wait for the lister worked, the lister exited 0, the capture
      succeeded, and so did the serializer, in-line or in the reaped child; and, for an in-line dump, when no stale
      child was left to reap or reaping it went well. */
  lemma ResultExactly(c: Config, t: State)
    requires Reachable(c, t) && t.answer.Some?
    ensures t.answer == Some(Success) <==>
      && t.waited == Some(true) && t.me.pc == Done(Exit(0)) && t.dump.captureOk && Serialized(t)
      && (t.child.NoChild? ==> Unspoiled(t))
  {
    AlwaysJudged(c, t);
    if t.waited.value {
      assert t.waited == Some(true);
    } else {
      assert t.waited == Some(false);
    }
  }

  /** Starting without a stale child, that is all. */
  lemma ResultSoundness(c: Config, t: State)
    requires Reachable(c, t) && t.answer.Some? && t.stale == 0
    ensures t.answer == Some(Success) <==>
      t.waited == Some(true) && t.me.pc == Done(Exit(0)) && t.dump.captureOk && Serialized(t)
  {
    ResultExactly(c, t);
  }

  /** Every answer, from how the run ended. */
  lemma AnswerIsJudged(c: Config, t: State)
    requires Reachable(c, t) && t.answer.Some?
    ensures t.me.pc.Done? && Judged(t, t.answer.value)
  {
    AlwaysJudged(c, t);
  }

  // ---- The errno of a failure ----

  /** The scan step `st` gives up with `errno`: a system call failed with it, or there is no room for one more
      thread. */
  predicate GivesUp(c: Config, s: State, st: ScanStep, errno: int) {
    match st
    case SetupFails(e) => errno == e
    case OpenFails(e) => errno == e
    case DirFails(e) => errno == e
    case Walk(marked, _) =>
      && s.me.pc.Walking? && s.me.pc.rest != [] && Candidate(c, s.me, s.me.pc.rest[0], marked)
      && |s.me.pids| >= 4096 && errno == ENOMEM
    case _ => false
  }

  /** The errno is on its way to the caller. */
  ghost predicate Carries(s: State, errno: int) {
    && ((s.me.pc.Resuming? && s.me.pc.after.Fail?) || s.me.pc == Done(Exit(1)))
    && (if s.answer.None? then s.params == Params(-1, errno)
        else s.waited == Some(true) ==> s.answer == Some(ThreadList(Reported(errno))))
  }

  /** The errno a caller sees; a failure without one is reported as ECHILD. */
  function Reported(errno: int): int {
    if errno == 0 then ECHILD else errno
  }

  lemma GivingUpCarries(c: Config, s: State, st: ScanStep, errno: int)
    requires s.answer.None? && ScanEnabled(c, s, st) && GivesUp(c, s, st, errno)
    ensures Carries(ApplyScan(c, s, st), errno)
  {
  }

  lemma CarryStep(c: Config, s: State, st: Step, errno: int)
    requires Enabled(c, s, st) && Carries(s, errno) && !s.me.crashed
    ensures Apply(c, s, st).me.crashed || Carries(Apply(c, s, st), errno)
  {
    match st
    case CallerWait(_, _) => StatusRoundTrip(Exit(1));
    case Leaving(x) => CarryLeave(s, x, errno);
    case _ =>
  }

  lemma CarryLeave(s: State, x: LeaveStep, errno: int)
    requires LeaveEnabled(s, x) && Carries(s, errno)
    ensures Carries(ApplyLeave(s, x), errno)
  {
  }

  lemma CrashStays(c: Config, s: State, st: Step)
    requires Enabled(c, s, st) && s.me.crashed && s.me.pc.Done?
    ensures Apply(c, s, st).me == s.me
  {
    OnlyOutside(c, s, st);
  }

  /** Once the lister has ended, only others act. */
  lemma OnlyOutside(c: Config, s: State, st: Step)
    requires Enabled(c, s, st) && s.me.pc.Done?
    ensures st.Env? || st.InChild? || st.CallerWait?
  {
  }

  lemma {:induction false} RunCarries(c: Config, s: State, steps: seq<Step>, t: State, errno: int)
    requires Inv(c, s) && Runs(c, s, steps, t) && (s.me.crashed || Carries(s, errno))
    ensures t.me.crashed || Carries(t, errno)
    decreases |steps|
  {
    if steps != [] {
      StepKeeps(c, s, steps[0]);
      if s.me.crashed {
        CrashStays(c, s, steps[0]);
      } else {
        CarryStep(c, s, steps[0], errno);
      }
      RunCarries(c, Apply(c, s, steps[0]), steps[1..], t, errno);
    }
  }

  /** A failure of the scan reaches the caller with the errno it had: of the system call that failed, or ENOMEM when the
      process has more threads than the list can hold. */
  lemma FailureIsReported(c: Config, s: State, st: ScanStep, errno: int, steps: seq<Step>, t: State)
    requires Reachable(c, s) && ScanEnabled(c, s, st) && GivesUp(c, s, st, errno)
    requires Runs(c, ApplyScan(c, s, st), steps, t) && t.answer.Some? && !t.me.crashed && t.waited == Some(true)
    ensures t.answer == Some(ThreadList(if errno == 0 then ECHILD else errno))
  {
    Always(c, s);
    AlwaysJudged(c, s);
    GivingUpCarries(c, s, st, errno);
    StepKeeps(c, s, Scan(st));
    RunCarries(c, ApplyScan(c, s, st), steps, t, errno);
  }

  /** The errno to report for a crash in `s`: EFAULT, or if the handler ran for SIGABRT that of the failure being
      cleaned up, or ECHILD. */
  function AfterCrash(s: State, sig: nat): int {
    if s.me.installed && sig == 6 then Reported(s.params.err) else EFAULT
  }

  ghost predicate CrashCarries(s: State, s0: State, sig: nat) {
    && s.me.crashed && s.me.pc == Done(if s0.me.installed then Exit(HandlerExit(sig)) else Killed(sig))
    && (if s.answer.None? then s.params == s0.params
        else s.waited == Some(true) ==> s.answer == Some(ThreadList(AfterCrash(s0, sig))))
  }

  lemma CrashCarryStep(c: Config, s: State, st: Step, s0: State, sig: nat)
    requires Enabled(c, s, st) && CrashCarries(s, s0, sig) && 0 < sig < 127
    ensures CrashCarries(Apply(c, s, st), s0, sig)
  {
    CrashStays(c, s, st);
    match st
    case CallerWait(_, _) => StatusRoundTrip(s.me.pc.status);
    case _ =>
  }

  lemma {:induction false} RunCrashCarries(c: Config, s: State, steps: seq<Step>, t: State, s0: State, sig: nat)
    requires Runs(c, s, steps, t) && CrashCarries(s, s0, sig) && 0 < sig < 127
    ensures CrashCarries(t, s0, sig)
    decreases |steps|
  {
    if steps != [] {
      CrashCarryStep(c, s, steps[0], s0, sig);
      RunCrashCarries(c, Apply(c, s, steps[0]), steps[1..], t, s0, sig);
    }
  }

  /** Whatever happens after a crash, that is the answer. */
  lemma CrashIsReported(c: Config, s: State, sig: nat, steps: seq<Step>, t: State)
    requires Reachable(c, s) && Enabled(c, s, Crash(sig))
    requires Runs(c, ApplyCrash(s, sig), steps, t) && t.answer.Some? && t.waited == Some(true)
    ensures t.answer == Some(ThreadList(
      if !s.me.installed || sig != 6 then EFAULT else if s.params.err == 0 then ECHILD else s.params.err))
  {
    AlwaysJudged(c, s);
    RunCrashCarries(c, ApplyCrash(s, sig), steps, t, s, sig);
  }

  /** If the caller cannot wait for the lister, it reports why. */
  lemma WaitFailureIsReported(c: Config, s: State, errno: int)
    requires Reachable(c, s) && Enabled(c, s, CallerWait(false, errno))
    ensures Apply(c, s, CallerWait(false, errno)).answer == Some(ThreadList(errno))
  {
  }

  /** What the decoding of a wait status leaves in the block, by how the process ended. */
  lemma DecodedByEnding(p: Params, w: WaitStatus)
    requires Sensible(w)
    ensures w.Killed? ==> Decoded(p, Encoded(w)) == Params(-1, EFAULT)
    ensures w == Exit(0) ==> Decoded(p, Encoded(w)) == p
    ensures w == Exit(1) ==> Decoded(p, Encoded(w)) == Params(-1, if p.err == 0 then ECHILD else p.err)
    ensures w == Exit(2) ==> Decoded(p, Encoded(w)) == Params(-1, EFAULT)
    ensures w == Exit(3) ==> Decoded(p, Encoded(w)) == Params(-1, EPERM)
    ensures w.Exit? && w.code > 3 ==> Decoded(p, Encoded(w)) == Params(-1, ECHILD)
  {
    StatusRoundTrip(w);
  }

  /** What a dump leaves for the next one: nothing after a complete run, and what it found after a failed one. */
  lemma NoStaleChild(c: Config, t: State)
    requires Reachable(c, t) && t.me.pc.Done? && !t.me.crashed
    ensures t.snapshotChild == if t.me.pc.status == Exit(0) then 0 else t.stale
  {
    AlwaysJudged(c, t);
  }

  /** The child has been announced and not yet collected. */
  predicate Announced(s: State) {
    s.child.Child? && (s.me.pc.Returned? || (s.me.pc.Resuming? && s.me.pc.after.Reap?))
  }

  /** A crash leaves a stale child behind if and only if it comes between announcing the child and collecting it, or an
      earlier stale child has not been collected yet. */
  lemma StaleAfterCrash(c: Config, s: State, sig: nat)
    requires Reachable(c, s) && !s.me.pc.Done?
    ensures ApplyCrash(s, sig).snapshotChild != 0 <==> Announced(s) || (s.stale != 0 && !s.me.pc.Reaping?)
  {
    Always(c, s);
    AlwaysJudged(c, s);
  }
}
