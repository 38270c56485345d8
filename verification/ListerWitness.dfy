/** Runs that show the limits of the protocol's promises. */
module ListerWitness {
  import opened Bytes
  import opened Lister
  import opened Kernel
  import opened ListerSafety
  import opened ListerResult

  lemma Reach(c: Config, t: State, st: Step) returns (u: State)
    requires Reachable(c, t) && Enabled(c, t, st)
    ensures u == Apply(c, t, st) && Reachable(c, u)
  {
    u := Apply(c, t, st);
    var s, steps :| Init(c, s) && Runs(c, s, steps, t);
    RunsThen(c, s, steps, t, st);
  }

  /** The thread that asked for the dump is 1, the lister 9. */
  function Example(): Config {
    Config(9, 1, true, false, None, a => false, t => true)
  }

  /** A memory full of ones. */
  function Ones(): Content {
    (a: nat) => 1
  }

  /** A dump about to begin in a process with the threads `live`, with `stale` left behind by an earlier one. */
  lemma Begin(live: set<Tid>, stale: Tid) returns (s: State)
    requires 0 !in live && 9 !in live && stale >= 0
    ensures Reachable(Example(), s) && s.me.pc == Setup && s.me.pids == [] && !s.me.found
    ensures s.os.live == live && s.os.attached == {} && s.snapshotChild == s.stale == stale && s.pass.count == 0
    ensures s.os.mem == Ones()
  {
    var regs: Tid -> ThreadRegs := (t: Tid) => ThreadRegs(Zeros(216), Zeros(512));
    s := State(
      Os(live, {}, {}, Ones(), regs), Locals(Setup, [], false, false, false, 0, false),
      Pass(0, 0, {}, {}, {}, false, false), Dump(Ones(), regs, {}, false, [], [], false, map[], None, -1),
      NoChild, stale, Params(-1, 0), false, stale, None, None, None);
    assert Init(Example(), s) && Runs(Example(), s, [], s);
  }

  lemma FirstPass(live: set<Tid>, stale: Tid) returns (s: State)
    requires 0 !in live && 9 !in live && stale >= 0
    ensures Reachable(Example(), s) && s.me.pc == Reading && s.me.pids == []
    ensures s.snapshotChild == s.stale == stale
    ensures s.os.live == live && s.os.attached == {} && s.me.armed && s.me.installed && s.me.sigNum == 0
    ensures s.pass.listed == {} && s.pass.stayed == live && s.pass.added == 0 && s.os.mem == Ones()
  {
    var c := Example();
    s := Begin(live, stale);
    s := Reach(c, s, Scan(Arm));
    s := Reach(c, s, Scan(OpenOk));
    s := Reach(c, s, Scan(StartPass));
  }

  /** The first pass has listed thread 1 and attached it. */
  lemma FirstAttached(live: set<Tid>, stale: Tid) returns (s: State)
    requires 0 !in live && 9 !in live && 1 in live && stale >= 0
    ensures Reachable(Example(), s) && s.me.pc == Waiting(1, []) && s.me.pids == []
    ensures s.snapshotChild == s.stale == stale
    ensures s.os.live == live && s.os.attached == {1} && s.me.armed && s.me.installed && s.me.sigNum == 0
    ensures s.pass.listed == {1} && s.pass.stayed == live && s.pass.added == 0 && s.os.mem == Ones()
  {
    var c := Example();
    s := FirstPass(live, stale);
    s := Reach(c, s, Scan(Batch([1])));
    s := Reach(c, s, Scan(Walk(true, true)));
  }

  /** The end of a buffer. */
  lemma BufferEnds(s0: State) returns (s: State)
    requires Reachable(Example(), s0) && s0.me.pc == Walking([])
    ensures Reachable(Example(), s) && s == s0.(me := s0.me.(pc := Reading))
  {
    s := Reach(Example(), s0, Scan(Walk(true, true)));
  }

  lemma FirstRecorded(s0: State) returns (s: State)
    requires Reachable(Example(), s0) && s0.me.pc == Waiting(1, []) && s0.me.pids == []
    ensures Reachable(Example(), s)
    ensures s == s0.(me := s0.me.(pc := Reading, pids := [1], found := true, sigNum := 1),
                     pass := s0.pass.(added := s0.pass.added + 1))
  {
    s := Reach(Example(), s0, Scan(VerifyOk));
    s := FirstPublished(s);
    s := BufferEnds(s);
  }

  lemma FirstPublished(s0: State) returns (s: State)
    requires Reachable(Example(), s0) && s0.me.pc == Verified(1, []) && s0.me.pids == []
    ensures Reachable(Example(), s)
    ensures s == s0.(me := s0.me.(pc := Walking([]), pids := [1], found := true, sigNum := 1),
                     pass := s0.pass.(added := s0.pass.added + 1))
  {
    s := FirstOnList(s0);
    s := Reach(Example(), s, Scan(Publish));
  }

  lemma FirstOnList(s0: State) returns (s: State)
    requires Reachable(Example(), s0) && s0.me.pc == Verified(1, []) && s0.me.pids == []
    ensures Reachable(Example(), s) && s == s0.(me := s0.me.(pc := Recorded(1, []), pids := [1]))
  {
    s := Reach(Example(), s0, Scan(Record));
    assert s.me.pids == [1];
  }

  lemma NextPass(s0: State) returns (s: State)
    requires Reachable(Example(), s0) && s0.me.pc == Reading && s0.pass.added > 0 && s0.pass.stayed <= s0.pass.listed
    ensures Reachable(Example(), s)
    ensures s == s0.(pass := Pass(s0.pass.count + 1, 0, {}, s0.os.live, s0.os.live - s0.os.attached, false, false))
  {
    s := Reach(Example(), s0, Scan(EndOfDirectory));
    s := Reach(Example(), s, Scan(StartPass));
  }

  /** Thread 1 is listed again, and skipped because it is already on the list. */
  lemma ListedAgain(s0: State) returns (s: State)
    requires Reachable(Example(), s0) && s0.me.pc == Reading && s0.me.pids == [1] && s0.pass.listed == {}
    ensures Reachable(Example(), s) && s == s0.(pass := s0.pass.(listed := {1}))
  {
    s := ReadOne(s0);
    s := SkipFirst(s);
    s := BufferEnds(s);
  }

  lemma ReadOne(s0: State) returns (s: State)
    requires Reachable(Example(), s0) && s0.me.pc == Reading && s0.pass.listed == {}
    ensures Reachable(Example(), s)
    ensures s == s0.(me := s0.me.(pc := Walking([1])), pass := s0.pass.(listed := {1}))
  {
    s := Reach(Example(), s0, Scan(Batch([1])));
    assert {} + (set x: Tid | x in [1]) == {1};
    assert s.pass.listed == {1};
  }

  lemma SkipFirst(s0: State) returns (s: State)
    requires Reachable(Example(), s0) && s0.me.pc == Walking([1]) && s0.me.pids == [1]
    ensures Reachable(Example(), s) && s == s0.(me := s0.me.(pc := Walking([])))
  {
    s := Reach(Example(), s0, Scan(Walk(true, true)));
    assert s0.me.pc.rest[1..] == [];
    assert s.pass == s0.pass.(missed := s0.pass.missed);
  }

  /** A second pass finds nobody new. */
  lemma SecondPass(s0: State) returns (s: State)
    requires Reachable(Example(), s0) && s0.me.pc == Reading && s0.me.pids == [1]
    requires s0.pass.added > 0 && s0.pass.stayed <= s0.pass.listed
    ensures Reachable(Example(), s)
    ensures s == s0.(pass := Pass(s0.pass.count + 1, 0, {1}, s0.os.live, s0.os.live - s0.os.attached, false, false))
  {
    s := NextPass(s0);
    s := ListedAgain(s);
  }

  lemma FinishScan(s0: State) returns (s: State)
    requires Reachable(Example(), s0) && s0.me.pc == Reading && s0.pass.added == 0 && s0.pass.stayed <= s0.pass.listed
    requires s0.me.found
    ensures Reachable(Example(), s) && s == s0.(me := s0.me.(pc := Calling))
  {
    s := Reach(Example(), s0, Scan(EndOfDirectory));
    s := Reach(Example(), s, Scan(Decide));
  }

  /** Thread `t` spawns `u` and exits. */
  lemma SpawnAndExit(s0: State, t: Tid, u: Tid) returns (s: State)
    requires Reachable(Example(), s0) && s0.me.pc == Reading && Running(s0.os, t)
    requires u !in s0.os.live && u != 0 && u != 9
    ensures Reachable(Example(), s)
    ensures s == s0.(os := s0.os.(live := s0.os.live + {u} - {t}),
                     pass := s0.pass.(stayed := s0.pass.stayed - {t}, exited := true))
  {
    s := Reach(Example(), s0, Env(Spawn(t, u)));
    s := Reach(Example(), s, Env(Leave(t)));
  }

  /** In the second pass thread 3 runs, which thread 2 spawned during the first before it exited. */
  lemma ThreeRuns() returns (s: State)
    ensures Reachable(Example(), s) && s.me.pc == Reading && s.me.found
    ensures s.os.live == {1, 3} && s.os.attached == {1}
    ensures s.pass.added == 0 && s.pass.listed == {1} && s.pass.stayed == {1, 3} && !s.pass.missed
  {
    s := FirstAttached({1, 2}, 0);
    s := FirstRecorded(s);
    s := SpawnAndExit(s, 2, 3);
    s := SecondPass(s);
  }

  /** Without its premise the fixpoint fails: a sibling that spawns another and exits during the last pass, before
      the directory shows the new one, leaves that one running while the callback dumps the process. Nothing failed
      to attach. */
  lemma SpawnAndExitEscapes()
    ensures exists t ::
      Reachable(Example(), t) && InCallback(t.me.pc) && !t.pass.missed && !(t.os.live <= t.os.attached)
  {
    var s := ThreeRuns();
    s := SpawnAndExit(s, 3, 4);
    s := FinishScan(s);
    assert 4 in s.os.live && 4 !in s.os.attached;
  }

  /** The callback of a process with one thread. */
  lemma InCallbackAlone(stale: Tid) returns (s: State)
    requires stale >= 0
    ensures Reachable(Example(), s) && s.me.pc == Capturing(0) && s.me.pids == [1]
    ensures s.snapshotChild == s.stale == stale
    ensures s.os.attached == s.os.live == {1} && s.os.mem == Ones() && s.dump.allStopped && s.me.armed
  {
    s := FirstAttached({1}, stale);
    s := FirstRecorded(s);
    s := SecondPass(s);
    s := FinishScan(s);
    s := Reach(Example(), s, Callback(NoCallback));
  }

  /** Both windows are real: a crash between attaching and publishing, and one between clearing the list and
      resuming, each leave a thread stopped. */
  lemma WindowsAreReal()
    ensures exists s :: Reachable(Example(), s) && s.me.pc.Waiting? && ApplyCrash(s, 11).os.attached == {1}
    ensures exists s :: Reachable(Example(), s) && s.me.pc == Resuming(0, Reap) && ApplyCrash(s, 11).os.attached == {1}
  {
    var s := FirstAttached({1}, 0);
    assert ApplyCrash(s, 11).os.attached == {1};
    var u := JustCleared();
  }

  lemma JustCleared() returns (s: State)
    ensures Reachable(Example(), s) && s.me.pc == Resuming(0, Reap) && ApplyCrash(s, 11).os.attached == {1}
  {
    var u := InCallbackAlone(0);
    u := Reach(Example(), u, Callback(CaptureFails));
    s := Reach(Example(), u, Leaving(Clear));
    assert Published(s.me) == {};
  }

  /** A crash after the fork leaves the child's pid behind for the next dump to trip over. */
  lemma CrashLeavesStaleChild()
    ensures exists t :: Reachable(Example(), t) && t.me.pc.Done? && t.me.crashed && t.snapshotChild != 0
  {
    var s := Announced();
    s := Reach(Example(), s, Crash(11));
    assert s.snapshotChild == 7;
  }

  /** A forked child starts with the crash list of the lister: until it disarms itself, its handler acts on it. */
  lemma UndisarmedChildActs()
    ensures exists t :: Reachable(Example(), t) && t.child.Child? && t.child.acted
  {
    var s := AboutToFork(0);
    s := Reach(Example(), s, Callback(Fork(7)));
    s := Reach(Example(), s, InChild(ChildCrash(11)));
    assert s.child.acted;
  }

  lemma Announced() returns (s: State)
    ensures Reachable(Example(), s) && s.me.pc == Returned && s.snapshotChild == 7
  {
    s := AboutToFork(0);
    s := Reach(Example(), s, Callback(Fork(7)));
    s := Reach(Example(), s, Callback(SetChild));
  }

  lemma AboutToFork(stale: Tid) returns (s: State)
    requires stale >= 0
    ensures Reachable(Example(), s) && s.me.pc == Forking && s.me.pids == [1] && s.dump.captureOk
    ensures s.snapshotChild == s.stale == stale && s.os.mem == Ones() && s.dump.allStopped && s.me.armed
  {
    s := InCallbackAlone(stale);
    s := Reach(Example(), s, Callback(CaptureOne(true)));
    s := Reach(Example(), s, Callback(CaptureDone));
  }

  /** The next dump pays for it: written in-line and complete, it waits for the stale pid, which is not its child, and
      reports failure. */
  lemma StaleChildSpoilsNextDump()
    ensures exists t ::
      && Reachable(Example(), t) && t.stale == 7 && t.waited == Some(true) && t.me.pc == Done(Exit(0))
      && t.dump.captureOk && t.dump.inlineOk == Some(true) && t.answer == Some(ThreadList(ECHILD))
  {
    var s := InlineResumed();
    AlwaysJudged(Example(), s);
    s := Reach(Example(), s, Leaving(ReapFails(ECHILD)));
    StatusRoundTrip(Exit(0));
    s := Reach(Example(), s, CallerWait(true, ECHILD));
    assert s.answer == Some(ThreadList(ECHILD));
  }

  lemma InlineWritten() returns (s: State)
    ensures Reachable(Example(), s) && s.me.pc == Returned && s.me.pids == [1] && s.dump.captureOk
    ensures s.dump.inlineOk == Some(true) && s.snapshotChild == s.stale == 7
  {
    s := AboutToFork(7);
    s := Reach(Example(), s, Callback(ForkFails));
    s := Reach(Example(), s, Callback(InlineDone(true)));
  }

  lemma InlineResumed() returns (s: State)
    ensures Reachable(Example(), s) && s.me.pc == Reaping(7) && s.stale == 7
    ensures s.dump.captureOk && s.dump.inlineOk == Some(true)
  {
    s := InlineWritten();
    s := Reach(Example(), s, Leaving(Clear));
    s := Reach(Example(), s, Leaving(ResumeOne));
    s := Reach(Example(), s, Leaving(ResumeDone));
  }
}
