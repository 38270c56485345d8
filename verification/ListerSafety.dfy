/** What every step of the protocol keeps, and what follows for every run. */
module ListerSafety {
  import opened Bytes
  import opened Lister

  // ---- Phases ----

  /** Attached and not yet on the list. */
  function Window(pc: Pc): set<Tid> {
    if pc.Waiting? || pc.Verified? then {pc.tid} else {}
  }

  /** Attached and not yet visible to the crash handler. */
  function Unpublished(pc: Pc): set<Tid> {
    if pc.Waiting? || pc.Verified? || pc.Recorded? then {pc.tid} else {}
  }

  predicate InCallback(pc: Pc) {
    pc.Calling? || pc.Capturing? || pc.Forking? || pc.Publishing? || pc.Inline? || pc.Returned?
  }

  /** From the first pass until the callback has returned. */
  predicate Holding(pc: Pc) {
    pc.NewPass? || InPass(pc) || pc.ScanDone? || InCallback(pc)
  }

  function Elems(s: seq<Tid>): set<Tid> {
    set x | x in s
  }

  // ---- Invariants ----

  ghost predicate Siblings(c: Config, pids: seq<Tid>) {
    && |pids| <= MAX_THREADS
    && (forall i | 0 <= i < |pids| :: pids[i] != 0 && pids[i] != c.self)
    && (forall i, j | 0 <= i < j < |pids| :: pids[i] != pids[j])
  }

  /** The list: distinct siblings, never the lister, within capacity. */
  ghost predicate ListInv(c: Config, me: Locals) {
    && Siblings(c, me.pids)
    && (me.pc.Setup? || me.pc.Opening? ==> me.pids == [])
    && (me.pc.Waiting? || me.pc.Verified? ==>
          me.pc.tid != 0 && me.pc.tid != c.self && me.pc.tid !in me.pids && |me.pids| < MAX_THREADS)
    && (me.pc.Recorded? ==> me.pids != [] && me.pids[|me.pids| - 1] == me.pc.tid)
    && (me.pc.Resuming? ==> me.pc.i <= |me.pids|)
  }

  /** The part of the list that has been published, while a thread is being added. */
  function Counted(me: Locals): seq<Tid> {
    if me.pc.Recorded? && me.pids != [] then me.pids[..|me.pids| - 1] else me.pids
  }

  /** The flag says whether the parent has been published, and decides what follows the scan. */
  ghost predicate FoundInv(c: Config, me: Locals) {
    && (me.pc.Recorded? ==> me.pids != [] && me.pids[|me.pids| - 1] == me.pc.tid)
    && (me.found <==> c.ppid in Counted(me))
    && (InCallback(me.pc) || me.pc.Reaping? || (me.pc.Resuming? && me.pc.after.Reap?) ==> me.found)
    && (me.pc.Resuming? && me.pc.after.NotFound? ==> !me.found)
    && (me.pc.Done? && me.pc.status == Exit(0) ==> me.found)
    && (me.pc.Done? && me.pc.status == Exit(3) ==> !me.found)
  }

  /** Whoever is on the list, or about to be, runs in the lister's memory. */
  ghost predicate SharesInv(c: Config, me: Locals) {
    && (forall i | 0 <= i < |me.pids| :: c.shares(me.pids[i]))
    && (me.pc.Verified? ==> c.shares(me.pc.tid))
  }

  /** Whom the list holds. */
  ghost predicate VettedInv(c: Config, me: Locals) {
    (me.crashed || FoundInv(c, me)) && SharesInv(c, me)
  }

  /** The threads on the list, and the one being attached, until they are resumed one by one. */
  function Stopped(me: Locals): set<Tid> {
    if Holding(me.pc) then Elems(me.pids) + Window(me.pc)
    else if me.pc.Resuming? then ToResume(me.pids, me.pc.i)
    else {}
  }

  function ToResume(pids: seq<Tid>, i: nat): set<Tid> {
    Elems(pids[Min(i, |pids|)..])
  }

  lemma ToResumeAll(pids: seq<Tid>)
    ensures ToResume(pids, 0) == Elems(pids)
  {
    assert pids[0..] == pids;
  }

  /** Exactly those are stopped. */
  ghost predicate AttachInv(me: Locals, attached: set<Tid>) {
    me.crashed || attached == Stopped(me)
  }

  /** The crash handler sees the list from arming until it is cleared, one entry late while one is being added. */
  ghost predicate ArmInv(me: Locals) {
    && (me.crashed ==> me.pc.Done?)
    && (!me.pc.Done? ==> (me.installed <==> !me.pc.Setup?))
    && (me.pc.Opening? ==> me.armed && me.sigNum == 0)
    && (Holding(me.pc) ==> me.armed && me.sigNum + (if me.pc.Recorded? then 1 else 0) == |me.pids|)
    && (me.pc.Resuming? ==> me.armed == me.pc.after.Fail? && (me.armed ==> me.sigNum == |me.pids|))
    && (me.pc.Reaping? ==> !me.armed)
    && (me.pc.Done? && !me.crashed && me.pc.status == Exit(1) && me.installed ==> me.armed)
    && (me.pc.Done? && !me.crashed && me.pc.status != Exit(1) ==> !me.armed && me.pc.status in {Exit(0), Exit(3)})
  }

  /** Only live siblings are stopped. */
  ghost predicate LiveInv(c: Config, os: Os) {
    os.attached <= os.live && 0 !in os.live && c.self !in os.live
  }

  /** Every pass but the last added a thread. */
  ghost predicate CountInv(me: Locals, pass: Pass) {
    && (me.pc.Setup? || me.pc.Opening? ==> pass.count == 0)
    && (InPass(me.pc) ==>
          pass.count <= |me.pids| - pass.added - (if me.pc.Recorded? then 1 else 0) + 1
          && pass.added + (if me.pc.Recorded? then 1 else 0) <= |me.pids|)
    && (me.pc.NewPass? ==> pass.count <= |me.pids|)
    && pass.count <= |me.pids| + 1
  }

  /** Nothing has happened in this pass that would make it unreliable, and nothing was attached in it. */
  predicate Clean(me: Locals, pass: Pass) {
    pass.added == 0 && Unpublished(me.pc) == {} && !pass.missed && !pass.exited
  }

  /** The entries of the current buffer still to look at. */
  function Todo(pc: Pc): seq<Tid> {
    if pc.Walking? then pc.rest else []
  }

  /** In a clean pass whoever ran at its start still runs and has not been looked at. */
  ghost predicate PassInv(s: State) {
    var me, pass, os := s.me, s.pass, s.os;
    && (InPass(me.pc) && !pass.exited ==> pass.running <= pass.stayed)
    && (InPass(me.pc) && Clean(me, pass) ==>
          && pass.running <= os.live && pass.running !! os.attached
          && pass.running * pass.listed <= Elems(Todo(me.pc))
          && (pass.running == {} ==> os.live <= os.attached))
    && (me.pc.ScanDone? || InCallback(me.pc) ==> pass.missed || pass.exited || os.live <= os.attached)
  }

  ghost predicate Inv(c: Config, s: State) {
    && ListInv(c, s.me) && AttachInv(s.me, s.os.attached) && ArmInv(s.me) && LiveInv(c, s.os)
    && CountInv(s.me, s.pass) && PassInv(s)
  }

  // ---- Every step keeps them ----

  lemma ListStep(c: Config, s: State, st: ScanStep)
    requires ListInv(c, s.me) && ScanEnabled(c, s, st) && !st.Walk?
    ensures ListInv(c, ApplyScan(c, s, st).me)
  {
    if st.Record? {
      ListRecord(c, s);
    } else {
      ListMoves(c, s, st);
    }
  }

  lemma ListRecord(c: Config, s: State)
    requires ListInv(c, s.me) && ScanEnabled(c, s, Record)
    ensures ListInv(c, ApplyScan(c, s, Record).me)
  {
  }

  lemma ListMoves(c: Config, s: State, st: ScanStep)
    requires ListInv(c, s.me) && ScanEnabled(c, s, st) && !st.Walk? && !st.Record?
    ensures ListInv(c, ApplyScan(c, s, st).me)
  {
  }

  lemma ListSame(c: Config, me: Locals, next: Locals)
    requires ListInv(c, me) && next.pids == me.pids
    requires
      match next.pc
      case Reading | Walking(_) | NewPass | ScanDone | Reaping(_) | Done(_) => true
      case Resuming(i, _) => i <= |me.pids|
      case Waiting(h, _) => h != 0 && h != c.self && h !in me.pids && |me.pids| < MAX_THREADS
      case _ => false
    ensures ListInv(c, next)
  {
  }

  lemma AttachStep(c: Config, s: State, st: ScanStep)
    requires ListInv(c, s.me) && AttachInv(s.me, s.os.attached) && ArmInv(s.me) && ScanEnabled(c, s, st) && !st.Walk?
    ensures AttachInv(ApplyScan(c, s, st).me, ApplyScan(c, s, st).os.attached)
  {
    match st {
      case VerifyFails => AttachUndone(c, s);
      case Record => AttachRecorded(c, s);
      case _ => AttachMoves(c, s, st);
    }
  }

  lemma AttachUndone(c: Config, s: State)
    requires ListInv(c, s.me) && AttachInv(s.me, s.os.attached) && ArmInv(s.me) && ScanEnabled(c, s, VerifyFails)
    ensures AttachInv(ApplyScan(c, s, VerifyFails).me, ApplyScan(c, s, VerifyFails).os.attached)
  {
    assert s.os.attached - {s.me.pc.tid} == Elems(s.me.pids);
  }

  lemma AttachRecorded(c: Config, s: State)
    requires ListInv(c, s.me) && AttachInv(s.me, s.os.attached) && ArmInv(s.me) && ScanEnabled(c, s, Record)
    ensures AttachInv(ApplyScan(c, s, Record).me, ApplyScan(c, s, Record).os.attached)
  {
    assert s.os.attached == Elems(s.me.pids + [s.me.pc.tid]);
  }

  lemma AttachMoves(c: Config, s: State, st: ScanStep)
    requires ListInv(c, s.me) && AttachInv(s.me, s.os.attached) && ArmInv(s.me) && ScanEnabled(c, s, st)
    requires !st.Walk? && !st.VerifyFails? && !st.Record?
    ensures AttachInv(ApplyScan(c, s, st).me, ApplyScan(c, s, st).os.attached)
  {
    ToResumeAll(s.me.pids);
  }

  lemma ArmStep(c: Config, s: State, st: ScanStep)
    requires ArmInv(s.me) && ListInv(c, s.me) && ScanEnabled(c, s, st) && !st.Walk?
    ensures ArmInv(ApplyScan(c, s, st).me)
  {
  }

  lemma CountStep(c: Config, s: State, st: ScanStep)
    requires CountInv(s.me, s.pass) && ListInv(c, s.me) && ScanEnabled(c, s, st) && !st.Walk?
    ensures CountInv(ApplyScan(c, s, st).me, ApplyScan(c, s, st).pass)
  {
  }

  lemma LiveStep(c: Config, s: State, st: ScanStep)
    requires LiveInv(c, s.os) && ScanEnabled(c, s, st)
    ensures LiveInv(c, ApplyScan(c, s, st).os)
  {
  }

  lemma PassStep(c: Config, s: State, st: ScanStep)
    requires Inv(c, s) && ScanEnabled(c, s, st) && !st.Walk?
    ensures PassInv(ApplyScan(c, s, st))
  {
    match st {
      case StartPass => PassBegins(c, s);
      case Batch(entries) => PassBatch(c, s, entries);
      case EndOfDirectory => PassEnds(c, s);
      case VerifyFails => PassMisses(c, s);
      case Publish => PassAdds(c, s);
      case _ => PassGoesOn(c, s, st);
    }
  }

  lemma PassBegins(c: Config, s: State)
    requires Inv(c, s) && ScanEnabled(c, s, StartPass)
    ensures PassInv(ApplyScan(c, s, StartPass))
  {
  }

  lemma PassBatch(c: Config, s: State, entries: seq<Tid>)
    requires Inv(c, s) && ScanEnabled(c, s, Batch(entries))
    ensures PassInv(ApplyScan(c, s, Batch(entries)))
  {
    var t := ApplyScan(c, s, Batch(entries));
    if Clean(s.me, s.pass) {
      assert s.pass.running * s.pass.listed <= Elems([]) == {};
      assert t.pass.running * t.pass.listed <= Elems(entries);
    }
  }

  lemma PassEnds(c: Config, s: State)
    requires Inv(c, s) && ScanEnabled(c, s, EndOfDirectory)
    ensures PassInv(ApplyScan(c, s, EndOfDirectory))
  {
    if Clean(s.me, s.pass) {
      assert s.pass.running * s.pass.listed == s.pass.running;
      assert Elems([]) == {};
    }
  }

  lemma PassMisses(c: Config, s: State)
    requires Inv(c, s) && ScanEnabled(c, s, VerifyFails)
    ensures PassInv(ApplyScan(c, s, VerifyFails))
  {
  }

  lemma PassAdds(c: Config, s: State)
    requires Inv(c, s) && ScanEnabled(c, s, Publish)
    ensures PassInv(ApplyScan(c, s, Publish))
  {
  }

  lemma PassGoesOn(c: Config, s: State, st: ScanStep)
    requires Inv(c, s) && ScanEnabled(c, s, st)
    requires !st.Walk? && !st.StartPass? && !st.Batch? && !st.EndOfDirectory? && !st.VerifyFails? && !st.Publish?
    ensures PassInv(ApplyScan(c, s, st))
  {
  }

  // ---- Walking the directory entries ----

  /** What one entry can lead to: on to the next, back to reading, a full list, or a thread attached. */
  ghost predicate Walked(c: Config, s: State, t: State) {
    var me, next := s.me, t.me;
    && me.pc.Walking? && next == me.(pc := next.pc) && t.os == s.os.(attached := t.os.attached)
    && t.pass == s.pass.(missed := t.pass.missed)
    && match next.pc
       case Reading | Walking(_) => t.os.attached == s.os.attached
       case Resuming(i, after) => i == 0 && after.Fail? && t.os.attached == s.os.attached
       case Waiting(h, _) =>
         && h != 0 && h != c.self && h !in me.pids && |me.pids| < MAX_THREADS
         && h in s.os.live && t.os.attached == s.os.attached + {h}
       case _ => false
  }

  lemma WalkShape(c: Config, s: State, marked: bool, attach: bool)
    requires ScanEnabled(c, s, Walk(marked, attach))
    ensures Walked(c, s, ApplyWalk(c, s, marked, attach))
  {
  }

  lemma ListWalked(c: Config, s: State, t: State)
    requires ListInv(c, s.me) && Walked(c, s, t)
    ensures ListInv(c, t.me)
  {
    ListSame(c, s.me, t.me);
  }

  lemma AttachWalked(c: Config, s: State, t: State)
    requires AttachInv(s.me, s.os.attached) && ArmInv(s.me) && Walked(c, s, t)
    ensures AttachInv(t.me, t.os.attached)
  {
    ToResumeAll(s.me.pids);
  }

  lemma ArmWalked(c: Config, s: State, t: State)
    requires ArmInv(s.me) && Walked(c, s, t)
    ensures ArmInv(t.me) && (LiveInv(c, s.os) ==> LiveInv(c, t.os))
  {
  }

  lemma CountWalked(c: Config, s: State, t: State)
    requires CountInv(s.me, s.pass) && Walked(c, s, t)
    ensures CountInv(t.me, t.pass)
  {
  }

  lemma PassWalk(c: Config, s: State, marked: bool, attach: bool)
    requires Inv(c, s) && ScanEnabled(c, s, Walk(marked, attach))
    ensures PassInv(ApplyWalk(c, s, marked, attach))
  {
  }

  lemma WalkKeeps(c: Config, s: State, marked: bool, attach: bool)
    requires Inv(c, s) && ScanEnabled(c, s, Walk(marked, attach))
    ensures Inv(c, ApplyWalk(c, s, marked, attach))
  {
    var t := ApplyWalk(c, s, marked, attach);
    WalkShape(c, s, marked, attach);
    ListWalked(c, s, t);
    AttachWalked(c, s, t);
    ArmWalked(c, s, t);
    CountWalked(c, s, t);
    PassWalk(c, s, marked, attach);
  }

  lemma ScanKeeps(c: Config, s: State, st: ScanStep)
    requires Inv(c, s) && ScanEnabled(c, s, st)
    ensures Inv(c, ApplyScan(c, s, st))
  {
    if st.Walk? {
      WalkKeeps(c, s, st.marked, st.attach);
    } else {
      ListStep(c, s, st);
      AttachStep(c, s, st);
      ArmStep(c, s, st);
      CountStep(c, s, st);
      LiveStep(c, s, st);
      PassStep(c, s, st);
    }
  }

  lemma EnvKeeps(c: Config, s: State, e: EnvStep)
    requires Inv(c, s) && EnvEnabled(c, s.os, e)
    ensures Inv(c, ApplyEnv(s, e))
  {
  }

  lemma CallbackKeeps(c: Config, s: State, st: CallbackStep)
    requires Inv(c, s) && CallbackEnabled(c, s, st)
    ensures Inv(c, ApplyCallback(c, s, st))
  {
    if !st.Scribble? {
      CallbackMoves(c, s, ApplyCallback(c, s, st));
    }
  }

  /** The callback moves on without touching the list or who is stopped. */
  lemma CallbackMoves(c: Config, s: State, t: State)
    requires Inv(c, s) && InCallback(s.me.pc) && InCallback(t.me.pc)
    requires t.me == s.me.(pc := t.me.pc) && t.os == s.os.(mem := t.os.mem) && t.pass == s.pass
    ensures Inv(c, t)
  {
  }

  lemma LeaveKeeps(c: Config, s: State, st: LeaveStep)
    requires Inv(c, s) && LeaveEnabled(s, st)
    ensures Inv(c, ApplyLeave(s, st))
  {
    match st {
      case Clear => ToResumeAll(s.me.pids);
      case ResumeOne => ResumeKeeps(c, s);
      case ResumeDone => ResumedKeeps(c, s);
      case _ =>
    }
  }

  lemma ResumedKeeps(c: Config, s: State)
    requires Inv(c, s) && LeaveEnabled(s, ResumeDone)
    ensures Inv(c, ApplyResumed(s))
  {
    assert s.me.pids[s.me.pc.i..] == [];
    assert s.os.attached == {};
    Moved(c, s, ApplyResumed(s));
  }

  /** The list goes along unchanged to a phase that promises nothing about a pass. */
  lemma Moved(c: Config, s: State, t: State)
    requires Inv(c, s) && t.os == s.os && t.pass == s.pass && t.me == s.me.(pc := t.me.pc)
    requires t.me.pc.Reaping? || t.me.pc.Done?
    ensures ListInv(c, t.me) && LiveInv(c, t.os) && CountInv(t.me, t.pass) && PassInv(t)
  {
  }

  lemma ResumeKeeps(c: Config, s: State)
    requires Inv(c, s) && LeaveEnabled(s, ResumeOne)
    ensures Inv(c, ApplyLeave(s, ResumeOne))
  {
    var t := ApplyLeave(s, ResumeOne);
    ResumeNext(c, s.me.pids, s.me.pc.i);
    ListSame(c, s.me, t.me);
  }

  lemma ResumeNext(c: Config, pids: seq<Tid>, i: nat)
    requires Siblings(c, pids) && i < |pids|
    ensures ToResume(pids, i) - {pids[i]} == ToResume(pids, i + 1)
  {
    assert pids[i..] == [pids[i]] + pids[i + 1..];
  }

  lemma CrashKeeps(c: Config, s: State, sig: nat)
    requires Inv(c, s) && !s.me.pc.Done?
    ensures Inv(c, ApplyCrash(s, sig))
  {
  }

  lemma StepKeeps(c: Config, s: State, st: Step)
    requires Inv(c, s) && Enabled(c, s, st)
    ensures Inv(c, Apply(c, s, st))
  {
    match st
    case Env(e) => EnvKeeps(c, s, e);
    case Scan(x) => ScanKeeps(c, s, x);
    case Callback(x) => CallbackKeeps(c, s, x);
    case Leaving(x) => LeaveKeeps(c, s, x);
    case InChild(_) => ElsewhereKeeps(c, s, Apply(c, s, st));
    case Crash(sig) => CrashKeeps(c, s, sig);
    case CallerWait(_, _) => ElsewhereKeeps(c, s, Apply(c, s, st));
  }

  /** What happens elsewhere does not matter. */
  lemma ElsewhereKeeps(c: Config, s: State, t: State)
    requires Inv(c, s) && t.os == s.os && t.me == s.me && t.pass == s.pass
    ensures Inv(c, t)
  {
  }

  lemma {:induction false} RunKeeps(c: Config, s: State, steps: seq<Step>, t: State)
    requires Inv(c, s) && Runs(c, s, steps, t)
    ensures Inv(c, t)
    decreases |steps|
  {
    if steps != [] {
      StepKeeps(c, s, steps[0]);
      RunKeeps(c, Apply(c, s, steps[0]), steps[1..], t);
    }
  }

  /** A run goes on. */
  lemma {:induction false} RunsThen(c: Config, s: State, steps: seq<Step>, t: State, st: Step)
    requires Runs(c, s, steps, t) && Enabled(c, t, st)
    ensures Runs(c, s, steps + [st], Apply(c, t, st))
    decreases |steps|
  {
    if steps == [] {
      assert (steps + [st])[1..] == [];
      assert Runs(c, Apply(c, t, st), [], Apply(c, t, st));
    } else {
      RunsThen(c, Apply(c, s, steps[0]), steps[1..], t, st);
      assert (steps + [st])[1..] == steps[1..] + [st];
    }
  }

  lemma Always(c: Config, t: State)
    requires Reachable(c, t)
    ensures Inv(c, t)
  {
    var s, steps :| Init(c, s) && Runs(c, s, steps, t);
    RunKeeps(c, s, steps, t);
  }

  // ---- Whom the list holds ----

  lemma VetScan(c: Config, s: State, st: ScanStep)
    requires VettedInv(c, s.me) && ScanEnabled(c, s, st)
    ensures VettedInv(c, ApplyScan(c, s, st).me)
  {
    match st {
      case Record => VetRecord(c, s);
      case Publish => VetPublish(c, s);
      case Walk(marked, attach) => VetWalk(c, s, marked, attach);
      case _ =>
    }
  }

  lemma VetWalk(c: Config, s: State, marked: bool, attach: bool)
    requires VettedInv(c, s.me) && ScanEnabled(c, s, Walk(marked, attach))
    ensures VettedInv(c, ApplyWalk(c, s, marked, attach).me)
  {
    WalkShape(c, s, marked, attach);
  }

  lemma VetRecord(c: Config, s: State)
    requires VettedInv(c, s.me) && ScanEnabled(c, s, Record)
    ensures VettedInv(c, ApplyScan(c, s, Record).me)
  {
    var next := ApplyScan(c, s, Record).me;
    assert Counted(next) == s.me.pids;
  }

  lemma VetPublish(c: Config, s: State)
    requires VettedInv(c, s.me) && ScanEnabled(c, s, Publish)
    ensures VettedInv(c, ApplyScan(c, s, Publish).me)
  {
    var next := ApplyScan(c, s, Publish).me;
    if !next.crashed {
      assert next.pids == Counted(s.me) + [s.me.pc.tid];
    }
  }

  lemma VetCallback(c: Config, s: State, st: CallbackStep)
    requires VettedInv(c, s.me) && CallbackEnabled(c, s, st)
    ensures VettedInv(c, ApplyCallback(c, s, st).me)
  {
  }

  lemma VetLeave(c: Config, s: State, st: LeaveStep)
    requires VettedInv(c, s.me) && LeaveEnabled(s, st)
    ensures VettedInv(c, ApplyLeave(s, st).me)
  {
    match st {
      case ResumeDone => VetResumed(c, s);
      case _ =>
    }
  }

  lemma VetResumed(c: Config, s: State)
    requires VettedInv(c, s.me) && LeaveEnabled(s, ResumeDone)
    ensures VettedInv(c, ApplyResumed(s).me)
  {
  }

  lemma VetStep(c: Config, s: State, st: Step)
    requires VettedInv(c, s.me) && Enabled(c, s, st)
    ensures VettedInv(c, Apply(c, s, st).me)
  {
    match st
    case Scan(x) => VetScan(c, s, x);
    case Callback(x) => VetCallback(c, s, x);
    case Leaving(x) => VetLeave(c, s, x);
    case _ =>
  }

  lemma {:induction false} RunVets(c: Config, s: State, steps: seq<Step>, t: State)
    requires VettedInv(c, s.me) && Runs(c, s, steps, t)
    ensures VettedInv(c, t.me)
    decreases |steps|
  {
    if steps != [] {
      VetStep(c, s, steps[0]);
      RunVets(c, Apply(c, s, steps[0]), steps[1..], t);
    }
  }

  lemma AlwaysVetted(c: Config, t: State)
    requires Reachable(c, t)
    ensures VettedInv(c, t.me)
  {
    var s, steps :| Init(c, s) && Runs(c, s, steps, t);
    RunVets(c, s, steps, t);
  }

  /** Whether there is a dump depends on one thing, whether the parent got attached: a scan that ends with the parent on
      the list goes on to the callback, and one that ends without it resumes everybody and exits with code 3. */
  lemma ParentDecides(c: Config, s: State)
    requires Reachable(c, s) && s.me.pc.ScanDone?
    ensures
      Apply(c, s, Scan(Decide)).me.pc == if c.ppid in s.me.pids then Calling else Resuming(0, NotFound)
  {
    Always(c, s);
    AlwaysVetted(c, s);
  }

  /** So exit code 3 means that the parent was not attached, and exit code 0, or a callback at work, that it was. */
  lemma ParentAtExit(c: Config, t: State)
    requires Reachable(c, t) && !t.me.crashed
    ensures t.me.pc == Done(Exit(3)) ==> c.ppid !in t.me.pids
    ensures t.me.pc == Done(Exit(0)) || InCallback(t.me.pc) ==> c.ppid in t.me.pids
  {
    AlwaysVetted(c, t);
  }

  /** Only one kind of step stops a thread: looking at a directory entry that names a thread with the marker, neither
      the lister nor one already recorded. */
  lemma OnlyMarkedAttached(c: Config, s: State, st: Step, h: Tid)
    requires Enabled(c, s, st) && h !in s.os.attached && h in Apply(c, s, st).os.attached
    ensures st == Scan(Walk(true, true)) && s.me.pc.Walking? && s.me.pc.rest != [] && s.me.pc.rest[0] == h
    ensures h != 0 && h != c.self && h !in s.me.pids && |s.me.pids| < 4096
  {
  }

  /** No thread of another memory is ever recorded, such as one of a forked copy that shows the same marker. */
  lemma OnlySharersRecorded(c: Config, t: State, i: nat)
    requires Reachable(c, t) && i < |t.me.pids|
    ensures c.shares(t.me.pids[i])
  {
    AlwaysVetted(c, t);
  }

  // ---- What holds in every run ----

  /** The recorded threads are distinct siblings within capacity, and every pass but the last recorded a new one. */
  lemma ListSound(c: Config, t: State)
    requires Reachable(c, t)
    ensures
      var pids := t.me.pids;
      && (forall i | 0 <= i < |pids| :: pids[i] != 0 && pids[i] != c.self)
      && (forall i, j | 0 <= i < j < |pids| :: pids[i] != pids[j])
      && |pids| <= 4096 && t.pass.count <= |pids| + 1
  {
    Always(c, t);
  }

  /** However it ends, a lister that does not crash leaves nobody stopped. */
  lemma NobodyLeftStopped(c: Config, t: State)
    requires Reachable(c, t) && t.me.pc.Done? && !t.me.crashed
    ensures t.os.attached == {} && t.me.pc.status in {Exit(0), Exit(1), Exit(3)}
  {
    Always(c, t);
  }

  /** If in the last pass no live sibling failed to attach and none exited unstopped, then while the callback runs
      every live sibling is stopped and recorded, among them the thread that asked for the dump. */
  lemma ScanFixpoint(c: Config, t: State)
    requires Reachable(c, t) && InCallback(t.me.pc) && !t.pass.missed && !t.pass.exited
    ensures t.os.live == t.os.attached == Elems(t.me.pids) && c.ppid in t.me.pids
  {
    Always(c, t);
    ParentAtExit(c, t);
  }

  /** The threads a crash leaves stopped: the one not yet published while the list is growing, nobody while the
      callback runs or a failed scan is undone, and everybody not yet resumed once the list has been cleared. */
  function LeftByCrash(me: Locals): set<Tid> {
    if me.pc.Resuming? && !me.pc.after.Fail? then ToResume(me.pids, me.pc.i) else Unpublished(me.pc)
  }

  lemma CrashSafety(c: Config, s: State, sig: nat)
    requires Reachable(c, s) && !s.me.pc.Done?
    ensures
      var t, left := ApplyCrash(s, sig), LeftByCrash(s.me);
      && t.os.attached == left && left <= s.os.attached
      && (if sig == SIGABRT && s.me.armed && s.me.installed
          then t.os.live == s.os.live - (s.os.attached - left)
          else t.os.live == s.os.live)
      && (InCallback(s.me.pc) || s.me.pc.ScanDone? ==> left == {})
      && t.me.pc == Done(if !s.me.installed then Killed(sig) else if sig == 6 then Exit(1) else Exit(2))
      && (s.me.installed ==> !t.me.armed)
  {
    Always(c, s);
    PublishedIsList(c, s);
  }

  /** What the handler reaches is every stopped thread but the unpublished one. */
  lemma PublishedIsList(c: Config, s: State)
    requires Inv(c, s) && !s.me.pc.Done?
    ensures s.os.attached - Published(s.me) == LeftByCrash(s.me)
  {
    var me := s.me;
    if Holding(me.pc) {
      PublishedPrefix(me);
      PrefixElems(me.pids, me.sigNum);
    } else if me.pc.Resuming? {
      assert me.armed ==> Published(me) == Elems(me.pids) by {
        if me.armed {
          PublishedPrefix(me);
          assert me.pids[..me.sigNum] == me.pids;
        }
      }
    }
  }

  lemma PublishedPrefix(me: Locals)
    requires me.armed && me.installed && me.sigNum <= |me.pids|
    ensures Published(me) == Elems(me.pids[..me.sigNum])
  {
    var n := me.sigNum;
    forall x | x in me.pids[..n]
      ensures x in Published(me)
    {
      var i :| 0 <= i < n && me.pids[..n][i] == x;
      assert me.pids[i] == x;
    }
    forall x | x in Published(me)
      ensures x in me.pids[..n]
    {
      var i :| 0 <= i < n && me.pids[i] == x;
      assert me.pids[..n][i] == x;
    }
  }

  lemma PrefixElems(pids: seq<Tid>, n: nat)
    requires n <= |pids| <= n + 1
    ensures n == |pids| ==> pids[..n] == pids
    ensures n < |pids| ==> Elems(pids) == Elems(pids[..n]) + {pids[n]}
  {
    if n < |pids| {
      assert pids == pids[..n] + [pids[n]];
    }
  }

  /** A failed scan resumes everybody and leaves the crash list armed; the other endings clear it. */
  lemma CrashListAtExit(c: Config, t: State)
    requires Reachable(c, t) && t.me.pc.Done? && !t.me.crashed && t.me.installed
    ensures t.me.armed <==> t.me.pc.status == Exit(1)
  {
    Always(c, t);
  }
}
