/** The lister as a program: its loops and variables, with the kernel, the siblings and the snapshot child acting
    between its steps. Every execution is a run of the transition system, so whatever holds in all runs holds of it. */
module ListerProgram {
  import opened Bytes
  import opened Kernel
  import opened Lister
  import opened ListerSafety
  import opened ListerResult

  datatype DirRead = Entries(tids: seq<Tid>) | EndOfDir | Retry | DirError(errno: int)

  /** Registers and memory contents for whoever wants to write some: an arbitrary supply. `words` is what a thread of
      another memory holds where the lister has its own word. */
  datatype Supply = Supply(regs: nat -> ThreadRegs, mems: nat -> Content, words: Tid -> int)

  function WithRegs(regs: Tid -> ThreadRegs, t: Tid, r: ThreadRegs): Tid -> ThreadRegs {
    (u: Tid) => if u == t then r else regs(u)
  }

  /** `mem` with the owned part taken from `other`. */
  function Blend(owned: nat -> bool, mem: Content, other: Content): Content {
    (x: nat) => if owned(x) then other(x) else mem(x)
  }

  /** What siblings, child and the lister's own writes leave alone: everything the lister decides on. */
  ghost predicate Undisturbed(s0: State, s: State) {
    && s.me == s0.me && s.pass.added == s0.pass.added && s.dump == s0.dump.(out := s.dump.out)
    && (s.child.Child? <==> s0.child.Child?) && s.params == s0.params && s.snapshotChild == s0.snapshotChild
    && s.answer == s0.answer
  }

  /** The process under dump, seen from the lister's system calls. */
  class Process {
    const c: Config
    const supply: Supply
    ghost const start: State
    var s: State
    ghost var trace: seq<Step>
    /** How many more directory reads can succeed or be interrupted. */
    var budget: nat
    /** Whether every system call that can succeed does. */
    const obliging: bool

    constructor (c: Config, start: State, supply: Supply, budget: nat, obliging: bool)
      requires Init(c, start)
      ensures Valid() && s == start && this.c == c && this.obliging == obliging
    {
      this.c, this.start, this.supply, s, trace, this.budget := c, start, supply, start, [], budget;
      this.obliging := obliging;
    }

    ghost predicate Valid()
      reads this
    {
      Init(c, start) && Runs(c, start, trace, s)
    }

    lemma IsReachable()
      requires Valid()
      ensures Reachable(c, s) && Inv(c, s) && VettedInv(c, s.me) && ResultInv(s)
    {
      Always(c, s);
      AlwaysVetted(c, s);
      AlwaysJudged(c, s);
    }

    lemma EndsClean(code: nat)
      requires Valid() && s.me.pc == Done(Exit(code)) && !s.me.crashed
      ensures s.os.attached == {}
    {
      IsReachable();
    }

    method Take(st: Step)
      requires Valid() && Enabled(c, s, st)
      modifies this
      ensures Valid() && s == Apply(c, old(s), st) && budget == old(budget)
    {
      RunsThen(c, start, trace, s, st);
      trace := trace + [st];
      s := Apply(c, s, st);
    }

    /** Siblings that are not stopped spawn, write and exit, the child writes and ends, and the lister's own memory
        changes, as often as they like; the lister only knows what they cannot do. */
    method Meanwhile()
      requires Valid()
      modifies this
      ensures Valid() && budget == old(budget) && Undisturbed(old(s), s)
    {
      var rounds: nat :| 0 <= rounds;
      for i := 0 to rounds
        invariant Valid() && budget == old(budget) && Undisturbed(old(s), s)
      {
        var what: int := *;
        if what == 0 {
          SiblingActs();
        } else if what == 1 {
          ChildActs();
        } else if !s.me.pc.Done? {
          var k: nat :| 0 <= k;
          Take(Callback(Scribble(Blend(c.owned, s.os.mem, supply.mems(k)))));
        }
      }
    }

    /** A sibling that is not stopped does something. */
    method SiblingActs()
      requires Valid()
      modifies this
      ensures Valid() && budget == old(budget) && Undisturbed(old(s), s)
    {
      var t: Tid, u: Tid, k: nat :| 0 <= t && 0 <= u && 0 <= k;
      var what: int := *;
      if Running(s.os, t) {
        if what == 0 {
          Take(Env(Work(t, supply.mems(k), WithRegs(s.os.regs, t, supply.regs(k)))));
        } else if what == 1 {
          Take(Env(Leave(t)));
        } else if u !in s.os.live && u != 0 && u != c.self {
          Take(Env(Spawn(t, u)));
        }
      }
    }

    /** The snapshot child, if it is there, does something. */
    method ChildActs()
      requires Valid()
      modifies this
      ensures Valid() && budget == old(budget) && Undisturbed(old(s), s)
      ensures old(s).child.Child? && old(s).child.status.Some? ==> s.child == old(s).child
    {
      var what: int := *;
      var k: nat :| 0 <= k;
      if s.child.NoChild? || s.child.status.Some? {
        return;
      }
      if what == 0 {
        Take(InChild(ChildScribble(Blend(c.owned, s.child.mem, supply.mems(k)))));
      } else if what == 1 && s.child.armed {
        Take(InChild(Disarm));
      } else if what == 2 && !s.child.armed {
        Take(InChild(ChildEmit(k)));
      } else if what == 3 {
        ChildEnds();
      }
    }

    /** The snapshot child comes to some end. */
    method ChildEnds()
      requires Valid() && s.child.Child? && s.child.status.None?
      modifies this
      ensures Valid() && budget == old(budget) && Undisturbed(old(s), s) && s.child.Child? && s.child.status.Some?
    {
      var what: int, ok: bool := *, *;
      var sig: nat :| 0 < sig < 127;
      if what == 0 && !s.child.armed {
        Take(InChild(ChildExit(ok)));
      } else if what == 1 {
        Take(InChild(ChildKilled(sig)));
      } else {
        Take(InChild(ChildCrash(sig)));
      }
    }

    /** Whether a system call succeeds. */
    method Succeeds() returns (ok: bool)
      ensures obliging ==> ok
    {
      ok := *;
      if obliging {
        ok := true;
      }
    }

    /** `PTRACE_PEEKDATA` at the address of the lister's own `word`: a thread that shares its memory shows that word,
        and any other what its own memory has there, which does not change while it is stopped. */
    method Peek(word: int) returns (r: Option<int>)
      requires Valid() && s.me.pc.Waiting?
      modifies this
      ensures Valid() && budget == old(budget) && Undisturbed(old(s), s) && (obliging ==> r.Some?)
      ensures r.Some? ==> r.value == if c.shares(s.me.pc.tid) then word else supply.words(s.me.pc.tid)
    {
      var ok := Succeeds();
      Meanwhile();
      if !ok {
        return None;
      }
      return Some(if c.shares(s.me.pc.tid) then word else supply.words(s.me.pc.tid));
    }

    /** `getdents`. */
    method ReadDirectory() returns (r: DirRead)
      requires Valid() && s.me.pc.Reading?
      modifies this
      ensures Valid() && s.pass.added == old(s.pass.added) && budget <= old(budget)
      ensures
        match r
        case Entries(tids) =>
          s.me == old(s.me).(pc := Walking(tids)) && budget < old(budget) && s.params == old(s.params)
        case EndOfDir =>
          s.me == old(s.me).(pc := if s.pass.added == 0 then ScanDone else NewPass) && s.params == old(s.params)
        case Retry => s.me == old(s.me) && budget < old(budget) && s.params == old(s.params)
        case DirError(errno) => s.me == old(s.me).(pc := Resuming(0, Fail)) && s.params == Params(-1, errno)
    {
      var what: int, errno: int := *, *;
      Meanwhile();
      if s.pass.stayed <= s.pass.listed && what == 0 {
        Take(Scan(EndOfDirectory));
        return EndOfDir;
      }
      if budget > 0 && what == 1 {
        budget := budget - 1;
        return Retry;
      }
      if budget > 0 && what == 2 {
        var tids: seq<Tid> := *;
        budget := budget - 1;
        Take(Scan(Batch(tids)));
        return Entries(tids);
      }
      Take(Scan(DirFails(errno)));
      return DirError(errno);
    }

    /** `wait4` on the pid in `Reaping`: it fails, or the child has come to an end, or a pid that is no child of this
        dump yields some status. */
    method WaitForChild() returns (r: SysResult)
      requires Valid() && s.me.pc.Reaping?
      modifies this
      ensures Valid() && s.me == old(s.me).(pc := Done(Exit(0)))
      ensures s.answer == old(s.answer) && s.pass.added == old(s.pass.added)
      ensures s.params == if r.Err? then Params(-1, r.errno) else FoldChild(old(s.params), r.n)
    {
      var failed: bool, errno: int := *, *;
      var sig: nat :| 0 < sig < 127;
      Meanwhile();
      if failed && errno != EINTR {
        Take(Leaving(ReapFails(errno)));
        return Err(errno);
      }
      if s.child.NoChild? {
        var exited: bool, code: nat :| code < 256;
        var w := if exited then Exit(code) else Killed(sig);
        Take(Leaving(ReapForeign(w)));
        return Ok(Encoded(w));
      }
      if s.child.status.None? {
        ChildEnds();
      }
      var w := s.child.status.value;
      Take(Leaving(ReapOk));
      return Ok(Encoded(w));
    }
  }

  /** The lister thread's own variables, and the parameter block it shares with the caller. */
  class ListerThread {
    const k: Process
    const params: ParamBlock
    const pids: array<Tid>
    var numThreads: nat
    var foundParent: bool
    var added: nat

    constructor (k: Process, params: ParamBlock)
      ensures this.k == k && this.params == params && fresh(pids) && Fresh()
    {
      this.k, this.params, pids, numThreads, foundParent, added := k, params, new Tid[MAX_THREADS](_ => 0), 0, false, 0;
    }

    ghost predicate Fresh()
      reads this
    {
      pids.Length == MAX_THREADS && numThreads == 0 && !foundParent && added == 0
    }

    /** The variables say what the transition system says. */
    ghost predicate Coupled()
      reads this, k, pids, params
    {
      && k.Valid() && !k.s.me.crashed && k.s.answer.None? && params.Value() == k.s.params
      && pids.Length == MAX_THREADS && numThreads <= MAX_THREADS
      && pids[..numThreads] == k.s.me.pids && foundParent == k.s.me.found && added == k.s.pass.added
    }

    predicate Listed(pid: Tid)
      reads this, pids
      requires numThreads <= pids.Length
    {
      pid in pids[..numThreads]
    }

    /** `attach_and_verify`: attach, wait for the stop, and look twice through the tracee at the lister's own word. A
        thread that runs in another memory never passes; one that shares the lister's does unless a call fails. */
    method AttachAndVerify(marked: bool) returns (ok: bool)
      requires Coupled() && k.s.me.pc.Walking? && k.s.me.pc.rest != [] && numThreads < MAX_THREADS
      requires Candidate(k.c, k.s.me, k.s.me.pc.rest[0], marked)
      modifies k
      ensures Coupled() && k.budget == old(k.budget)
      ensures
        var h, rest := old(k.s.me.pc.rest[0]), old(k.s.me.pc.rest[1..]);
        && k.s.me == old(k.s.me).(pc := if ok then Verified(h, rest) else Walking(rest))
        && (ok ==> k.c.shares(h)) && (k.obliging && k.c.shares(h) && !ok ==> !Running(k.s.os, h))
    {
      ok := Attach(marked);
      if ok {
        ok := Verify();
      }
    }

    method Attach(marked: bool) returns (ok: bool)
      requires Coupled() && k.s.me.pc.Walking? && k.s.me.pc.rest != [] && numThreads < MAX_THREADS
      requires Candidate(k.c, k.s.me, k.s.me.pc.rest[0], marked)
      modifies k
      ensures Coupled() && k.budget == old(k.budget)
      ensures
        var h, rest := old(k.s.me.pc.rest[0]), old(k.s.me.pc.rest[1..]);
        && k.s.me == old(k.s.me).(pc := if ok then Waiting(h, rest) else Walking(rest))
        && (k.obliging && !ok ==> !Running(k.s.os, h))
    {
      var attach := k.Succeeds();
      k.Meanwhile();
      ok := attach && Running(k.s.os, k.s.me.pc.rest[0]);
      k.Take(Scan(Walk(marked, ok)));
    }

    /** The wait and the two peeks, at a word that changes in between; any failure detaches. */
    method Verify() returns (ok: bool)
      requires Coupled() && k.s.me.pc.Waiting?
      modifies k
      ensures Coupled() && k.budget == old(k.budget)
      ensures
        var h, rest := old(k.s.me.pc.tid), old(k.s.me.pc.rest);
        && k.s.me == old(k.s.me).(pc := if ok then Verified(h, rest) else Walking(rest))
        && (ok ==> k.c.shares(h)) && (k.obliging && k.c.shares(h) ==> ok)
    {
      ok := k.Succeeds();
      k.Meanwhile();
      if ok {
        ok := PeekTwice();
      }
      k.Take(Scan(if ok then VerifyOk else VerifyFails));
    }

    method PeekTwice() returns (ok: bool)
      requires Coupled() && k.s.me.pc.Waiting?
      modifies k
      ensures Coupled() && k.budget == old(k.budget) && k.s.me == old(k.s.me)
      ensures (ok ==> k.c.shares(k.s.me.pc.tid)) && (k.obliging && k.c.shares(k.s.me.pc.tid) ==> ok)
    {
      var i := 0;
      ok := PeekAgrees(i);
      if ok {
        i := i + 1;
        ok := PeekAgrees(i);
      }
    }

    /** One peek, and whether it shows the lister's word. */
    method PeekAgrees(word: int) returns (ok: bool)
      requires Coupled() && k.s.me.pc.Waiting?
      modifies k
      ensures Coupled() && k.budget == old(k.budget) && k.s.me == old(k.s.me)
      ensures ok ==> k.c.shares(k.s.me.pc.tid) || k.supply.words(k.s.me.pc.tid) == word
      ensures k.obliging && k.c.shares(k.s.me.pc.tid) ==> ok
    {
      var seen := k.Peek(word);
      return seen == Some(word);
    }

    /** Put a verified thread on the list, then publish it. */
    method RecordAndPublish()
      requires Coupled() && k.s.me.pc.Verified? && numThreads < MAX_THREADS
      modifies this, k, pids
      ensures Coupled() && k.budget == old(k.budget) && numThreads == old(numThreads) + 1 && added == old(added) + 1
      ensures pids[..numThreads] == old(pids[..numThreads]) + [old(k.s.me.pc.tid)]
      ensures k.s.me.pc == Walking(old(k.s.me.pc.rest)) && (foundParent <==> k.c.ppid in pids[..numThreads])
    {
      var pid := k.s.me.pc.tid;
      RecordThread(pid);
      k.Meanwhile();
      k.Take(Scan(Publish));
      if pid == k.c.ppid {
        foundParent := true;
      }
      added := added + 1;
      FoundIsListed();
    }

    lemma FoundIsListed()
      requires Coupled() && !k.s.me.pc.Recorded?
      ensures foundParent <==> k.c.ppid in pids[..numThreads]
    {
      k.IsReachable();
    }

    method RecordThread(pid: Tid)
      requires Coupled() && k.s.me.pc.Verified? && k.s.me.pc.tid == pid && numThreads < MAX_THREADS
      modifies this`numThreads, k, pids
      ensures Coupled() && k.budget == old(k.budget) && numThreads == old(numThreads) + 1
      ensures k.s.me == old(k.s.me).(pc := Recorded(pid, old(k.s.me.pc.rest)), pids := old(k.s.me.pids) + [pid])
    {
      pids[numThreads] := pid;
      numThreads := numThreads + 1;
      k.Take(Scan(Record));
    }

    /** One directory entry: skip it, attach it, or give up because the list is full. */
    method Examine() returns (full: bool)
      requires Coupled() && k.s.me.pc.Walking? && k.s.me.pc.rest != []
      modifies this, k, pids, params
      ensures Coupled() && k.budget == old(k.budget)
      ensures full ==> k.s.me.pc == Resuming(0, Fail) && k.s.params == Params(-1, ENOMEM)
      ensures !full ==> k.s.me.pc == Walking(old(k.s.me.pc.rest[1..]))
      ensures numThreads + old(added) == old(numThreads) + added && added >= old(added)
    {
      var marked: bool := *;
      var pid := k.s.me.pc.rest[0];
      if pid == 0 || pid == k.c.self || Listed(pid) || !marked {
        SkipEntry(marked);
        return false;
      }
      if numThreads >= MAX_THREADS {
        Overflow(marked);
        return true;
      }
      AttachAndRecord(marked);
      return false;
    }

    /** Pass over an entry that is no candidate. */
    method SkipEntry(marked: bool)
      requires Coupled() && k.s.me.pc.Walking? && k.s.me.pc.rest != []
      requires !Candidate(k.c, k.s.me, k.s.me.pc.rest[0], marked)
      modifies k
      ensures Coupled() && k.budget == old(k.budget) && k.s.me.pc == Walking(old(k.s.me.pc.rest[1..]))
    {
      k.Take(Scan(Walk(marked, false)));
    }

    /** The list is full. */
    method Overflow(marked: bool)
      requires Coupled() && k.s.me.pc.Walking? && k.s.me.pc.rest != [] && numThreads >= MAX_THREADS
      requires Candidate(k.c, k.s.me, k.s.me.pc.rest[0], marked)
      modifies k, params
      ensures Coupled() && k.budget == old(k.budget)
      ensures k.s.me.pc == Resuming(0, Fail) && k.s.params == Params(-1, ENOMEM)
    {
      k.Take(Scan(Walk(marked, false)));
      params.Fail(ENOMEM);
    }

    /** Attach a candidate and, if that works, put it on the list. */
    method AttachAndRecord(marked: bool)
      requires Coupled() && k.s.me.pc.Walking? && k.s.me.pc.rest != [] && numThreads < MAX_THREADS
      requires Candidate(k.c, k.s.me, k.s.me.pc.rest[0], marked)
      modifies this, k, pids
      ensures Coupled() && k.budget == old(k.budget) && k.s.me.pc == Walking(old(k.s.me.pc.rest[1..]))
      ensures numThreads + old(added) == old(numThreads) + added && added >= old(added)
    {
      var ok := AttachAndVerify(marked);
      if ok {
        RecordAndPublish();
      }
    }

    /** The entries of one buffer. */
    method WalkEntries() returns (full: bool)
      requires Coupled() && k.s.me.pc.Walking?
      modifies this, k, pids, params
      ensures Coupled() && k.budget == old(k.budget)
      ensures full ==> k.s.me.pc == Resuming(0, Fail) && k.s.params == Params(-1, ENOMEM)
      ensures !full ==> k.s.me.pc == Reading
      ensures numThreads + old(added) == old(numThreads) + added && added >= old(added)
    {
      while k.s.me.pc.rest != []
        invariant Coupled() && k.budget == old(k.budget) && k.s.me.pc.Walking?
        invariant numThreads + old(added) == old(numThreads) + added && added >= old(added)
        decreases |k.s.me.pc.rest|
      {
        full := Examine();
        if full {
          return;
        }
      }
      k.Take(Scan(Walk(false, false)));
      return false;
    }

    /** One pass over the directory; `None` unless it has to be given up. */
    method ScanPass() returns (failed: Option<int>)
      requires Coupled() && k.s.me.pc.NewPass?
      modifies this, k, pids, params
      ensures Coupled() && numThreads == old(numThreads) + added
      ensures failed.Some? ==> k.s.me.pc == Resuming(0, Fail) && k.s.params == Params(-1, failed.value)
      ensures failed.None? ==> k.s.me.pc == if added == 0 then ScanDone else NewPass
    {
      added := 0;
      k.Take(Scan(StartPass));
      while k.s.me.pc.Reading?
        invariant Coupled() && numThreads == old(numThreads) + added
        invariant k.s.me.pc == Reading || k.s.me.pc == if added == 0 then ScanDone else NewPass
        decreases k.budget, k.s.me.pc.Reading?
      {
        failed := ReadAndWalk();
        if failed.Some? {
          return;
        }
      }
      return None;
    }

    /** One directory read and what it brings. */
    method ReadAndWalk() returns (failed: Option<int>)
      requires Coupled() && k.s.me.pc.Reading?
      modifies this, k, pids, params
      ensures Coupled() && numThreads + old(added) == old(numThreads) + added && added >= old(added)
      ensures failed.Some? ==> k.s.me.pc == Resuming(0, Fail) && k.s.params == Params(-1, failed.value)
      ensures failed.None? ==>
        if k.s.me.pc.Reading? then k.budget < old(k.budget)
        else k.budget <= old(k.budget) && k.s.me.pc == if added == 0 then ScanDone else NewPass
    {
      var r := k.ReadDirectory();
      k.IsReachable();
      match r
      case EndOfDir =>
        return None;
      case Retry =>
        return None;
      case DirError(errno) =>
        params.Fail(errno);
        return Some(errno);
      case Entries(_) =>
        var full := WalkEntries();
        return if full then Some(ENOMEM) else None;
    }

    /** The multi-pass scan: repeat until a pass adds nobody. It ends because the list only grows. */
    method ScanAll() returns (failed: Option<int>)
      requires Coupled() && k.s.me.pc.NewPass?
      modifies this, k, pids, params
      ensures Coupled()
      ensures failed.Some? ==> k.s.me.pc == Resuming(0, Fail) && k.s.params == Params(-1, failed.value)
      ensures failed.None? ==> k.s.me.pc == ScanDone
    {
      while k.s.me.pc.NewPass?
        invariant Coupled() && (k.s.me.pc.NewPass? || k.s.me.pc.ScanDone?)
        decreases MAX_THREADS - numThreads, k.s.me.pc.NewPass?
      {
        failed := ScanPass();
        if failed.Some? {
          return;
        }
      }
      return None;
    }

    /** `resume_all_process_threads` on the list. */
    method ResumeAll()
      requires Coupled() && k.s.me.pc.Resuming? && k.s.me.pc.i == 0
      modifies k
      ensures Coupled() && k.s.me == old(k.s.me).(pc := Resuming(numThreads, old(k.s.me.pc.after)))
      ensures k.s.os.attached == {}
    {
      for i := 0 to numThreads
        invariant Coupled() && k.s.me == old(k.s.me).(pc := Resuming(i, old(k.s.me.pc.after)))
      {
        ResumeNext();
      }
      NobodyLeft();
    }

    lemma NobodyLeft()
      requires Coupled() && k.s.me.pc.Resuming? && k.s.me.pc.i == numThreads
      ensures k.s.os.attached == {}
    {
      k.IsReachable();
      assert ToResume(k.s.me.pids, numThreads) == {};
    }

    method ResumeNext()
      requires Coupled() && k.s.me.pc.Resuming? && k.s.me.pc.i < numThreads
      modifies k
      ensures Coupled() && k.s.me == old(k.s.me).(pc := Resuming(old(k.s.me.pc.i) + 1, old(k.s.me.pc.after)))
    {
      k.Meanwhile();
      k.Take(Leaving(ResumeOne));
    }

    /** The user's callback, if there is one; `false` if it calls the dump off. */
    method CallUser() returns (ok: bool)
      requires Coupled() && k.s.me.pc == Calling
      modifies k
      ensures Coupled() && k.s.me == old(k.s.me).(pc := if ok then Capturing(0) else Returned)
      ensures (!k.c.callback ==> ok) && (k.s.child.Child? <==> old(k.s.child.Child?))
    {
      k.Meanwhile();
      if !k.c.callback {
        k.Take(Callback(NoCallback));
        return true;
      }
      var go: bool := *;
      var m: nat :| 0 <= m;
      k.Take(Callback(UserCallback(k.supply.mems(m), go)));
      return go;
    }

    /** `capture_dump`: the user's callback, then the registers of the first threads; `false` if either fails. */
    method Capture() returns (ok: bool)
      requires Coupled() && k.s.me.pc == Calling
      modifies k
      ensures Coupled() && k.s.me == old(k.s.me).(pc := if ok then Forking else Returned)
      ensures (k.obliging && !k.c.callback ==> ok) && (k.s.child.Child? <==> old(k.s.child.Child?))
    {
      ok := CallUser();
      if !ok {
        return;
      }
      var n := Min(numThreads, MAX_DUMP_THREADS);
      for i := 0 to n
        invariant Coupled() && k.s.me == old(k.s.me).(pc := Capturing(i))
        invariant k.s.child.Child? <==> old(k.s.child.Child?)
      {
        ok := CaptureNext();
        if !ok {
          return;
        }
      }
      k.Take(Callback(CaptureDone));
      return true;
    }

    /** The registers of one thread. */
    method CaptureNext() returns (ok: bool)
      requires Coupled() && k.s.me.pc.Capturing? && k.s.me.pc.k < Min(numThreads, MAX_DUMP_THREADS)
      modifies k
      ensures Coupled() && (k.obliging ==> ok) && (k.s.child.Child? <==> old(k.s.child.Child?))
      ensures k.s.me == old(k.s.me).(pc := if ok then Capturing(old(k.s.me.pc.k) + 1) else Returned)
    {
      var regs := k.Succeeds();
      var fp := k.Succeeds();
      k.Meanwhile();
      if !regs {
        k.Take(Callback(CaptureFails));
        return false;
      }
      k.Take(Callback(CaptureOne(fp)));
      return true;
    }

    /** `dump_callback`: capture, then fork, or write in-line if that fails or is not wanted. */
    method DumpCallback()
      requires Coupled() && k.s.me.pc == Calling
      modifies k
      ensures Coupled() && k.s.me == old(k.s.me).(pc := Returned)
      ensures k.s.child.Child? ==> k.c.forkSnapshot
      ensures k.obliging && !k.c.callback ==>
        if k.c.forkSnapshot then k.s.child.Child? else k.s.child.NoChild? && k.s.dump.inlineOk.Some?
    {
      NoChildYet();
      var fork := k.Succeeds();
      var pid: Tid :| pid > 0;
      var captured := Capture();
      if !captured {
        return;
      }
      if k.c.forkSnapshot && fork {
        ForkChild(pid);
      } else {
        k.Take(Callback(ForkFails));
        WriteInline();
      }
    }

    lemma NoChildYet()
      requires Coupled() && k.s.me.pc == Calling
      ensures k.s.child.NoChild?
    {
      k.IsReachable();
    }

    /** Fork the snapshot child and announce it. */
    method ForkChild(pid: Tid)
      requires Coupled() && k.s.me.pc == Forking && k.c.forkSnapshot && pid > 0
      modifies k
      ensures Coupled() && k.s.me == old(k.s.me).(pc := Returned) && k.s.child.Child?
    {
      k.Take(Callback(Fork(pid)));
      k.Meanwhile();
      k.Take(Callback(SetChild));
    }

    /** The in-line serializer reads memory, one address after another, and reports how it went. */
    method WriteInline()
      requires Coupled() && k.s.me.pc == Inline
      modifies k
      ensures Coupled() && k.s.me == old(k.s.me).(pc := Returned)
      ensures k.s.dump.inlineOk.Some? && (k.s.child.Child? <==> old(k.s.child.Child?))
    {
      var ok: bool := *;
      var left: nat :| left >= 0;
      while left > 0
        invariant Coupled() && k.s.me == old(k.s.me) && (k.s.child.Child? <==> old(k.s.child.Child?))
      {
        var a: nat :| a >= 0;
        k.Meanwhile();
        k.Take(Callback(Emit(a)));
        left := left - 1;
      }
      k.Take(Callback(InlineDone(ok)));
    }

    /** Everything after the scan. */
    method Finish() returns (code: nat)
      requires Coupled() && k.s.me.pc.ScanDone?
      modifies k, params
      ensures Coupled() && k.s.me.pc == Done(Exit(code)) && code == if k.c.ppid in pids[..numThreads] then 0 else 3
    {
      FoundIsListed();
      k.Meanwhile();
      k.Take(Scan(Decide));
      if !foundParent {
        ResumeAll();
        k.Take(Leaving(ResumeDone));
        return 3;
      }
      DumpCallback();
      ResumeAndReap();
      return 0;
    }

    /** After the callback: clear the crash list, resume, and reap the child if there is one. */
    method ResumeAndReap()
      requires Coupled() && k.s.me.pc.Returned?
      modifies k, params
      ensures Coupled() && k.s.me == old(k.s.me).(pc := Done(Exit(0)), armed := false, sigNum := 0)
    {
      k.Take(Leaving(Clear));
      params.Succeed(0);
      ResumeAll();
      k.Take(Leaving(ResumeDone));
      if k.s.me.pc.Reaping? {
        Reap();
      }
    }

    /** `reap_snapshot_child`. */
    method Reap()
      requires Coupled() && k.s.me.pc.Reaping?
      modifies k, params
      ensures Coupled() && k.s.me == old(k.s.me).(pc := Done(Exit(0)))
    {
      var r := k.WaitForChild();
      params.ReapSnapshotChild(r);
    }

    /** Marker socket, crash list and task directory. */
    method SetUp() returns (ready: bool)
      requires k.Valid() && Init(k.c, k.s) && Fresh() && params.Value() == k.s.params
      modifies k, params
      ensures Coupled() && k.s.me.pc == (if ready then NewPass else Done(Exit(1))) && (k.obliging ==> ready)
    {
      var setup := k.Succeeds();
      var found := k.Succeeds();
      var errno: int := *;
      if !setup {
        k.Take(Scan(SetupFails(errno)));
        params.Fail(errno);
        return false;
      }
      k.Take(Scan(Arm));
      k.Meanwhile();
      if !found {
        k.Take(Scan(OpenFails(errno)));
        params.Fail(errno);
        return false;
      }
      k.Take(Scan(OpenOk));
      return true;
    }

    method Work() returns (code: nat)
      requires k.Valid() && Init(k.c, k.s) && Fresh() && params.Value() == k.s.params
      modifies this, k, pids, params
      ensures Coupled() && k.s.me.pc == Done(Exit(code)) && code in {0, 1, 3}
      ensures code != 1 ==> code == if k.c.ppid in pids[..numThreads] then 0 else 3
    {
      var ready := SetUp();
      if !ready {
        return 1;
      }
      var failed := ScanAll();
      if failed.Some? {
        ResumeAll();
        k.Take(Leaving(ResumeDone));
        return 1;
      }
      code := Finish();
    }

    /** `lister_thread`: it ends, with exit code 0, 1 or 3, and then nobody is stopped. Unless the scan fails, the code
        tells whether the parent was attached. */
    method Run() returns (code: nat)
      requires k.Valid() && Init(k.c, k.s) && Fresh() && params.Value() == k.s.params
      modifies this, k, pids, params
      ensures Coupled() && k.s.me.pc == Done(Exit(code)) && code in {0, 1, 3} && k.s.os.attached == {}
      ensures code != 1 ==> code == if k.c.ppid in pids[..numThreads] then 0 else 3
    {
      code := Work();
      k.EndsClean(code);
    }
  }

  /** `write_core_dump_to_fd_options`, from the clone of the lister on: run it, wait for it, decode its status into the
      parameter block, and fold that with the callback's result. The answer is success exactly when the wait worked, the
      lister exited 0, the capture and the serializer succeeded, and no stale child got in the way. */
  method WriteCoreDump(k: Process) returns (answer: Answer)
    requires k.Valid() && Init(k.c, k.s)
    modifies k
    ensures k.Valid() && k.s.answer == Some(answer) && k.s.os.attached == {}
    ensures k.s.me.pc.Done? && Judged(k.s, answer)
    ensures answer.Success? <==>
      && k.s.waited == Some(true) && k.s.me.pc == Done(Exit(0)) && k.s.dump.captureOk && Serialized(k.s)
      && (k.s.child.NoChild? ==> Unspoiled(k.s))
  {
    var params := new ParamBlock();
    var thread := new ListerThread(k, params);
    var code := thread.Run();
    answer := WaitAndFold(k, params, code);
    k.IsReachable();
    ResultExactly(k.c, k.s);
    AnswerIsJudged(k.c, k.s);
  }

  /** What the caller's wait leaves in the block. */
  method DecodeWait(params: ParamBlock, waited: bool, errno: int, code: nat)
    requires code in {0, 1, 3}
    modifies params
    ensures params.Value() ==
      if waited then Decoded(old(params.Value()), Encoded(Exit(code))) else Decoded(Params(-1, errno), 0)
  {
    if waited {
      params.DecodeListerStatus(code * 256);
    } else {
      params.Fail(errno);
      params.DecodeListerStatus(0);
    }
  }

  /** The caller's wait for the lister, and the folding of the two results. */
  method WaitAndFold(k: Process, params: ParamBlock, code: nat) returns (answer: Answer)
    requires k.Valid() && k.s.me.pc == Done(Exit(code)) && code in {0, 1, 3}
    requires k.s.answer.None? && params.Value() == k.s.params
    modifies k, params
    ensures k.Valid() && k.s.answer == Some(answer) && k.s.me == old(k.s.me) && k.s.os == old(k.s.os)
  {
    var waited: bool := *;
    var errno: int :| errno != EINTR;
    k.Take(CallerWait(waited, errno));
    DecodeWait(params, waited, errno, code);
    return if params.result == -1 then ThreadList(params.err) else if k.s.dump.result == 0 then Success else DumpFailed;
  }
}
