/** From the answer the caller gets to what a reader of the file finds. */
module EndToEnd {
  import opened Bytes
  import opened Inputs
  import opened Pages
  import opened Output
  import opened CoreFile
  import opened Mappings
  import opened Serialize
  import opened SnapshotFile
  import L = Lister
  import LS = ListerSafety
  import R = ListerResult
  import S = Snapshot

  // ---- The file ----

  /** What `RunSerialize` leaves when it reports success, for a dump that is neither trimmed nor cut and whose scan was
      exact: the file has grown by the stream of some dump of `mem`. */
  ghost predicate Written(before: seq<byte>, after: seq<byte>, cap: Captured, opts: Options, listed: seq<Mapping>,
                          hints: nat -> Hint, mem: Memory, owned: nat -> bool)
  {
    exists d ::
      && Readable(cap, opts, listed, hints, d, mem, owned) && Uncut(cap, opts, d)
      && after == before + Cut(Stream(cap, opts, d), opts.maxLength)
  }

  /** The dump is neither trimmed nor cut. */
  ghost predicate Uncut(cap: Captured, opts: Options, d: Dump)
    requires cap.Valid()
  {
    Whole(opts) && (opts.maxLength.Some? ==> FullLength(cap, opts, d) <= opts.maxLength.value)
  }

  lemma UncutStream(cap: Captured, opts: Options, listed: seq<Mapping>, hints: nat -> Hint, d: Dump, mem: Memory,
                    owned: nat -> bool)
    requires Readable(cap, opts, listed, hints, d, mem, owned) && Uncut(cap, opts, d)
    ensures Cut(Stream(cap, opts, d), opts.maxLength) == Stream(cap, opts, d)
  {
    ImageLength(DumpInputs(cap, opts, d.fs), d.parts);
  }

  /** The bytes that a successful, uncut dump adds to the file read back as the threads it was given and the memory it
      read. */
  lemma FileShows(before: seq<byte>, after: seq<byte>, cap: Captured, opts: Options, listed: seq<Mapping>,
                  hints: nat -> Hint, mem: Memory, frozen: Memory, owned: nat -> bool)
    requires Written(before, after, cap, opts, listed, hints, mem, owned) && Agree(owned, frozen, mem)
    ensures before <= after && cap.Valid() && AllWhole(listed, PageSizeOf(cap.auxv))
    ensures
      var v := ReadCore(after[|before|..]);
      v.Some? && ShowsDump(v.value, cap, opts.notes, listed, hints, frozen, owned, true)
  {
    var d :|
      && Readable(cap, opts, listed, hints, d, mem, owned) && Uncut(cap, opts, d)
      && after == before + Cut(Stream(cap, opts, d), opts.maxLength);
    UncutStream(cap, opts, listed, hints, d, mem, owned);
    assert after[|before|..] == Stream(cap, opts, d);
    DumpShows(cap, opts, listed, hints, d, mem, frozen, owned);
  }

  /** `RunSerialize` leaves such a file whenever it reports success on an uncut dump. */
  method SerializeUncut(fd: OutFd, cap: Captured, opts: Options, env: World, ghost mem: Memory)
    returns (ok: bool, ghost d: Dump)
    requires cap.Valid() && PageSizeOf(cap.auxv) <= SCRATCH_LEN && env.Ready(PageSizeOf(cap.auxv))
    requires env.space.Near(mem)
    modifies fd, env.Objects()
    ensures
      var listing := old(Listing(env.src));
      ok && listing.Good? && env.scan.Made? && old(env.Exact(PageSizeOf(cap.auxv))) && Uncut(cap, opts, d)
      && Readable(cap, opts, listing.value, env.hints, d, mem, env.space.owned)
      ==> Written(old(fd.data), fd.data, cap, opts, listing.value, env.hints, mem, env.space.owned)
  {
    var error;
    ok, error, d := RunSerialize(fd, cap, opts, env, mem);
  }

  // ---- The run ----

  /** What a run goes through is reachable. */
  lemma {:induction false} ReachableThen(c: L.Config, s: L.State, steps: seq<L.Step>, t: L.State)
    requires L.Reachable(c, s) && L.Runs(c, s, steps, t)
    ensures L.Reachable(c, t)
    decreases |steps|
  {
    if steps != [] {
      var s0, done :| L.Init(c, s0) && L.Runs(c, s0, done, s);
      LS.RunsThen(c, s0, done, s, steps[0]);
      ReachableThen(c, L.Apply(c, s, steps[0]), steps[1..], t);
    }
  }

  /** The capture is the same. */
  ghost predicate SameCapture(a: L.Dump, b: L.Dump) {
    && b.captureOk && a.frozenMem == b.frozenMem && a.frozenRegs == b.frozenRegs && a.frozenLive == b.frozenLive
    && a.allStopped == b.allStopped && a.captured == b.captured && a.fpRead == b.fpRead
  }

  lemma CaptureStep(c: L.Config, s: L.State, st: L.Step)
    requires L.Enabled(c, s, st) && s.dump.captureOk
    requires !s.me.pc.Calling? && !s.me.pc.Capturing? && !s.me.pc.ScanDone?
    ensures SameCapture(s.dump, L.Apply(c, s, st).dump)
  {
    match st
    case Callback(x) => CaptureCallback(c, s, x);
    case _ =>
  }

  lemma CaptureCallback(c: L.Config, s: L.State, x: L.CallbackStep)
    requires L.CallbackEnabled(c, s, x) && s.dump.captureOk && !s.me.pc.Calling? && !s.me.pc.Capturing?
    ensures SameCapture(s.dump, L.ApplyCallback(c, s, x).dump)
  {
  }

  /** Once taken, the capture stays to the end of the run. */
  lemma {:induction false} CaptureStays(c: L.Config, s: L.State, steps: seq<L.Step>, t: L.State)
    requires L.Reachable(c, s) && L.Runs(c, s, steps, t) && s.dump.captureOk
    ensures SameCapture(s.dump, t.dump)
    decreases |steps|
  {
    if steps != [] {
      R.AlwaysJudged(c, s);
      var next := L.Apply(c, s, steps[0]);
      CaptureStep(c, s, steps[0]);
      ReachableThen(c, s, [steps[0]], next);
      CaptureStays(c, next, steps[1..], t);
    }
  }

  /** The promise of the whole engine. Let a dump run through a state `t0` in which its serializer reads `content`, end
      in `t`, and answer Ok(0); let its last scan pass have been reliable; and let the verdict of the serializer be that
      of `RunSerialize` on an uncut dump. Then the bytes added to the file read back as the process at the capture
      point:
      exactly the threads alive then, each with its registers (up to the first 512), the main one first, and the memory
      of that moment, whatever the siblings have done since. */
  lemma SuccessMeansFrozenProcess(c: L.Config, t0: L.State, content: L.Content, steps: seq<L.Step>, t: L.State,
                                  readable: nat -> bool, cap: Captured, opts: Options, listed: seq<Mapping>,
                                  hints: nat -> Hint, before: seq<byte>, after: seq<byte>)
    requires L.Reachable(c, t0) && t0.dump.captureOk && S.Serializing(t0, content) && L.Runs(c, t0, steps, t)
    requires t.answer == Some(L.Success) && !t.pass.missed && !t.pass.exited && cap.threads == t.dump.captured
    requires R.Serialized(t) ==>
      Written(before, after, cap, opts, listed, hints, Memory(content, readable), c.owned)
    ensures before <= after && cap.Valid() && AllWhole(listed, PageSizeOf(cap.auxv))
    ensures S.CapturedAsStopped(c, t) && LS.Elems(t.me.pids) == t.dump.frozenLive
    ensures
      var v := ReadCore(after[|before|..]);
      v.Some? && ShowsDump(v.value, cap, opts.notes, listed, hints, Memory(t.dump.frozenMem, readable), c.owned, true)
  {
    ReachableThen(c, t0, steps, t);
    R.ResultExactly(c, t);
    CaptureStays(c, t0, steps, t);
    S.ConsistentSnapshot(c, t);
    S.ReadsFrozen(c, t0, content);
    var mem, frozen := Memory(content, readable), Memory(t.dump.frozenMem, readable);
    assert Agree(c.owned, frozen, mem);
    FileShows(before, after, cap, opts, listed, hints, mem, frozen, c.owned);
  }
}
