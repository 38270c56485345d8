/** From captured threads to a finished file: `serialize_dump` and `run_serialize`, and how long the file gets. */
module Serialize {
  import opened Bytes
  import opened Inputs
  import opened Pages
  import opened Probe
  import opened Output
  import opened Notes
  import opened CoreFile
  import opened Limiter
  import opened Mappings
  import opened MapsText
  import opened MapsReader
  import CoreWriter
  import NoteWriter

  const PAGE_SIZE: nat := 4096
  const SCRATCH_LEN: nat := PAGE_SIZE
  const AT_PAGESZ: nat := 6

  /** What was captured while the threads were stopped. */
  datatype Captured = Captured(prpsinfo: Prpsinfo, threads: seq<ThreadState>, mainIdx: nat, auxv: seq<Auxv>) {
    ghost predicate Valid() {
      threads != [] ==> mainIdx < |threads|
    }
  }

  datatype Options = Options(maxLength: Option<usize>, prioritize: bool, notes: seq<Note>)

  datatype DumpError =
    | ParseMapsError(error: MapsError)
    | PipeError(errno: int)
    | AssemblyError(stage: CoreWriter.CreateElfCoreError)

  // ---- The inputs of the assembler ----

  predicate PowerOfTwo(n: nat) {
    n == 1 || (n > 1 && n % 2 == 0 && PowerOfTwo(n / 2))
  }

  /** The value of the first `AT_PAGESZ` entry. */
  function AuxPageSize(auxv: seq<Auxv>): Option<usize> {
    if auxv == [] then None
    else if auxv[0].aType == AT_PAGESZ then Some(auxv[0].aVal)
    else AuxPageSize(auxv[1..])
  }

  /** The page size to dump with. */
  function PageSizeOf(auxv: seq<Auxv>): (p: usize)
    ensures p > 0
  {
    match AuxPageSize(auxv)
    case Some(p) => if PowerOfTwo(p) then p else PAGE_SIZE
    case None => PAGE_SIZE
  }

  /** The NT_PRXREG payload: integer registers, the valid flag, FP registers, and zeros. */
  function UserArea(t: ThreadState): CoreUser {
    t.regs + Le(1, 8) + t.fpregs + Zeros(192)
  }

  function InputsFor(cap: Captured, opts: Options, ms: seq<Mapping>): CoreInputs
    requires cap.Valid()
  {
    var user := if cap.threads == [] then None else Some(UserArea(cap.threads[cap.mainIdx]));
    CoreInputs(cap.prpsinfo, cap.threads, cap.mainIdx, cap.auxv, ms, PageSizeOf(cap.auxv), opts.notes, user)
  }

  /** The kept mappings, cut down if the dump is limited by priority. */
  function Prioritized(cap: Captured, opts: Options, kept: seq<Mapping>): (r: seq<Mapping>)
    requires cap.Valid()
    ensures |r| == |kept|
  {
    if opts.prioritize && opts.maxLength.Some?
    then Limited(kept, opts.maxLength.value, NotesEnd(InputsFor(cap, opts, kept)))
    else kept
  }

  predicate SizesFit(ms: seq<Mapping>) {
    forall i | 0 <= i < |ms| :: ms[i].start + ms[i].writeSize <= ms[i].end
  }

  lemma PrioritizedFit(cap: Captured, opts: Options, kept: seq<Mapping>)
    requires cap.Valid() && SizesFit(kept)
    ensures CoreFile.Valid(InputsFor(cap, opts, kept))
    ensures CoreFile.Valid(InputsFor(cap, opts, Prioritized(cap, opts, kept)))
  {
    if opts.prioritize && opts.maxLength.Some? {
      LimitedShape(kept, opts.maxLength.value, NotesEnd(InputsFor(cap, opts, kept)));
    }
  }

  /** What the assembler is given when finalizing turned the listed mappings into `fs`. */
  function DumpInputs(cap: Captured, opts: Options, fs: seq<Option<Mapping>>): CoreInputs
    requires cap.Valid()
  {
    InputsFor(cap, opts, Prioritized(cap, opts, Somes(fs)))
  }

  /** Whatever became of the listed mappings, the assembler gets what it demands. */
  lemma StoredFit(cap: Captured, opts: Options, listed: seq<Mapping>, fs: seq<Option<Mapping>>, mem: Memory,
                  owned: nat -> bool, hints: nat -> Hint, exact: bool)
    requires cap.Valid() && AllWhole(EnrichAll(listed, hints), PageSizeOf(cap.auxv))
    requires Outcomes(EnrichAll(listed, hints), fs, mem, owned, PageSizeOf(cap.auxv), exact)
    ensures SizesFit(Somes(fs)) && CoreFile.Valid(DumpInputs(cap, opts, fs))
  {
    KeptInOrder(EnrichAll(listed, hints), fs, mem, owned, PageSizeOf(cap.auxv), exact);
    PrioritizedFit(cap, opts, Somes(fs));
  }

  /** A dump of `mem`: what became of each listed mapping, and the bytes of the segments stored. */
  datatype Dump = Dump(fs: seq<Option<Mapping>>, parts: seq<seq<byte>>)

  /** `d` is a dump of the listed mappings out of a memory that is `mem` outside `owned`. */
  ghost predicate IsDump(cap: Captured, opts: Options, listed: seq<Mapping>, d: Dump, mem: Memory, owned: nat -> bool,
                         hints: nat -> Hint, exact: bool)
    requires cap.Valid()
  {
    var p, ms, inp := PageSizeOf(cap.auxv), EnrichAll(listed, hints), DumpInputs(cap, opts, d.fs);
    && AllWhole(ms, p) && Outcomes(ms, d.fs, mem, owned, p, exact) && CoreFile.Valid(inp)
    && Fitting(inp.mappings, d.parts) && Depicts(inp.mappings, d.parts, mem, owned)
  }

  /** The stream a dump consists of. */
  function Stream(cap: Captured, opts: Options, d: Dump): seq<byte>
    requires cap.Valid() && CoreFile.Valid(DumpInputs(cap, opts, d.fs))
  {
    CoreImage(DumpInputs(cap, opts, d.fs), d.parts)
  }

  /** Writing the dump failed after `n` bytes, and the error names the part of the file that this is in. */
  ghost predicate FailsIn(cap: Captured, opts: Options, d: Dump, e: DumpError, n: int)
    requires cap.Valid()
  {
    e.AssemblyError? && CoreWriter.EndsIn(DumpInputs(cap, opts, d.fs), e.stage, n)
  }

  /** The length of the same dump if nothing were trimmed or cut. */
  function FullLength(cap: Captured, opts: Options, d: Dump): nat
    requires cap.Valid()
  {
    CoreLength(InputsFor(cap, opts, Somes(d.fs)))
  }

  // ---- The methods ----

  /** `estimate_header_size`: computed from counts, it is the end offset of the note segment. */
  method EstimateHeaderSize(nThreads: nat, nAuxv: nat, mappings: seq<Mapping>, notes: seq<Note>) returns (n: nat)
    ensures forall inp: CoreInputs
      | inp.pagesize > 0 && |inp.threads| == nThreads && |inp.auxv| == nAuxv && inp.mappings == mappings
        && inp.notes == notes && (inp.user.Some? <==> nThreads > 0)
      :: n == NotesEnd(inp)
  {
    var notesz := NoteWriter.NoteSectionSizeFor(nThreads, nAuxv, mappings, notes, nThreads > 0);
    n := EHDR + (|mappings| + 1) * PHDR + notesz;
  }

  /** A loopback pipe, or why there is none. */
  datatype MaybePipe = Made(pipe: Pipe) | NotMade(errno: int)

  /** The first 4096 mappings of the process, or why they cannot be listed. */
  ghost function Listing(src: Opened): Parsed<seq<Mapping>>
    reads if src.Opened? then {src.fd} else {}
  {
    if src.Opened? then ParseMaps(src.fd.Unread(), 4096) else Bad(Open(src.errno))
  }

  /** Everything outside the engine that a dump depends on: the listing, the pipe of the zero-page scan, the pipe of
      the segment loop, the address space and the smaps hints. */
  datatype World = World(src: Opened, scan: MaybePipe, probe: MaybePipe, space: Space, hints: nat -> Hint) {
    /** Pipes are new and large enough; the kernel lists whole pages. */
    ghost predicate Ready(pagesize: nat)
      requires pagesize > 0
      reads Objects()
    {
      && (scan.Made? ==> scan.pipe.Idle() && scan.pipe.capacity >= pagesize)
      && (probe.Made? ==> probe.pipe.Idle() && probe.pipe.capacity >= MIN_KERNEL_PAGE)
      && (scan.Made? && probe.Made? ==> scan.pipe != probe.pipe)
      && (Listing(src).Good? ==> AllWhole(Listing(src).value, pagesize))
    }

    ghost function Objects(): set<object> {
      (if src.Opened? then {src.fd as object} else {}) + (if scan.Made? then {scan.pipe as object} else {})
      + (if probe.Made? then {probe.pipe as object} else {}) + {space as object}
    }

    /** Nothing but interruptions can go wrong in writing. */
    ghost predicate Benign()
      reads Objects()
    {
      Listing(src).Good? && scan.Made? && probe.Made? && !probe.pipe.hardErrors
    }

    /** The scan sees memory as it is. */
    ghost predicate Exact(pagesize: nat)
      reads Objects()
    {
      scan.Made? && ExactScan(scan.pipe, pagesize)
    }
  }

  /** Finalize the listed mappings and limit them. */
  method ChooseMappings(maps: array<Mapping>, parsed: nat, cap: Captured, opts: Options, scan: Pipe, space: Space,
                        hints: nat -> Hint, ghost mem: Memory)
    returns (ms: seq<Mapping>, ghost fs: seq<Option<Mapping>>)
    requires cap.Valid() && parsed <= maps.Length && AllWhole(maps[..parsed], PageSizeOf(cap.auxv))
    requires PageSizeOf(cap.auxv) <= SCRATCH_LEN && PageSizeOf(cap.auxv) <= scan.capacity && space.Near(mem)
    modifies maps, scan, space
    ensures space.Near(mem) && ms == Prioritized(cap, opts, Somes(fs))
    ensures AllWhole(EnrichAll(old(maps[..parsed]), hints), PageSizeOf(cap.auxv))
    ensures Outcomes(EnrichAll(old(maps[..parsed]), hints), fs, mem, space.owned, PageSizeOf(cap.auxv),
      old(ExactScan(scan, PageSizeOf(cap.auxv))))
  {
    var pagesize := PageSizeOf(cap.auxv);
    var scratch := new byte[SCRATCH_LEN];
    var kept;
    kept, fs := FinalizeMappings(maps, parsed, pagesize, scan, scratch, space, hints, mem);
    ms := maps[..kept];
    if opts.prioritize && opts.maxLength.Some? {
      var headerOverhead := EstimateHeaderSize(|cap.threads|, |cap.auxv|, ms, opts.notes);
      assert headerOverhead == NotesEnd(InputsFor(cap, opts, ms));
      ApplyPriorityLimit(maps, kept, opts.maxLength.value, headerOverhead);
      ms := maps[..kept];
    }
  }

  /** `serialize_dump`: the output is the stream of a dump `d` of memory, whole on success and a limited prefix
      otherwise; when the mappings cannot be listed or scanned there is no output. */
  method SerializeDump(w: Writer, cap: Captured, opts: Options, env: World, ghost mem: Memory)
    returns (r: Option<DumpError>, ghost d: Dump)
    requires cap.Valid() && PageSizeOf(cap.auxv) <= SCRATCH_LEN && env.Ready(PageSizeOf(cap.auxv))
    requires env.space.Near(mem)
    modifies w, w.fd, env.Objects()
    ensures
      match old(Listing(env.src))
      case Bad(e) => r == Some(ParseMapsError(e)) && w.Out() == old(w.Out())
      case Good(listed) =>
        if env.scan.NotMade? then r == Some(PipeError(env.scan.errno)) && w.Out() == old(w.Out())
        else
          && IsDump(cap, opts, listed, d, mem, env.space.owned, env.hints, old(env.Exact(PageSizeOf(cap.auxv))))
          && Emitted(old(w.Out()), w.Out(), Stream(cap, opts, d), r.None?)
          && (r.Some? ==> FailsIn(cap, opts, d, r.value, |w.fd.data| - |old(w.fd.data)|))
    ensures w.fd.reliable && old(env.Benign()) && r.Some? ==> w.Done()
  {
    ghost var listing := Listing(env.src);
    var maps := new Mapping[MAX_MAPPINGS](_ => Listed(0, 0, 0, 0, []));
    var parsed := ParseSelfMaps(env.src, maps);
    d := Dump([], []);
    if parsed.Bad? {
      return Some(ParseMapsError(parsed.error)), d;
    }
    assert listing == Good(maps[..parsed.value]);
    if env.scan.NotMade? {
      return Some(PipeError(env.scan.errno)), d;
    }
    var loopback := if env.probe.Made? then Some(env.probe.pipe) else None;
    r, d := SerializeListed(w, cap, opts, maps, parsed.value, env.scan.pipe, loopback, env.space, env.hints, mem);
  }

  /** The part of `serialize_dump` after the listing has been parsed. */
  method SerializeListed(w: Writer, cap: Captured, opts: Options, maps: array<Mapping>, parsed: nat, scan: Pipe,
                         loopback: Option<Pipe>, space: Space, hints: nat -> Hint, ghost mem: Memory)
    returns (r: Option<DumpError>, ghost d: Dump)
    requires cap.Valid() && parsed <= maps.Length && AllWhole(maps[..parsed], PageSizeOf(cap.auxv))
    requires PageSizeOf(cap.auxv) <= SCRATCH_LEN && PageSizeOf(cap.auxv) <= scan.capacity && space.Near(mem)
    requires loopback.Some? ==>
      loopback.value != scan && loopback.value.Idle() && loopback.value.capacity >= MIN_KERNEL_PAGE
    modifies w, w.fd, maps, scan, space, if loopback.Some? then {loopback.value} else {}
    ensures IsDump(cap, opts, old(maps[..parsed]), d, mem, space.owned, hints,
      old(ExactScan(scan, PageSizeOf(cap.auxv))))
    ensures Emitted(old(w.Out()), w.Out(), Stream(cap, opts, d), r.None?)
    ensures r.Some? ==> FailsIn(cap, opts, d, r.value, |w.fd.data| - |old(w.fd.data)|)
    ensures w.fd.reliable && loopback.Some? && !loopback.value.hardErrors && r.Some? ==> w.Done()
  {
    ghost var listed, exact := maps[..parsed], ExactScan(scan, PageSizeOf(cap.auxv));
    ghost var fs;
    var ms;
    ms, fs := ChooseMappings(maps, parsed, cap, opts, scan, space, hints, mem);
    StoredFit(cap, opts, listed, fs, mem, space.owned, hints, exact);
    r, d := Assemble(w, cap, opts, ms, loopback, space, fs, mem);
  }

  /** The tail of `serialize_dump`: the assembler, on the chosen mappings. */
  method Assemble(w: Writer, cap: Captured, opts: Options, ms: seq<Mapping>, loopback: Option<Pipe>, space: Space,
                  ghost fs: seq<Option<Mapping>>, ghost mem: Memory)
    returns (r: Option<DumpError>, ghost d: Dump)
    requires cap.Valid() && CoreFile.Valid(DumpInputs(cap, opts, fs)) && ms == Prioritized(cap, opts, Somes(fs))
    requires loopback.Some? ==> loopback.value.Idle() && loopback.value.capacity >= MIN_KERNEL_PAGE
    requires space.Near(mem)
    modifies w, w.fd, space, if loopback.Some? then {loopback.value} else {}
    ensures d.fs == fs && Fitting(DumpInputs(cap, opts, fs).mappings, d.parts)
    ensures Depicts(DumpInputs(cap, opts, fs).mappings, d.parts, mem, space.owned)
    ensures Emitted(old(w.Out()), w.Out(), Stream(cap, opts, d), r.None?)
    ensures r.Some? ==> FailsIn(cap, opts, d, r.value, |w.fd.data| - |old(w.fd.data)|)
    ensures w.fd.reliable && loopback.Some? && !loopback.value.hardErrors && r.Some? ==> w.Done()
  {
    var failed;
    ghost var parts;
    failed, parts := CoreWriter.CreateElfCore(w, InputsFor(cap, opts, ms), space, loopback, mem);
    return if failed.Some? then Some(AssemblyError(failed.value)) else None, Dump(fs, parts);
  }

  /** `run_serialize`: build the writer and judge the outcome; hitting the limit counts as success.

      For every schedule of short writes, interruptions and errors, and whatever the scan makes of the mappings, the
      file never grows past the limit, and success means that it grew by exactly the first `limit` bytes of the stream:
      by as many bytes as the untrimmed dump has, or the limit. The one oddity is a limit of zero, which is met before
      anything is attempted. */
  method RunSerialize(fd: OutFd, cap: Captured, opts: Options, env: World, ghost mem: Memory)
    returns (ok: bool, error: Option<DumpError>, ghost d: Dump)
    requires cap.Valid() && PageSizeOf(cap.auxv) <= SCRATCH_LEN && env.Ready(PageSizeOf(cap.auxv))
    requires env.space.Near(mem)
    modifies fd, env.Objects()
    ensures old(fd.data) <= fd.data
    ensures opts.maxLength.Some? ==> |fd.data| - |old(fd.data)| <= opts.maxLength.value
    ensures
      var listing := old(Listing(env.src));
      if listing.Good? && env.scan.Made? then
        && IsDump(cap, opts, listing.value, d, mem, env.space.owned, env.hints, old(env.Exact(PageSizeOf(cap.auxv))))
        && fd.data <= old(fd.data) + Stream(cap, opts, d)
        && (ok ==> fd.data == old(fd.data) + Cut(Stream(cap, opts, d), opts.maxLength))
        && (ok ==> |fd.data| - |old(fd.data)| == Limit(FullLength(cap, opts, d), opts.maxLength))
        && (error.Some? ==> FailsIn(cap, opts, d, error.value, |fd.data| - |old(fd.data)|))
      else
        && fd.data == old(fd.data) && (ok <==> opts.maxLength == Some(0))
        && error == Some(if listing.Bad? then ParseMapsError(listing.error) else PipeError(env.scan.errno))
    ensures fd.reliable && old(env.Benign()) ==> ok
    ensures ok || error.Some?
  {
    var w := new Writer(fd, opts.maxLength);
    ghost var s0 := w.Out();
    error, d := SerializeDump(w, cap, opts, env, mem);
    ok := error.None? || w.Done();
    ghost var listing := old(Listing(env.src));
    if listing.Good? && env.scan.Made? && ok {
      SuccessMeans(s0, w.Out(), cap, opts, listing.value, d, mem, env.space.owned, env.hints,
        old(env.Exact(PageSizeOf(cap.auxv))), error.None?);
    }
  }

  lemma SuccessMeans(s0: Sink, s1: Sink, cap: Captured, opts: Options, listed: seq<Mapping>, d: Dump, mem: Memory,
                     owned: nat -> bool, hints: nat -> Hint, exact: bool, complete: bool)
    requires cap.Valid() && IsDump(cap, opts, listed, d, mem, owned, hints, exact) && s0.room == opts.maxLength
    requires Emitted(s0, s1, Stream(cap, opts, d), complete) && (complete || s1.room == Some(0))
    ensures s1.data == s0.data + Cut(Stream(cap, opts, d), opts.maxLength)
    ensures |s1.data| - |s0.data| == Limit(FullLength(cap, opts, d), opts.maxLength)
  {
    SuccessIsExactPrefix(s0, s1, Stream(cap, opts, d), complete);
    StoredFit(cap, opts, listed, d.fs, mem, owned, hints, exact);
    LimitedStreamLength(cap, opts, d);
  }

  function Limit(n: nat, limit: Option<usize>): nat {
    if limit.Some? then Min(limit.value, n) else n
  }

  // ---- How long a priority-limited dump is ----

  /** Limiting leaves the note section alone: it depends on no size. */
  lemma {:induction false} FileTableIgnoresSizes(a: seq<Mapping>, b: seq<Mapping>, pagesize: nat)
    requires pagesize > 0 && SizedAs(a, b)
    ensures FileTable(a, pagesize) == FileTable(b, pagesize)
  {
    if a != [] {
      assert SizedAs(a[1..], b[1..]) by {
        assert |a[1..]| == |b[1..]|;
      }
      FileTableIgnoresSizes(a[1..], b[1..], pagesize);
    }
  }

  lemma {:induction false} TotalIsSum(ms: seq<Mapping>)
    ensures TotalSize(ms) == Sum(Sizes(ms))
  {
    if ms != [] {
      TotalIsSum(ms[1..]);
      assert Sizes(ms)[1..] == Sizes(ms[1..]);
    }
  }

  lemma LimitedOffsets(inp: CoreInputs, limit: nat, header: nat)
    requires CoreFile.Valid(inp)
    ensures
      var out := inp.(mappings := Limited(inp.mappings, limit, header));
      CoreFile.Valid(out) && NotesEnd(out) == NotesEnd(inp) && FirstOffset(out) == FirstOffset(inp)
  {
    LimitedShape(inp.mappings, limit, header);
    var ms := Limited(inp.mappings, limit, header);
    FileTableIgnoresSizes(ms, inp.mappings, inp.pagesize);
    OffsetsIgnoreSizes(inp, ms);
  }

  lemma OffsetsIgnoreSizes(inp: CoreInputs, ms: seq<Mapping>)
    requires inp.pagesize > 0 && |ms| == |inp.mappings|
    requires FileTable(ms, inp.pagesize) == FileTable(inp.mappings, inp.pagesize)
    ensures NotesEnd(inp.(mappings := ms)) == NotesEnd(inp) && FirstOffset(inp.(mappings := ms)) == FirstOffset(inp)
  {
    NotesIgnoreSizes(inp, ms);
  }

  lemma NotesIgnoreSizes(inp: CoreInputs, ms: seq<Mapping>)
    requires inp.pagesize > 0 && FileTable(ms, inp.pagesize) == FileTable(inp.mappings, inp.pagesize)
    ensures NoteList(inp.(mappings := ms)) == NoteList(inp)
  {
    GroupsIgnoreSizes(inp, inp.(mappings := ms));
  }

  /** The groups of notes that do not depend on mappings. */
  lemma GroupsIgnoreSizes(inp: CoreInputs, out: CoreInputs)
    requires out == inp.(mappings := out.mappings)
    ensures UserNotes(out) == UserNotes(inp) && MainFirst(out) == MainFirst(inp) && AuxvNotes(out) == AuxvNotes(inp)
  {
  }

  /** A priority-limited dump has exactly the length of the limit, or of the untrimmed core if that is shorter,
      although the headers were estimated without their padding; and as soon as headers and notes fit, less than
      one page of what the headers declare is missing. */
  lemma PriorityLimitedLength(inp: CoreInputs, limit: nat)
    requires CoreFile.Valid(inp)
    ensures
      var out := inp.(mappings := Limited(inp.mappings, limit, NotesEnd(inp)));
      && CoreFile.Valid(out) && Min(limit, CoreLength(out)) == Min(limit, CoreLength(inp))
      && (NotesEnd(inp) <= limit ==> CoreLength(out) - Min(limit, CoreLength(out)) < inp.pagesize)
  {
    var header, ms := NotesEnd(inp), inp.mappings;
    var out := inp.(mappings := Limited(ms, limit, header));
    LimitedOffsets(inp, limit, header);
    LimitedShape(ms, limit, header);
    TrimTotal(Sizes(ms), limit, header);
    TotalIsSum(ms);
    TotalIsSum(out.mappings);
  }

  /** The same of whole dumps, for every limit, with and without priority: the file is as long as the limit, or as the
      untrimmed dump if that is shorter; and limited by priority it lacks less than a page of what it declares as soon
      as headers and notes fit. */
  lemma LimitedStreamLength(cap: Captured, opts: Options, d: Dump)
    requires cap.Valid() && SizesFit(Somes(d.fs)) && CoreFile.Valid(DumpInputs(cap, opts, d.fs))
    requires Fitting(DumpInputs(cap, opts, d.fs).mappings, d.parts)
    ensures
      var stream, file := Stream(cap, opts, d), Cut(Stream(cap, opts, d), opts.maxLength);
      && |file| == Limit(FullLength(cap, opts, d), opts.maxLength)
      && (opts.prioritize && opts.maxLength.Some? && NotesEnd(InputsFor(cap, opts, Somes(d.fs))) <= opts.maxLength.value
          ==> |stream| - |file| < PageSizeOf(cap.auxv))
  {
    var inp := InputsFor(cap, opts, Somes(d.fs));
    PrioritizedFit(cap, opts, Somes(d.fs));
    ImageLength(DumpInputs(cap, opts, d.fs), d.parts);
    if opts.prioritize && opts.maxLength.Some? {
      PriorityLimitedLength(inp, opts.maxLength.value);
    }
  }
}
