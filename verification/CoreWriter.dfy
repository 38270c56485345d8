/** Streaming the core: headers computed up front, then notes, padding and segment contents. */
module CoreWriter {
  import opened Bytes
  import opened Kernel
  import opened Inputs
  import opened Pages
  import opened Probe
  import opened Output
  import opened Notes
  import opened CoreFile
  import NW = NoteWriter

  const MEMORY_BUFFER_SIZE: nat := 64 * 1024

  datatype CreateElfCoreError = EhdrError | PhdrError | NotesError | PaddingError | SegmentError

  /** The error names the part of the file in which the output ended, after `n` bytes; if the segments cannot be read at
      all there is no output. */
  ghost predicate EndsIn(inp: CoreInputs, e: CreateElfCoreError, n: int)
    requires inp.pagesize > 0
  {
    match e
    case EhdrError => 0 <= n < 64
    case PhdrError => 64 <= n < 64 + 56 * (|inp.mappings| + 1)
    case NotesError => 64 + 56 * (|inp.mappings| + 1) <= n < NotesEnd(inp)
    case PaddingError => NotesEnd(inp) <= n < FirstOffset(inp)
    case SegmentError => n == 0 || FirstOffset(inp) <= n
  }

  // ---- Segment contents ----

  /** The bytes left in the kernel page that holds `a`. */
  function PageRest(a: nat): (n: nat)
    ensures 1 <= n <= MIN_KERNEL_PAGE
  {
    MIN_KERNEL_PAGE - a % MIN_KERNEL_PAGE
  }

  lemma SamePage(a: nat, x: nat)
    requires a <= x < a + PageRest(a)
    ensures x / MIN_KERNEL_PAGE == a / MIN_KERNEL_PAGE
  {
  }

  /** A probe within one page that is not fully readable means that nothing in it is. */
  lemma UnreadablePage(mem: Memory, a: nat, len: nat)
    requires len <= PageRest(a) && !mem.AllReadable(a, len)
    ensures forall x: nat | a <= x < a + len :: mem.View(x) == 0
  {
    var bad: nat :| a <= bad < a + len && !mem.Readable(bad);
    SamePage(a, bad);
    forall x: nat | a <= x < a + len
      ensures mem.View(x) == 0
    {
      SamePage(a, x);
    }
  }

  /** Outside the owned part the first `done` bytes of the chunk are the image of memory; the rest is still zero. */
  ghost predicate Filled(mem: Memory, owned: nat -> bool, addr: nat, buf: seq<byte>, done: nat, chunk: nat) {
    && done <= chunk <= |buf|
    && (forall i: nat | i < done && !owned(addr + i) :: buf[i] == mem.View(addr + i))
    && (forall i: nat | done <= i < chunk :: buf[i] == 0)
  }

  /** A successful probe, of memory as it was at that moment. */
  lemma FilledMore(mem: Memory, now: Memory, owned: nat -> bool, addr: nat, before: seq<byte>, after: seq<byte>,
                   done: nat, n: nat, chunk: nat)
    requires Agree(owned, mem, now) && Filled(mem, owned, addr, before, done, chunk) && done + n <= chunk
    requires now.AllReadable(addr + done, n) && Patched(before, after, done, now.Raw(addr + done, n))
    ensures Filled(mem, owned, addr, after, done + n, chunk)
  {
    forall i: nat | i < done + n && !owned(addr + i)
      ensures after[i] == mem.View(addr + i)
    {
      if i >= done {
        assert after[done + (i - done)] == now.Raw(addr + done, n)[i - done];
        assert now.Readable(addr + i);
        AgreeView(owned, mem, now, addr + i);
      }
    }
  }

  lemma FilledHole(mem: Memory, now: Memory, owned: nat -> bool, addr: nat, buf: seq<byte>, done: nat, n: nat,
                   chunk: nat)
    requires Agree(owned, mem, now) && Filled(mem, owned, addr, buf, done, chunk) && done + n <= chunk
    requires n <= PageRest(addr + done) && !now.AllReadable(addr + done, n)
    ensures Filled(mem, owned, addr, buf, done + n, chunk)
  {
    AgreeReadable(owned, mem, now, addr + done, n);
    UnreadablePage(mem, addr + done, n);
  }

  /** The inner loops of the segment copy: fill `scratch[..chunk]` from `addr`, zeros for unreadable pages.

      Memory may change inside the owned part between any two probes. Outside it, every short probe, fault and retry
      schedule gives the same bytes. */
  method FillChunk(pipe: Pipe, space: Space, addr: nat, scratch: array<byte>, chunk: nat, ghost mem: Memory)
    returns (ok: bool)
    requires pipe.Idle() && pipe.capacity >= MIN_KERNEL_PAGE && chunk <= scratch.Length && space.Near(mem)
    modifies pipe, scratch, space
    ensures space.Near(mem)
    ensures ok ==> DepictsOne(scratch[..chunk], addr, mem, space.owned)
    ensures ok ==> pipe.Idle() && pipe.SameFlags(old(pipe.nonblock), old(pipe.otherFlags))
    ensures !ok ==> pipe.hardErrors
  {
    forall i | 0 <= i < chunk {
      scratch[i] := 0;
    }
    var copied := 0;
    while copied < chunk
      invariant space.Near(mem) && Filled(mem, space.owned, addr, scratch[..], copied, chunk)
      invariant pipe.Idle() && pipe.SameFlags(old(pipe.nonblock), old(pipe.otherFlags))
    {
      var n;
      n, ok := CopySome(pipe, space, addr, scratch, copied, chunk, mem);
      if !ok {
        return;
      }
      copied := copied + n;
    }
    return true;
  }

  /** One turn of the copy loop: a probe as large as the pipe allows, then one confined to the page. */
  method CopySome(pipe: Pipe, space: Space, addr: nat, scratch: array<byte>, copied: nat, chunk: nat, ghost mem: Memory)
    returns (n: nat, ok: bool)
    requires pipe.Idle() && pipe.capacity >= MIN_KERNEL_PAGE && space.Near(mem)
    requires copied < chunk <= scratch.Length && Filled(mem, space.owned, addr, scratch[..], copied, chunk)
    modifies pipe, scratch, space
    ensures space.Near(mem)
    ensures ok ==> 0 < n <= chunk - copied && Filled(mem, space.owned, addr, scratch[..], copied + n, chunk)
    ensures ok ==> pipe.Idle() && pipe.SameFlags(old(pipe.nonblock), old(pipe.otherFlags))
    ensures !ok ==> pipe.hardErrors
  {
    var probe := Min(chunk - copied, pipe.capacity);
    var r := ProbeInto(pipe, space, addr, scratch, copied, probe, chunk, mem);
    if r.Ok? && r.n > 0 {
      return r.n, true;
    }
    if r.Err? && r.errno != EFAULT {
      return 0, false;
    }
    var pageChunk := Min(PageRest(addr + copied), chunk - copied);
    r := ProbeInto(pipe, space, addr, scratch, copied, pageChunk, chunk, mem);
    if r.Ok? && r.n > 0 {
      return r.n, true;
    }
    if r.Err? && r.errno != EFAULT {
      return 0, false;
    }
    FilledHole(mem, space.mem, space.owned, addr, scratch[..], copied, pageChunk, chunk);
    return pageChunk, true;
  }

  /** One probe of `len` bytes into the chunk, of memory as it is by then. */
  method ProbeInto(pipe: Pipe, space: Space, addr: nat, scratch: array<byte>, copied: nat, len: nat, ghost chunk: nat,
                   ghost mem: Memory)
    returns (r: SysResult)
    requires pipe.Idle() && 0 < len <= pipe.capacity && copied + len <= chunk && space.Near(mem)
    requires chunk <= scratch.Length && Filled(mem, space.owned, addr, scratch[..], copied, chunk)
    modifies pipe, scratch, space
    ensures space.Near(mem)
    ensures r.Ok? || r == Err(EFAULT) ==>
      pipe.Idle() && pipe.SameFlags(old(pipe.nonblock), old(pipe.otherFlags))
    ensures r.Ok? ==> r.n <= len && Filled(mem, space.owned, addr, scratch[..], copied + r.n, chunk)
    ensures r == Err(EFAULT) ==> Filled(mem, space.owned, addr, scratch[..], copied, chunk)
    ensures r == Ok(0) || r == Err(EFAULT) ==> !space.mem.AllReadable(addr + copied, len)
    ensures r.Err? && !pipe.hardErrors ==> r.errno == EFAULT
  {
    space.Drift(mem);
    ghost var before := scratch[..];
    r := ReadMemory(pipe, space.mem, addr + copied, scratch, copied, len);
    if r.Ok? {
      FilledMore(mem, space.mem, space.owned, addr, before, scratch[..], copied, r.n, chunk);
    }
  }

  lemma DepictsMore(done: seq<byte>, chunk: seq<byte>, start: nat, mem: Memory, owned: nat -> bool)
    requires DepictsOne(done, start, mem, owned) && DepictsOne(chunk, start + |done|, mem, owned)
    ensures DepictsOne(done + chunk, start, mem, owned)
  {
    forall j: nat | j < |done + chunk| && !owned(start + j)
      ensures (done + chunk)[j] == mem.View(start + j)
    {
      if j >= |done| {
        assert chunk[j - |done|] == mem.View(start + |done| + (j - |done|));
      }
    }
  }

  /** An output that stopped inside `bs` stopped inside every extension of it. */
  lemma StoppedWithin(s0: Sink, s1: Sink, pre: seq<byte>, bs: seq<byte>, all: seq<byte>)
    requires Emitted(s0, s1, pre + bs, false) && bs <= all
    ensures Emitted(s0, s1, pre + all, false)
  {
    EmittedStop(s0, s1, pre + bs, all[|bs|..]);
    assert pre + bs + all[|bs|..] == pre + all;
  }

  /** An output that stopped inside a segment: what has been read, completed with what memory shows. */
  lemma Completed(s0: Sink, s1: Sink, pre: seq<byte>, done: seq<byte>, m: Mapping, mem: Memory, owned: nat -> bool)
    returns (part: seq<byte>)
    requires |done| <= m.writeSize && DepictsOne(done, m.start, mem, owned) && Emitted(s0, s1, pre + done, false)
    ensures |part| == m.writeSize && DepictsOne(part, m.start, mem, owned) && Emitted(s0, s1, pre + part, false)
  {
    var rest := mem.Image(m.start + |done|, m.writeSize - |done|);
    part := done + rest;
    DepictsMore(done, rest, m.start, mem, owned);
    StoppedWithin(s0, s1, pre, done, part);
  }

  /** The next chunk of a segment of which `done` has been written: `next` is that and what was handed to the writer. */
  method WriteMore(w: Writer, pipe: Pipe, space: Space, start: nat, chunk: nat, scratch: array<byte>, ghost mem: Memory,
                   ghost s0: Sink, ghost pre: seq<byte>, offset: nat, ghost done: seq<byte>)
    returns (ok: bool, ghost next: seq<byte>)
    requires pipe.Idle() && pipe.capacity >= MIN_KERNEL_PAGE && chunk <= scratch.Length && offset == |done|
    requires space.Near(mem) && Emitted(s0, w.Out(), pre + done, true) && DepictsOne(done, start, mem, space.owned)
    modifies w, w.fd, pipe, scratch, space
    ensures space.Near(mem) && |next| <= offset + chunk && DepictsOne(next, start, mem, space.owned)
    ensures Emitted(s0, w.Out(), pre + next, ok) && (ok ==> pipe.Idle() && |next| == offset + chunk)
    ensures |old(w.fd.data)| <= |w.fd.data|
    ensures w.fd.reliable && !pipe.hardErrors && !ok ==> w.Done()
  {
    ghost var bytes;
    ok, bytes := WriteChunk(w, pipe, space, start + offset, chunk, scratch, mem, s0, pre + done);
    DepictsMore(done, bytes, start, mem, space.owned);
    Assoc(pre, done, bytes);
    next := done + bytes;
  }

  /** Read and write one chunk. If that fails, `bytes` are those handed to the writer. */
  method WriteChunk(w: Writer, pipe: Pipe, space: Space, addr: nat, chunk: nat, scratch: array<byte>, ghost mem: Memory,
                    ghost s0: Sink, ghost pre: seq<byte>)
    returns (ok: bool, ghost bytes: seq<byte>)
    requires pipe.Idle() && pipe.capacity >= MIN_KERNEL_PAGE && chunk <= scratch.Length
    requires space.Near(mem) && Emitted(s0, w.Out(), pre, true)
    modifies w, w.fd, pipe, scratch, space
    ensures space.Near(mem) && |bytes| <= chunk && DepictsOne(bytes, addr, mem, space.owned)
    ensures Emitted(s0, w.Out(), pre + bytes, ok) && (ok ==> pipe.Idle() && |bytes| == chunk)
    ensures |old(w.fd.data)| <= |w.fd.data|
    ensures w.fd.reliable && !pipe.hardErrors && !ok ==> w.Done()
  {
    ok := FillChunk(pipe, space, addr, scratch, chunk, mem);
    if !ok {
      assert pre + [] == pre;
      return false, [];
    }
    var written := w.AppendTo(scratch[..chunk], s0, pre);
    return written.None?, scratch[..chunk];
  }

  /** The chunk loop for one mapping. `part` is the segment: what was read of it, and if writing stopped early, any
      rest. */
  method WriteSegment(w: Writer, pipe: Pipe, space: Space, m: Mapping, scratch: array<byte>, ghost mem: Memory,
                      ghost s0: Sink, ghost pre: seq<byte>)
    returns (r: Option<CreateElfCoreError>, ghost part: seq<byte>)
    requires pipe.Idle() && pipe.capacity >= MIN_KERNEL_PAGE && scratch.Length == MEMORY_BUFFER_SIZE
    requires space.Near(mem) && Emitted(s0, w.Out(), pre, true)
    modifies w, w.fd, pipe, scratch, space
    ensures space.Near(mem) && (r.None? ==> pipe.Idle())
    ensures |part| == m.writeSize && DepictsOne(part, m.start, mem, space.owned)
    ensures Emitted(s0, w.Out(), pre + part, r.None?)
    ensures (r.Some? ==> r.value == SegmentError) && |old(w.fd.data)| <= |w.fd.data|
    ensures w.fd.reliable && !pipe.hardErrors && r.Some? ==> w.Done()
  {
    var offset := 0;
    ghost var done: seq<byte> := [];
    assert pre + done == pre;
    while offset < m.writeSize
      invariant space.Near(mem) && pipe.Idle()
      invariant 0 <= offset == |done| <= m.writeSize && DepictsOne(done, m.start, mem, space.owned)
      invariant Emitted(s0, w.Out(), pre + done, true) && |old(w.fd.data)| <= |w.fd.data|
    {
      var chunk := Min(m.writeSize - offset, scratch.Length);
      var ok;
      ok, done := WriteMore(w, pipe, space, m.start, chunk, scratch, mem, s0, pre, offset, done);
      if !ok {
        part := Completed(s0, w.Out(), pre, done, m, mem, space.owned);
        return Some(SegmentError), part;
      }
      offset := offset + chunk;
    }
    return None, done;
  }

  /** The segments as memory shows them. */
  function Images(ms: seq<Mapping>, mem: Memory): (parts: seq<seq<byte>>)
    ensures Fitting(ms, parts)
  {
    seq(|ms|, i requires 0 <= i < |ms| => mem.Image(ms[i].start, ms[i].writeSize))
  }

  lemma ImagesDepict(ms: seq<Mapping>, mem: Memory, owned: nat -> bool)
    ensures Depicts(ms, Images(ms, mem), mem, owned)
  {
  }

  lemma {:induction false} JoinedConcat(a: seq<seq<byte>>, b: seq<seq<byte>>)
    ensures Joined(a + b) == Joined(a) + Joined(b)
  {
    if a == [] {
      assert a + b == b;
    } else {
      assert (a + b)[1..] == a[1..] + b;
      JoinedConcat(a[1..], b);
    }
  }

  /** Segments written so far, and one more. */
  ghost predicate SegmentsSofar(ms: seq<Mapping>, parts: seq<seq<byte>>, mem: Memory, owned: nat -> bool) {
    |parts| <= |ms| && Fitting(ms[..|parts|], parts) && Depicts(ms[..|parts|], parts, mem, owned)
  }

  lemma SegmentsMore(ms: seq<Mapping>, parts: seq<seq<byte>>, part: seq<byte>, mem: Memory, owned: nat -> bool)
    requires |parts| < |ms| && SegmentsSofar(ms, parts, mem, owned)
    requires |part| == ms[|parts|].writeSize && DepictsOne(part, ms[|parts|].start, mem, owned)
    ensures SegmentsSofar(ms, parts + [part], mem, owned) && Joined(parts + [part]) == Joined(parts) + part
  {
    JoinedSnoc(parts, part);
    var now, more := ms[..|parts|], parts + [part];
    assert ms[..|more|] == now + [ms[|parts|]] by {
      PrefixSnoc(ms, |parts|);
    }
    FittingSnoc(now, parts, ms[|parts|], part);
    DepictsSnoc(now, parts, ms[|parts|], part, mem, owned);
  }

  lemma PrefixSnoc<T>(s: seq<T>, n: nat)
    requires n < |s|
    ensures s[..n + 1] == s[..n] + [s[n]]
  {
  }

  lemma JoinedSnoc(parts: seq<seq<byte>>, part: seq<byte>)
    ensures Joined(parts + [part]) == Joined(parts) + part
  {
    JoinedConcat(parts, [part]);
    JoinedOne(part);
  }

  lemma JoinedOne(part: seq<byte>)
    ensures Joined([part]) == part
  {
    assert Joined([part]) == part + Joined([]);
  }

  lemma FittingSnoc(ms: seq<Mapping>, parts: seq<seq<byte>>, m: Mapping, part: seq<byte>)
    requires Fitting(ms, parts) && |part| == m.writeSize
    ensures Fitting(ms + [m], parts + [part])
  {
  }

  lemma DepictsSnoc(ms: seq<Mapping>, parts: seq<seq<byte>>, m: Mapping, part: seq<byte>, mem: Memory,
                    owned: nat -> bool)
    requires Depicts(ms, parts, mem, owned) && DepictsOne(part, m.start, mem, owned)
    ensures Depicts(ms + [m], parts + [part], mem, owned)
  {
    forall i | 0 <= i < |ms| + 1
      ensures DepictsOne((parts + [part])[i], (ms + [m])[i].start, mem, owned)
    {
      if i < |ms| {
        assert DepictsOne(parts[i], ms[i].start, mem, owned);
      }
    }
  }

  lemma SegmentsCompleted(ms: seq<Mapping>, parts: seq<seq<byte>>, mem: Memory, owned: nat -> bool)
    returns (all: seq<seq<byte>>)
    requires SegmentsSofar(ms, parts, mem, owned)
    ensures Fitting(ms, all) && Depicts(ms, all, mem, owned) && Joined(parts) <= Joined(all)
  {
    var rest := Images(ms[|parts|..], mem);
    ImagesDepict(ms[|parts|..], mem, owned);
    all := parts + rest;
    JoinedConcat(parts, rest);
    forall i | 0 <= i < |ms|
      ensures |all[i]| == ms[i].writeSize && DepictsOne(all[i], ms[i].start, mem, owned)
    {
      if i < |parts| {
        assert ms[..|parts|][i] == ms[i] && DepictsOne(parts[i], ms[..|parts|][i].start, mem, owned);
      } else {
        var j := i - |parts|;
        assert ms[|parts|..][j] == ms[i] && DepictsOne(rest[j], ms[|parts|..][j].start, mem, owned);
      }
    }
  }

  /** All segments. */
  method WriteSegments(w: Writer, pipe: Pipe, space: Space, ms: seq<Mapping>, ghost mem: Memory,
                       ghost s0: Sink, ghost pre: seq<byte>)
    returns (r: Option<CreateElfCoreError>, ghost parts: seq<seq<byte>>)
    requires pipe.Idle() && pipe.capacity >= MIN_KERNEL_PAGE && space.Near(mem) && Emitted(s0, w.Out(), pre, true)
    modifies w, w.fd, pipe, space
    ensures space.Near(mem) && Fitting(ms, parts) && Depicts(ms, parts, mem, space.owned)
    ensures Emitted(s0, w.Out(), pre + Joined(parts), r.None?)
    ensures (r.Some? ==> r.value == SegmentError) && |old(w.fd.data)| <= |w.fd.data|
    ensures w.fd.reliable && !pipe.hardErrors && r.Some? ==> w.Done()
  {
    var scratch := new byte[MEMORY_BUFFER_SIZE];
    parts := [];
    assert pre + Joined(parts) == pre;
    for i := 0 to |ms|
      invariant space.Near(mem) && pipe.Idle() && |parts| == i && SegmentsSofar(ms, parts, mem, space.owned)
      invariant Emitted(s0, w.Out(), pre + Joined(parts), true) && |old(w.fd.data)| <= |w.fd.data|
    {
      ghost var part;
      ghost var done := pre + Joined(parts);
      r, part := WriteSegment(w, pipe, space, ms[i], scratch, mem, s0, done);
      SegmentsMore(ms, parts, part, mem, space.owned);
      Assoc(pre, Joined(parts), part);
      parts := parts + [part];
      if r.Some? {
        ghost var all := SegmentsCompleted(ms, parts, mem, space.owned);
        StoppedWithin(s0, w.Out(), pre, Joined(parts), Joined(all));
        return r, all;
      }
    }
    assert ms[..|ms|] == ms;
    return None, parts;
  }

  // ---- Padding and headers ----

  /** The next piece of `all`: `done` of it has been written after `pre`, and with this piece it is `next`. */
  method WriteNext(w: Writer, piece: seq<byte>, ghost g: Goal, ghost pre: seq<byte>, ghost done: seq<byte>,
                   ghost next: seq<byte>, ghost all: seq<byte>)
    returns (ok: bool)
    requires w.Sofar(g, pre + done) && done + piece == next && next <= all && pre + all <= g.total
    modifies w, w.fd
    ensures ok ==> w.Sofar(g, pre + next)
    ensures !ok ==> w.Stopped(g) && (w.fd.reliable ==> w.Done())
  {
    NextPiece(pre, done, piece, next, all, g.total);
    var written := w.Append(piece, g, pre + done);
    return written.None?;
  }

  /** The padding loop: zeros in blocks of at most 4096. */
  method WritePadding(w: Writer, noteAlign: nat, ghost g: Goal, ghost pre: seq<byte>)
    returns (r: Option<CreateElfCoreError>)
    requires w.Sofar(g, pre) && pre + Zeros(noteAlign) <= g.total
    modifies w, w.fd
    ensures r.None? ==> w.Sofar(g, pre + Zeros(noteAlign))
    ensures r.Some? ==> r.value == PaddingError && w.Stopped(g) && (w.fd.reliable ==> w.Done())
  {
    var remaining := noteAlign;
    assert pre + Zeros(0) == pre;
    while remaining > 0
      invariant 0 <= remaining <= noteAlign
      invariant w.Sofar(g, pre + Zeros(noteAlign - remaining))
    {
      var chunk := Min(remaining, 4096);
      ghost var done := noteAlign - remaining;
      ZerosStep(done, chunk, noteAlign);
      var ok := WriteNext(w, Zeros(chunk), g, pre, Zeros(done), Zeros(done + chunk), Zeros(noteAlign));
      if !ok {
        return Some(PaddingError);
      }
      remaining := remaining - chunk;
    }
    return None;
  }

  lemma ZerosStep(done: nat, chunk: nat, all: nat)
    requires done + chunk <= all
    ensures Zeros(done + chunk) == Zeros(done) + Zeros(chunk) && Zeros(done + chunk) <= Zeros(all)
  {
    assert Zeros(all) == Zeros(done + chunk) + Zeros(all - (done + chunk));
  }

  lemma LoadPhdrAt(ms: seq<Mapping>, offset: nat, pagesize: nat, i: nat)
    requires i < |ms| && forall m | m in ms :: m.start <= m.end
    ensures LoadPhdrs(ms, offset, pagesize)[i] == LoadPhdr(ms[i], offset + TotalSize(ms[..i]), pagesize)
  {
    if i > 0 {
      LoadPhdrAt(ms[1..], offset + ms[0].writeSize, pagesize, i - 1);
      assert ms[1..][..i - 1] == ms[..i][1..];
    }
  }

  lemma {:induction false} SizeSnoc(ms: seq<Mapping>, i: nat)
    requires i < |ms|
    ensures TotalSize(ms[..i + 1]) == TotalSize(ms[..i]) + ms[i].writeSize
  {
    if i > 0 {
      SizeSnoc(ms[1..], i - 1);
      assert ms[1..][..i - 1] == ms[..i][1..];
      assert ms[1..][..i] == ms[..i + 1][1..];
    } else {
      assert ms[..1] == [ms[0]];
    }
  }

  lemma PhdrTableConcat(a: seq<Phdr>, b: seq<Phdr>)
    ensures PhdrTable(a + b) == PhdrTable(a) + PhdrTable(b)
  {
    if a == [] {
      assert a + b == b;
    } else {
      assert (a + b)[1..] == a[1..] + b;
      PhdrTableConcat(a[1..], b);
    }
  }

  lemma NextPiece(pre: seq<byte>, done: seq<byte>, piece: seq<byte>, next: seq<byte>, all: seq<byte>, total: seq<byte>)
    requires next == done + piece && next <= all && pre + all <= total
    ensures pre + done + piece == pre + next && pre + done + piece <= total
  {
    assert pre + done + piece == pre + next;
    assert pre + next <= pre + all;
  }

  lemma PhdrTableSnoc(ps: seq<Phdr>, i: nat)
    requires i < |ps|
    ensures PhdrTable(ps[..i + 1]) == PhdrTable(ps[..i]) + PhdrBytes(ps[i])
  {
    assert ps[..i + 1] == ps[..i] + [ps[i]];
    PhdrTableConcat(ps[..i], [ps[i]]);
    PhdrTableOne(ps[i]);
  }

  lemma PhdrTableOne(p: Phdr)
    ensures PhdrTable([p]) == PhdrBytes(p)
  {
    assert PhdrTable([p]) == PhdrBytes(p) + PhdrTable([]);
  }

  lemma PhdrTablePrefix(ps: seq<Phdr>, i: nat)
    requires i <= |ps|
    ensures PhdrTable(ps[..i]) <= PhdrTable(ps)
  {
    assert ps == ps[..i] + ps[i..];
    PhdrTableConcat(ps[..i], ps[i..]);
  }

  /** One PT_LOAD header. */
  method WriteLoadPhdr(w: Writer, m: Mapping, offset: nat, pagesize: nat, ghost g: Goal, ghost pre: seq<byte>,
                       ghost ps: seq<Phdr>, ghost i: nat)
    returns (ok: bool)
    requires m.start <= m.end && i < |ps| && ps[i] == LoadPhdr(m, offset, pagesize)
    requires w.Sofar(g, pre + PhdrTable(ps[..i])) && pre + PhdrTable(ps) <= g.total
    modifies w, w.fd
    ensures ok ==> w.Sofar(g, pre + PhdrTable(ps[..i + 1]))
    ensures !ok ==> w.Stopped(g) && (w.fd.reliable ==> w.Done())
  {
    var ph := Phdr(PT_LOAD, m.flags % 8, offset, m.start, 0, m.writeSize, m.end - m.start, pagesize);
    PhdrTableSnoc(ps, i);
    PhdrTablePrefix(ps, i + 1);
    ok := WriteNext(w, PhdrBytes(ph), g, pre, PhdrTable(ps[..i]), PhdrTable(ps[..i + 1]), PhdrTable(ps));
  }

  lemma RunningOffset(ms: seq<Mapping>, first: nat, pagesize: nat, i: nat, offset: nat)
    requires i < |ms| && (forall m | m in ms :: m.start <= m.end) && offset == first + TotalSize(ms[..i])
    ensures ms[i].start <= ms[i].end && LoadPhdrs(ms, first, pagesize)[i] == LoadPhdr(ms[i], offset, pagesize)
    ensures offset + ms[i].writeSize == first + TotalSize(ms[..i + 1])
  {
    LoadPhdrAt(ms, first, pagesize, i);
    SizeSnoc(ms, i);
  }

  /** The PT_LOAD loop: each header carries the running offset. */
  method WriteLoadPhdrs(w: Writer, ms: seq<Mapping>, first: nat, pagesize: nat, ghost g: Goal, ghost pre: seq<byte>)
    returns (r: Option<CreateElfCoreError>)
    requires forall m | m in ms :: m.start <= m.end
    requires w.Sofar(g, pre) && pre + PhdrTable(LoadPhdrs(ms, first, pagesize)) <= g.total
    modifies w, w.fd
    ensures r.None? ==> w.Sofar(g, pre + PhdrTable(LoadPhdrs(ms, first, pagesize)))
    ensures r.Some? ==> r.value == PhdrError && w.Stopped(g) && (w.fd.reliable ==> w.Done())
  {
    ghost var ps := LoadPhdrs(ms, first, pagesize);
    var offset := first;
    assert pre + PhdrTable(ps[..0]) == pre;
    for i := 0 to |ms|
      invariant offset == first + TotalSize(ms[..i])
      invariant w.Sofar(g, pre + PhdrTable(ps[..i]))
    {
      RunningOffset(ms, first, pagesize, i, offset);
      var ok := WriteLoadPhdr(w, ms[i], offset, pagesize, g, pre, ps, i);
      if !ok {
        return Some(PhdrError);
      }
      offset := offset + ms[i].writeSize;
    }
    assert ps[..|ms|] == ps;
    return None;
  }

  lemma RightNested(e: seq<byte>, n: seq<byte>, t: seq<byte>, s: seq<byte>, z: seq<byte>)
    ensures e + n + t + s + z == e + (n + (t + (s + z)))
  {
    Assoc(e + n + t, s, z);
    Assoc(e + n, t, s + z);
    Assoc(e, n, t + (s + z));
  }

  lemma Assoc(a: seq<byte>, b: seq<byte>, c: seq<byte>)
    ensures a + b + c == a + (b + c)
  {
  }

  /** `create_elf_core` in a living address space that is `mem` outside its owned part. `loopback` is the probe pipe, or
      `None` if it could not be set up; then nothing is written.

      The stream is the core with segments `parts`, which depict `mem`: all of it on success, and a prefix of it, cut by
      the writer's limit, otherwise. */
  method CreateElfCore(w: Writer, inp: CoreInputs, space: Space, loopback: Option<Pipe>, ghost mem: Memory)
    returns (r: Option<CreateElfCoreError>, ghost parts: seq<seq<byte>>)
    requires Valid(inp) && space.Near(mem)
    requires loopback.Some? ==> loopback.value.Idle() && loopback.value.capacity >= MIN_KERNEL_PAGE
    modifies w, w.fd, space, if loopback.Some? then {loopback.value} else {}
    ensures space.Near(mem) && Fitting(inp.mappings, parts) && Depicts(inp.mappings, parts, mem, space.owned)
    ensures Emitted(old(w.Out()), w.Out(), CoreImage(inp, parts), r.None?)
    ensures loopback.None? ==> r == Some(SegmentError) && w.Out() == old(w.Out())
    ensures r.Some? ==> EndsIn(inp, r.value, |w.fd.data| - |old(w.fd.data)|)
    ensures w.fd.reliable && loopback.Some? && !loopback.value.hardErrors && r.Some? ==> w.Done()
  {
    if loopback.None? {
      parts := Images(inp.mappings, mem);
      ImagesDepict(inp.mappings, mem, space.owned);
      NothingEmitted(w.Out(), CoreImage(inp, parts));
      return Some(SegmentError), parts;
    }
    r, parts := WriteCore(w, inp, space, loopback.value, mem);
  }

  lemma NothingEmitted(s: Sink, bs: seq<byte>)
    ensures Emitted(s, s, bs, false)
  {
    EmittedNothing(s);
    assert s.data <= s.data + bs;
  }

  /** The same with a probe pipe: headers, then segments. */
  method WriteCore(w: Writer, inp: CoreInputs, space: Space, pipe: Pipe, ghost mem: Memory)
    returns (r: Option<CreateElfCoreError>, ghost parts: seq<seq<byte>>)
    requires Valid(inp) && space.Near(mem) && pipe.Idle() && pipe.capacity >= MIN_KERNEL_PAGE
    modifies w, w.fd, space, pipe
    ensures space.Near(mem) && Fitting(inp.mappings, parts) && Depicts(inp.mappings, parts, mem, space.owned)
    ensures Emitted(old(w.Out()), w.Out(), CoreImage(inp, parts), r.None?)
    ensures r.Some? ==> EndsIn(inp, r.value, |w.fd.data| - |old(w.fd.data)|)
    ensures w.fd.reliable && !pipe.hardErrors && r.Some? ==> w.Done()
  {
    ghost var g := Goal(w.Out(), Headers(inp), 0);
    EmittedNothing(w.Out());
    r := WriteHeaders(w, inp, g);
    if r.Some? {
      parts := Images(inp.mappings, mem);
      ImagesDepict(inp.mappings, mem, space.owned);
      EmittedStop(g.start, w.Out(), g.total, Joined(parts));
      return;
    }
    r, parts := WriteSegments(w, pipe, space, inp.mappings, mem, g.start, g.total);
    HeadersLength(inp);
  }

  lemma HeadersLength(inp: CoreInputs)
    requires Valid(inp)
    ensures |Headers(inp)| == FirstOffset(inp)
  {
  }

  /** Everything before the segments. */
  method WriteHeaders(w: Writer, inp: CoreInputs, ghost g: Goal) returns (r: Option<CreateElfCoreError>)
    requires Valid(inp) && g.total == Headers(inp) && g.low == 0 && w.Sofar(g, [])
    modifies w, w.fd
    ensures Emitted(g.start, w.Out(), g.total, r.None?) && (w.fd.reliable && r.Some? ==> w.Done())
    ensures r.Some? ==> EndsIn(inp, r.value, |w.fd.data| - |g.start.data|)
  {
    var ehdr, note, first, noteAlign := PlanLayout(inp);
    ghost var table, section, zeros := HeaderParts(inp, ehdr, note, first, noteAlign);
    r := WriteParts(w, inp, ehdr, note, first, noteAlign, g, table, section, zeros);
    if r.Some? {
      assert EndsIn(inp, r.value, |w.fd.data| - |g.start.data|);
    }
  }

  /** The offsets and headers, computed before anything is written: the ELF header, the PT_NOTE header, the offset
      of the first segment and the padding before it. */
  method PlanLayout(inp: CoreInputs) returns (ehdr: seq<byte>, note: seq<byte>, first: nat, noteAlign: nat)
    requires Valid(inp)
    ensures ehdr == EhdrBytes(|inp.mappings| + 1) && note == PhdrBytes(NotePhdr(inp))
    ensures first == FirstOffset(inp) && noteAlign == PageGap(NotesEnd(inp), inp.pagesize)
  {
    var numMappings, pagesize := |inp.mappings|, inp.pagesize;
    var phdrsEnd := EHDR + (numMappings + 1) * PHDR;
    var noteFilesz := NoteSectionSize(inp);
    var notePhdr := Phdr(PT_NOTE, 0, phdrsEnd, 0, 0, noteFilesz, 0, 0);
    var offset := phdrsEnd + noteFilesz;
    noteAlign := PageGap(offset, pagesize);
    ehdr, note, first := EhdrBytes(numMappings + 1), PhdrBytes(notePhdr), offset + noteAlign;
    LayoutIs(inp, phdrsEnd, noteFilesz, noteAlign);
  }

  /** `note_section_size`. */
  method NoteSectionSize(inp: CoreInputs) returns (n: nat)
    requires inp.pagesize > 0
    ensures n == |Section(inp)|
  {
    n := NW.NoteSectionSizeFor(|inp.threads|, |inp.auxv|, inp.mappings, inp.notes, inp.user.Some?);
  }

  lemma LayoutIs(inp: CoreInputs, phdrsEnd: nat, noteFilesz: nat, noteAlign: nat)
    requires Valid(inp) && phdrsEnd == PhdrsEnd(inp) && noteFilesz == |Section(inp)|
    requires noteAlign == PageGap(phdrsEnd + noteFilesz, inp.pagesize)
    ensures Phdr(PT_NOTE, 0, phdrsEnd, 0, 0, noteFilesz, 0, 0) == NotePhdr(inp)
    ensures noteAlign == PageGap(NotesEnd(inp), inp.pagesize) && phdrsEnd + noteFilesz + noteAlign == FirstOffset(inp)
  {
  }

  lemma HeaderParts(inp: CoreInputs, ehdr: seq<byte>, note: seq<byte>, first: nat, noteAlign: nat)
    returns (table: seq<byte>, section: seq<byte>, zeros: seq<byte>)
    requires Valid(inp)
    requires ehdr == EhdrBytes(|inp.mappings| + 1) && note == PhdrBytes(NotePhdr(inp))
    requires first == FirstOffset(inp) && noteAlign == PageGap(NotesEnd(inp), inp.pagesize)
    ensures table == PhdrTable(LoadPhdrs(inp.mappings, first, inp.pagesize)) && section == Section(inp)
    ensures zeros == Zeros(noteAlign) && Headers(inp) == ehdr + (note + (table + (section + zeros)))
  {
    table, section := PhdrTable(LoadPhdrs(inp.mappings, first, inp.pagesize)), Section(inp);
    zeros := Zeros(noteAlign);
    RightNested(ehdr, note, table, section, zeros);
  }

  /** Where the output ended, in terms of the parts of the headers. */
  ghost predicate EndsInPart(e: CreateElfCoreError, n: int, ehdr: nat, phdrs: nat, notes: nat, all: nat) {
    match e
    case EhdrError => 0 <= n < ehdr
    case PhdrError => ehdr <= n < phdrs
    case NotesError => phdrs <= n < notes
    case PaddingError => notes <= n < all
    case SegmentError => false
  }

  method WriteParts(w: Writer, inp: CoreInputs, ehdr: seq<byte>, note: seq<byte>, first: nat, noteAlign: nat,
                    ghost g: Goal, ghost table: seq<byte>, ghost section: seq<byte>, ghost zeros: seq<byte>)
    returns (r: Option<CreateElfCoreError>)
    requires Valid(inp)
    requires table == PhdrTable(LoadPhdrs(inp.mappings, first, inp.pagesize)) && section == Section(inp)
    requires zeros == Zeros(noteAlign)
    requires w.Sofar(g, []) && g.low == 0 && g.total == ehdr + (note + (table + (section + zeros)))
    modifies w, w.fd
    ensures Emitted(g.start, w.Out(), g.total, r.None?) && (w.fd.reliable && r.Some? ==> w.Done())
    ensures r.Some? ==>
      var phdrs := |ehdr| + |note| + |table|;
      EndsInPart(r.value, |w.fd.data| - |g.start.data|, |ehdr|, phdrs, phdrs + |section|, |g.total|)
  {
    ghost var rest := section + zeros;
    NW.Peel([], ehdr, note + (table + rest), g.total);
    var ok := WritePart(w, ehdr, g, []);
    if !ok {
      return Some(EhdrError);
    }
    ghost var pre := [] + ehdr;
    NW.Peel(pre, note, table + rest, g.total);
    ok := WritePart(w, note, g, pre);
    if !ok {
      return Some(PhdrError);
    }
    pre := pre + note;
    NW.Peel(pre, table, rest, g.total);
    ok := WriteTable(w, inp.mappings, first, inp.pagesize, g, pre, table);
    if !ok {
      return Some(PhdrError);
    }
    r := WriteNotesAndPadding(w, inp, noteAlign, g, pre + table, section, zeros);
  }

  /** One part of the headers. */
  method WritePart(w: Writer, piece: seq<byte>, ghost g: Goal, ghost pre: seq<byte>) returns (ok: bool)
    requires w.Sofar(g, pre) && g.low == 0 && pre + piece <= g.total
    modifies w, w.fd
    ensures ok ==> w.Sofar(g, pre + piece)
    ensures !ok ==> w.Stopped(g) && |pre| <= |w.fd.data| - |g.start.data| < |pre| + |piece|
    ensures !ok ==> (w.fd.reliable ==> w.Done())
  {
    w.PartBegins(g, pre, piece);
    var written := w.Append(piece, Part(g, pre, piece), pre);
    ok := written.None?;
    w.PartEnds(g, pre, piece, ok);
  }

  /** The PT_LOAD headers as one part. */
  method WriteTable(w: Writer, ms: seq<Mapping>, first: nat, pagesize: nat, ghost g: Goal, ghost pre: seq<byte>,
                    ghost table: seq<byte>)
    returns (ok: bool)
    requires (forall m | m in ms :: m.start <= m.end) && table == PhdrTable(LoadPhdrs(ms, first, pagesize))
    requires w.Sofar(g, pre) && g.low == 0 && pre + table <= g.total
    modifies w, w.fd
    ensures ok ==> w.Sofar(g, pre + table)
    ensures !ok ==> w.Stopped(g) && |pre| <= |w.fd.data| - |g.start.data| < |pre| + |table|
    ensures !ok ==> (w.fd.reliable ==> w.Done())
  {
    w.PartBegins(g, pre, table);
    var r := WriteLoadPhdrs(w, ms, first, pagesize, Part(g, pre, table), pre);
    ok := r.None?;
    w.PartEnds(g, pre, table, ok);
  }

  /** Notes and padding, which complete the headers. */
  method WriteNotesAndPadding(w: Writer, inp: CoreInputs, noteAlign: nat, ghost g: Goal,
                              ghost pre: seq<byte>, ghost section: seq<byte>, ghost zeros: seq<byte>)
    returns (r: Option<CreateElfCoreError>)
    requires Valid(inp) && section == Section(inp) && zeros == Zeros(noteAlign)
    requires w.Sofar(g, pre) && g.low == 0 && g.total == pre + (section + zeros)
    modifies w, w.fd
    ensures Emitted(g.start, w.Out(), g.total, r.None?) && (w.fd.reliable && r.Some? ==> w.Done())
    ensures r.Some? ==>
      && r.value in {NotesError, PaddingError}
      && EndsInPart(r.value, |w.fd.data| - |g.start.data|, 0, |pre|, |pre| + |section|, |g.total|)
  {
    NW.Peel(pre, section, zeros, g.total);
    w.PartBegins(g, pre, section);
    var written := NW.WriteNotes(w, inp, Part(g, pre, section), pre);
    w.PartEnds(g, pre, section, written.None?);
    if written.Some? {
      return Some(NotesError);
    }
    w.PartBegins(g, pre + section, zeros);
    r := WritePadding(w, noteAlign, Part(g, pre + section, zeros), pre + section);
    w.PartEnds(g, pre + section, zeros, r.None?);
    assert pre + section + zeros == pre + (section + zeros);
  }
}
