/** Reading memory through a loopback pipe, so that unreadable pages fail a system call instead of faulting. */
module Probe {
  import opened Bytes
  import opened Kernel
  import opened Pages

  /** The kernel side of a loopback pipe with both ends open and one user.

      Each system call is a contract with a nondeterministic body. A read that the real kernel would block on forever
      is excluded by a `requires`, so every call site proves that it cannot hang. A write into a pipe that is not idle
      promises almost nothing: that happens only after an error that left the pipe in disorder. */
  class Pipe {
    /** Bytes the pipe can hold. */
    const capacity: nat
    /** Whether a probe of readable memory may still be cut short. */
    const spuriousShort: bool
    /** Whether calls may fail with an errno other than EINTR, EAGAIN and EFAULT. */
    const hardErrors: bool
    /** Bytes written and not yet read. */
    var queued: seq<byte>
    /** Empty slots that a faulted write left behind; they take up room and a blocking read waits on them. */
    var emptySlots: nat
    /** Status flags of the read end: O_NONBLOCK and the rest. */
    var nonblock: bool
    var otherFlags: nat
    /** How many more calls a signal may interrupt. */
    var interrupts: nat

    constructor (capacity: nat, spuriousShort: bool, hardErrors: bool, interrupts: nat)
      ensures this.capacity == capacity && this.spuriousShort == spuriousShort && this.hardErrors == hardErrors
      ensures Idle() && !nonblock && this.interrupts == interrupts
    {
      this.capacity, this.spuriousShort, this.hardErrors := capacity, spuriousShort, hardErrors;
      queued, emptySlots, nonblock, otherFlags := [], 0, false, 0;
      this.interrupts := interrupts;
    }

    ghost predicate Idle()
      reads this
    {
      queued == [] && emptySlots == 0
    }

    ghost predicate SameFlags(nonblock0: bool, otherFlags0: nat)
      reads this
    {
      nonblock == nonblock0 && otherFlags == otherFlags0
    }

    /** `write(2)` of `[addr, addr + len)` into the write end. */
    method SysWrite(mem: Memory, addr: nat, len: nat) returns (r: SysResult)
      requires len <= capacity
      modifies this
      ensures SameFlags(old(nonblock), old(otherFlags)) && interrupts <= old(interrupts)
      ensures r.Ok? ==> r.n <= len && r.n <= |queued|
      ensures old(Idle()) ==> Probed(mem, addr, len, r)
      ensures r == Err(EINTR) ==> interrupts < old(interrupts)
      ensures r.Err? && !hardErrors ==> r.errno in {EINTR, EFAULT}
    {
      if {
        case interrupts > 0 =>
          interrupts := interrupts - 1;
          return Err(EINTR);
        case hardErrors =>
          var e: int :| e !in {EINTR, EFAULT};
          return Err(e);
        case true =>
      }
      var n: nat;
      if queued != [] || emptySlots > 0 {
        n :| 0 <= n <= len;
        queued := queued + mem.Raw(addr, n);
        return Ok(n);
      }
      if mem.AllReadable(addr, len) {
        n := len;
        if spuriousShort && len > 0 {
          n :| 1 <= n <= len;
        }
      } else {
        emptySlots := *;
        if * {
          return Err(EFAULT);
        }
        n :| 0 <= n < len && mem.AllReadable(addr, n);
      }
      queued := mem.Raw(addr, n);
      return Ok(n);
    }

    /** The state after probing `[addr, addr + len)` through an idle pipe with outcome `r`. */
    ghost predicate Probed(mem: Memory, addr: nat, len: nat, r: SysResult)
      reads this
    {
      && (r.Ok? ==>
            && r.n <= len && mem.AllReadable(addr, r.n) && queued == mem.Raw(addr, r.n)
            && (r.n == len ==> emptySlots == 0)
            && (r.n < len && (r.n == 0 || !spuriousShort) ==> !mem.AllReadable(addr, len)))
      && (r == Err(EFAULT) ==> queued == [] && !mem.AllReadable(addr, len))
      && (r == Err(EINTR) ==> Idle())
    }

    /** `read(2)` of at most `max` bytes into `dst[lo..]`. An empty blocking pipe would never return. */
    method SysRead(dst: array<byte>, lo: nat, max: nat) returns (r: SysResult)
      requires queued != [] || nonblock
      requires 0 < max && lo + max <= dst.Length
      modifies this, dst
      ensures SameFlags(old(nonblock), old(otherFlags))
      ensures interrupts <= old(interrupts) && emptySlots <= old(emptySlots)
      ensures r.Ok? ==>
        && 1 <= r.n <= max && r.n <= |old(queued)| && queued == old(queued)[r.n..]
        && Patched(old(dst[..]), dst[..], lo, old(queued)[..r.n])
      ensures r.Err? ==> queued == old(queued) && dst[..] == old(dst[..])
      ensures r == Err(EINTR) ==> interrupts < old(interrupts)
      ensures r == Err(EAGAIN) ==> queued == [] && emptySlots == 0
      ensures r != Err(EFAULT)
      ensures r.Err? && !hardErrors ==> r.errno in {EINTR, EAGAIN}
    {
      if {
        case interrupts > 0 =>
          interrupts := interrupts - 1;
          return Err(EINTR);
        case hardErrors =>
          var e: int :| e !in {EINTR, EAGAIN, EFAULT};
          return Err(e);
        case true =>
      }
      if queued == [] {
        emptySlots := 0;
        return Err(EAGAIN);
      }
      var n: nat :| 1 <= n <= max && n <= |queued|;
      forall i | 0 <= i < n {
        dst[lo + i] := queued[i];
      }
      queued := queued[n..];
      var left: nat :| left <= emptySlots;
      emptySlots := left;
      return Ok(n);
    }

    /** `fcntl(F_SETFL)` on the read end. */
    method SysSetFlags(nonblock': bool, otherFlags': nat) returns (r: SysResult)
      modifies this`nonblock, this`otherFlags
      ensures r.Ok? ==> SameFlags(nonblock', otherFlags')
      ensures r.Err? ==> SameFlags(old(nonblock), old(otherFlags)) && hardErrors && r.errno != EFAULT
    {
      if {
        case hardErrors =>
          var e: int :| e != EFAULT;
          return Err(e);
        case true =>
      }
      nonblock, otherFlags := nonblock', otherFlags';
      return Ok(0);
    }
  }

  /** `after` is `before` with `bs` written at `lo`. */
  ghost predicate Patched(before: seq<byte>, after: seq<byte>, lo: nat, bs: seq<byte>) {
    && |after| == |before| && lo + |bs| <= |before|
    && (forall i | 0 <= i < |bs| :: after[lo + i] == bs[i])
    && (forall i | 0 <= i < |before| && !(lo <= i < lo + |bs|) :: after[i] == before[i])
  }

  /** `c_read`: a read that never reports EINTR. */
  method CRead(pipe: Pipe, dst: array<byte>, lo: nat, max: nat) returns (r: SysResult)
    requires pipe.queued != [] || pipe.nonblock
    requires 0 < max && lo + max <= dst.Length
    modifies pipe, dst
    ensures pipe.SameFlags(old(pipe.nonblock), old(pipe.otherFlags))
    ensures pipe.interrupts <= old(pipe.interrupts) && pipe.emptySlots <= old(pipe.emptySlots)
    ensures r.Ok? ==>
      && 1 <= r.n <= max && r.n <= |old(pipe.queued)| && pipe.queued == old(pipe.queued)[r.n..]
      && Patched(old(dst[..]), dst[..], lo, old(pipe.queued)[..r.n])
    ensures r.Err? ==> pipe.queued == old(pipe.queued) && dst[..] == old(dst[..])
    ensures r == Err(EAGAIN) ==> pipe.Idle()
    ensures r.Err? ==> r.errno !in {EINTR, EFAULT}
    ensures r.Err? && !pipe.hardErrors ==> r.errno == EAGAIN
  {
    r := pipe.SysRead(dst, lo, max);
    while r == Err(EINTR)
      invariant pipe.SameFlags(old(pipe.nonblock), old(pipe.otherFlags))
      invariant pipe.interrupts <= old(pipe.interrupts) && pipe.emptySlots <= old(pipe.emptySlots)
      invariant r.Ok? ==>
        && 1 <= r.n <= max && r.n <= |old(pipe.queued)| && pipe.queued == old(pipe.queued)[r.n..]
        && Patched(old(dst[..]), dst[..], lo, old(pipe.queued)[..r.n])
      invariant r.Err? ==> pipe.queued == old(pipe.queued) && dst[..] == old(dst[..])
      invariant r == Err(EAGAIN) ==> pipe.Idle()
      invariant r != Err(EFAULT)
      invariant r.Err? && !pipe.hardErrors ==> r.errno in {EINTR, EAGAIN}
      decreases pipe.interrupts, r == Err(EINTR)
    {
      r := pipe.SysRead(dst, lo, max);
    }
  }

  /** `clear_probe_slots`: drain whatever a faulted probe left, without blocking, and restore the flags. */
  method ClearProbeSlots(pipe: Pipe) returns (r: SysResult)
    modifies pipe
    ensures r.Ok? ==> pipe.Idle() && pipe.SameFlags(old(pipe.nonblock), old(pipe.otherFlags))
    ensures r.Err? ==> pipe.hardErrors && r.errno != EFAULT
  {
    var nonblock, otherFlags := pipe.nonblock, pipe.otherFlags;
    r := pipe.SysSetFlags(true, otherFlags);
    if r.Err? {
      return;
    }
    var discarded := new byte[1];
    var drained := CRead(pipe, discarded, 0, 1);
    while drained.Ok?
      invariant pipe.SameFlags(true, otherFlags)
      invariant drained.Err? && drained.errno == EAGAIN ==> pipe.Idle()
      invariant drained.Err? ==> drained.errno != EFAULT && (pipe.hardErrors || drained.errno == EAGAIN)
      invariant fresh(discarded)
      decreases |pipe.queued|, drained.Ok?
    {
      drained := CRead(pipe, discarded, 0, 1);
    }
    r := pipe.SysSetFlags(nonblock, otherFlags);
    if r.Ok? && drained.errno != EAGAIN {
      return drained;
    }
  }

  /** `read_memory`: copy `[addr, addr + len)` into `scratch[lo..lo + len]` through the pipe.

      The pipe is idle again, with its own flags, after every Ok and every EFAULT, so a later probe
      neither blocks on leftovers nor reads stale bytes. */
  method ReadMemory(pipe: Pipe, mem: Memory, addr: nat, scratch: array<byte>, lo: nat, len: nat)
    returns (r: SysResult)
    requires 0 < len <= pipe.capacity && lo + len <= scratch.Length
    modifies pipe, scratch
    ensures r.Ok? ==> r.n <= len
    ensures r.Err? && !pipe.hardErrors ==> r.errno == EFAULT
    ensures old(pipe.Idle()) && (r.Ok? || r == Err(EFAULT)) ==>
      && pipe.Idle() && pipe.SameFlags(old(pipe.nonblock), old(pipe.otherFlags))
      && Copied(mem, addr, len, old(scratch[..]), scratch[..], lo, r, pipe.spuriousShort)
  {
    var probe := pipe.SysWrite(mem, addr, len);
    while probe == Err(EINTR)
      modifies pipe
      invariant pipe.SameFlags(old(pipe.nonblock), old(pipe.otherFlags))
      invariant probe.Ok? ==> probe.n <= len && probe.n <= |pipe.queued|
      invariant old(pipe.Idle()) ==> pipe.Probed(mem, addr, len, probe)
      invariant probe.Err? && !pipe.hardErrors ==> probe.errno in {EINTR, EFAULT}
      decreases pipe.interrupts, probe == Err(EINTR)
    {
      probe := pipe.SysWrite(mem, addr, len);
    }
    if probe == Err(EFAULT) {
      var cleared := ClearProbeSlots(pipe);
      assert scratch[..] == old(scratch[..]);
      return if cleared.Err? then cleared else probe;
    }
    if probe.Err? {
      return probe;
    }
    var wrote := probe.n;
    r := Drain(pipe, scratch, lo, wrote);
    if r.Ok? && wrote < len {
      ghost var drained := scratch[..];
      var cleared := ClearProbeSlots(pipe);
      if cleared.Err? {
        return cleared;
      }
      assert scratch[..] == drained;
    }
  }

  /** What a probe through an idle pipe did to the buffer: the readable bytes it reports were copied, a fault copied
      none, and either falls short only of unreadable memory (or, if `short`, of an interrupted call). */
  ghost predicate Copied(mem: Memory, addr: nat, len: nat, before: seq<byte>, after: seq<byte>, lo: nat, r: SysResult,
                         short: bool) {
    && (r.Ok? ==>
          && r.n <= len && mem.AllReadable(addr, r.n) && Patched(before, after, lo, mem.Raw(addr, r.n))
          && (r.n < len && (r.n == 0 || !short) ==> !mem.AllReadable(addr, len)))
    && (r == Err(EFAULT) ==> after == before && !mem.AllReadable(addr, len))
  }

  /** The drain loop of `read_memory`: short reads until all `wrote` queued bytes are in `scratch[lo..]`. */
  method Drain(pipe: Pipe, scratch: array<byte>, lo: nat, wrote: nat) returns (r: SysResult)
    requires wrote <= |pipe.queued| && lo + wrote <= scratch.Length
    modifies pipe, scratch
    ensures r.Ok? ==>
      && r.n == wrote && pipe.queued == old(pipe.queued)[wrote..] && pipe.emptySlots <= old(pipe.emptySlots)
      && pipe.SameFlags(old(pipe.nonblock), old(pipe.otherFlags))
      && Patched(old(scratch[..]), scratch[..], lo, old(pipe.queued)[..wrote])
    ensures r.Err? ==> pipe.hardErrors && r.errno != EFAULT
  {
    var read := 0;
    ghost var queue := pipe.queued;
    ghost var before := scratch[..];
    while read < wrote
      invariant 0 <= read <= wrote <= |queue|
      invariant pipe.SameFlags(old(pipe.nonblock), old(pipe.otherFlags))
      invariant pipe.queued == queue[read..] && pipe.emptySlots <= old(pipe.emptySlots)
      invariant Patched(before, scratch[..], lo, queue[..read])
    {
      ghost var now := scratch[..];
      var bytes := CRead(pipe, scratch, lo + read, wrote - read);
      if bytes.Err? {
        return bytes;
      }
      PatchTwice(before, now, scratch[..], lo, queue, read, bytes.n);
      read := read + bytes.n;
    }
    return Ok(read);
  }

  lemma PatchTwice(s0: seq<byte>, s1: seq<byte>, s2: seq<byte>, lo: nat, bs: seq<byte>, done: nat, n: nat)
    requires done + n <= |bs|
    requires Patched(s0, s1, lo, bs[..done]) && Patched(s1, s2, lo + done, bs[done..][..n])
    ensures Patched(s0, s2, lo, bs[..done + n])
  {
    forall i | 0 <= i < done + n
      ensures s2[lo + i] == bs[i]
    {
      if i < done {
        assert s1[lo + i] == bs[..done][i];
      } else {
        assert s2[lo + done + (i - done)] == bs[done..][..n][i - done];
      }
    }
  }

  /** A page the leading-zero scan steps over: unreadable somewhere, or all zero. */
  ghost predicate Skippable(mem: Memory, a: nat, pagesize: nat) {
    mem.AllReadable(a, pagesize) ==> forall x: nat | a <= x < a + pagesize :: mem.content(x) == 0
  }

  /** The bytes the scan steps over, page by page. */
  ghost function Lead(mem: Memory, a: nat, len: nat, pagesize: nat): (r: nat)
    requires pagesize > 0
    ensures r <= len
    decreases len
  {
    if len < pagesize || !Skippable(mem, a, pagesize) then 0
    else pagesize + Lead(mem, a + pagesize, len - pagesize, pagesize)
  }

  /** Every whole page of `[a, a + base)` is skippable. */
  ghost predicate SkippedTo(mem: Memory, a: nat, base: nat, pagesize: nat)
    requires pagesize > 0
  {
    forall q: nat | q < base && Multiple(q, pagesize) :: Skippable(mem, a + q, pagesize)
  }

  /** `r` is the length of the longest prefix of `[a, a + len)` made of whole skippable pages. */
  ghost predicate IsLongestLead(mem: Memory, a: nat, len: nat, pagesize: nat, r: nat)
    requires pagesize > 0
  {
    && Multiple(r, pagesize) && r <= len
    && SkippedTo(mem, a, r, pagesize)
    && (r < len ==> !Skippable(mem, a + r, pagesize))
  }

  lemma {:induction false} LeadIsLongest(mem: Memory, a: nat, len: nat, pagesize: nat)
    requires pagesize > 0 && Multiple(len, pagesize)
    ensures IsLongestLead(mem, a, len, pagesize, Lead(mem, a, len, pagesize))
    decreases len
  {
    if len > 0 {
      NextMultiple(0, len, pagesize);
      if Skippable(mem, a, pagesize) {
        LeadIsLongest(mem, a + pagesize, len - pagesize, pagesize);
        OneMorePage(mem, a, Lead(mem, a + pagesize, len - pagesize, pagesize), pagesize);
      }
    }
  }

  /** Memories that agree outside `owned` have the same lead outside `owned`. */
  lemma {:induction false} LeadAgrees(m1: Memory, m2: Memory, owned: nat -> bool, a: nat, len: nat, pagesize: nat)
    requires pagesize > 0 && Agree(owned, m1, m2) && Avoids(owned, a, len)
    ensures Lead(m1, a, len, pagesize) == Lead(m2, a, len, pagesize)
    decreases len
  {
    if len >= pagesize {
      AgreeReadable(owned, m1, m2, a, pagesize);
      assert Skippable(m1, a, pagesize) == Skippable(m2, a, pagesize);
      LeadAgrees(m1, m2, owned, a + pagesize, len - pagesize, pagesize);
    }
  }

  lemma SkippableAgrees(m1: Memory, m2: Memory, owned: nat -> bool, a: nat, pagesize: nat)
    requires Agree(owned, m1, m2) && Avoids(owned, a, pagesize)
    ensures Skippable(m1, a, pagesize) <==> Skippable(m2, a, pagesize)
  {
    AgreeReadable(owned, m1, m2, a, pagesize);
  }

  lemma OneMorePage(mem: Memory, a: nat, rest: nat, pagesize: nat)
    requires pagesize > 0 && Multiple(rest, pagesize)
    requires Skippable(mem, a, pagesize) && SkippedTo(mem, a + pagesize, rest, pagesize)
    ensures SkippedTo(mem, a, pagesize + rest, pagesize) && Multiple(pagesize + rest, pagesize)
  {
    forall q: nat | q < pagesize + rest && Multiple(q, pagesize)
      ensures Skippable(mem, a + q, pagesize)
    {
      if q > 0 {
        assert q >= pagesize && Multiple(q - pagesize, pagesize);
        assert Skippable(mem, a + pagesize + (q - pagesize), pagesize);
      }
    }
  }

  /** The longest lead is unique, so `Lead` is the only answer the scan may give. */
  lemma LongestLeadUnique(mem: Memory, a: nat, len: nat, pagesize: nat, r: nat)
    requires pagesize > 0 && Multiple(len, pagesize) && IsLongestLead(mem, a, len, pagesize, r)
    ensures r == Lead(mem, a, len, pagesize)
  {
    LeadIsLongest(mem, a, len, pagesize);
  }

  /** A skipped stretch is no longer than the lead. */
  lemma SkippedIsLead(mem: Memory, a: nat, len: nat, pagesize: nat, r: nat)
    requires pagesize > 0 && Multiple(len, pagesize) && Multiple(r, pagesize) && r <= len
    requires SkippedTo(mem, a, r, pagesize)
    ensures r <= Lead(mem, a, len, pagesize)
  {
    LeadIsLongest(mem, a, len, pagesize);
  }

  /** Every whole page of `[a, a + base)` outside `owned` is skippable. */
  ghost predicate SkippedOutside(mem: Memory, owned: nat -> bool, a: nat, base: nat, pagesize: nat)
    requires pagesize > 0
  {
    forall q: nat | q < base && Multiple(q, pagesize) && Avoids(owned, a + q, pagesize) ::
      Skippable(mem, a + q, pagesize)
  }

  lemma SkippedMore(mem: Memory, owned: nat -> bool, a: nat, base: nat, pagesize: nat)
    requires pagesize > 0 && Multiple(base, pagesize) && SkippedOutside(mem, owned, a, base, pagesize)
    requires Avoids(owned, a + base, pagesize) ==> Skippable(mem, a + base, pagesize)
    ensures SkippedOutside(mem, owned, a, base + pagesize, pagesize)
  {
    forall q: nat | q < base + pagesize && Multiple(q, pagesize) && Avoids(owned, a + q, pagesize)
      ensures Skippable(mem, a + q, pagesize)
    {
      if q > base {
        NextMultiple(base, q, pagesize);
      }
    }
  }

  /** Where nothing is owned, that is every page. */
  lemma SkippedAll(mem: Memory, owned: nat -> bool, a: nat, len: nat, base: nat, pagesize: nat)
    requires pagesize > 0 && Multiple(base, pagesize) && base <= len && Avoids(owned, a, len)
    requires SkippedOutside(mem, owned, a, base, pagesize)
    ensures SkippedTo(mem, a, base, pagesize)
  {
    forall q: nat | q < base && Multiple(q, pagesize)
      ensures Skippable(mem, a + q, pagesize)
    {
      NextMultiple(q, base, pagesize);
      assert Avoids(owned, a + q, pagesize);
    }
  }

  /** Page boundaries around `count`, for the page at `base`. */
  lemma AtBoundary(base: nat, count: nat, len: nat, pagesize: nat)
    requires pagesize > 0 && Multiple(base, pagesize) && Multiple(len, pagesize)
    requires base <= count <= base + pagesize && count <= len
    ensures Multiple(count, pagesize) <==> count == base || count == base + pagesize
    ensures count - Rem(count, pagesize) == if count == base + pagesize then count else base
    ensures Multiple(count, pagesize) && count < len ==> count + pagesize <= len && Multiple(count + pagesize, pagesize)
  {
    RemPlus(base, count - base, pagesize);
    if Multiple(count, pagesize) && count < len {
      NextMultiple(count, len, pagesize);
      RemPlus(count, pagesize, pagesize);
    }
  }

  /** The page at `a` sits in `scratch` and its first `n` bytes are zero. */
  ghost predicate ZeroRun(mem: Memory, a: nat, scratch: array<byte>, pagesize: nat, n: nat)
    requires pagesize <= scratch.Length
    reads scratch
  {
    && mem.AllReadable(a, pagesize) && (forall i: nat | i < pagesize :: scratch[i] == mem.content(a + i))
    && n <= pagesize && (forall i: nat | i < n :: scratch[i] == 0)
  }

  lemma ZeroPageSkippable(mem: Memory, a: nat, scratch: array<byte>, pagesize: nat)
    requires pagesize <= scratch.Length && ZeroRun(mem, a, scratch, pagesize, pagesize)
    ensures Skippable(mem, a, pagesize)
  {
    forall x: nat | a <= x < a + pagesize
      ensures mem.content(x) == 0
    {
      assert scratch[x - a] == mem.content(a + (x - a));
    }
  }

  lemma ZeroRunMore(mem: Memory, a: nat, scratch: array<byte>, pagesize: nat, n: nat)
    requires n < pagesize <= scratch.Length && ZeroRun(mem, a, scratch, pagesize, n) && scratch[n] == 0
    ensures ZeroRun(mem, a, scratch, pagesize, n + 1)
  {
  }

  lemma NonzeroStops(mem: Memory, a: nat, scratch: array<byte>, pagesize: nat, n: nat)
    requires n < pagesize <= scratch.Length && ZeroRun(mem, a, scratch, pagesize, n) && scratch[n] != 0
    ensures !Skippable(mem, a, pagesize)
  {
    assert mem.content(a + n) != 0;
  }

  datatype PageProbe = Loaded | Unreadable | Broken

  /** One page read of the scan: a full page counts as loaded, anything shorter as unreadable. */
  method ProbePage(pipe: Pipe, space: Space, a: nat, pagesize: nat, scratch: array<byte>,
                   ghost mem: Memory, ghost exact: bool)
    returns (p: PageProbe)
    requires 0 < pagesize <= pipe.capacity && pagesize <= scratch.Length && space.Near(mem)
    requires exact ==> pipe.Idle() && !pipe.spuriousShort
    modifies pipe, scratch, space
    ensures space.Near(mem) && (p.Broken? ==> pipe.hardErrors)
    ensures old(pipe.Idle()) && !p.Broken? ==>
      pipe.Idle() && pipe.SameFlags(old(pipe.nonblock), old(pipe.otherFlags))
    ensures exact && p.Loaded? && Avoids(space.owned, a, pagesize) ==> ZeroRun(mem, a, scratch, pagesize, 0)
    ensures exact && p.Unreadable? ==> Skippable(mem, a, pagesize)
  {
    space.Drift(mem);
    var read := ReadMemory(pipe, space.mem, a, scratch, 0, pagesize);
    AgreeReadable(space.owned, mem, space.mem, a, pagesize);
    if read.Ok? && read.n == pagesize {
      if exact && Avoids(space.owned, a, pagesize) {
        forall i: nat | i < pagesize
          ensures scratch[i] == mem.content(a + i)
        {
          assert scratch[..][0 + i] == space.mem.Raw(a, pagesize)[i];
        }
      }
      return Loaded;
    }
    return if read.Ok? || read.errno == EFAULT then Unreadable else Broken;
  }

  /** A range being scanned: `mem` is what memory is outside `owned`; if `exact`, probes tell the truth. */
  datatype Range = Range(mem: Memory, owned: nat -> bool, a: nat, len: nat, pagesize: nat, exact: bool)

  /** The scan stands at `count`, inside or at the end of the page at `base`; the pages before `base` that are not owned
      are skippable, and if this one is not owned its bytes so far are zero. */
  ghost predicate Scanning(g: Range, scratch: array<byte>, base: nat, count: nat, ptr: nat)
    requires 0 < g.pagesize <= scratch.Length
    reads scratch
  {
    && Multiple(base, g.pagesize) && base <= count <= base + g.pagesize && count <= g.len
    && (g.exact ==> SkippedOutside(g.mem, g.owned, g.a, base, g.pagesize))
    && (base < count ==> ptr == count - base && InPage(g, scratch, base, ptr))
  }

  /** The first `n` bytes of the page at `base` are zero, as far as that matters. */
  ghost predicate InPage(g: Range, scratch: array<byte>, base: nat, n: nat)
    requires g.pagesize <= scratch.Length
    reads scratch
  {
    g.exact && Avoids(g.owned, g.a + base, g.pagesize) ==> ZeroRun(g.mem, g.a + base, scratch, g.pagesize, n)
  }

  /** At a page boundary the page behind, if any, was all zero. */
  lemma PageDone(g: Range, scratch: array<byte>, base: nat, count: nat, ptr: nat)
    requires 0 < g.pagesize <= scratch.Length && Multiple(g.len, g.pagesize) && Multiple(count, g.pagesize)
    requires Scanning(g, scratch, base, count, ptr)
    ensures Scanning(g, scratch, count, count, ptr)
  {
    AtBoundary(base, count, g.len, g.pagesize);
    if base < count && g.exact {
      if Avoids(g.owned, g.a + base, g.pagesize) {
        ZeroPageSkippable(g.mem, g.a + base, scratch, g.pagesize);
      }
      SkippedMore(g.mem, g.owned, g.a, base, g.pagesize);
    }
  }

  /** Stepping over an unreadable page. */
  lemma PageSkipped(g: Range, scratch: array<byte>, base: nat, ptr: nat)
    requires 0 < g.pagesize <= scratch.Length && Multiple(g.len, g.pagesize) && base < g.len
    requires Scanning(g, scratch, base, base, ptr) && (g.exact ==> Skippable(g.mem, g.a + base, g.pagesize))
    ensures Scanning(g, scratch, base + g.pagesize, base + g.pagesize, ptr)
  {
    AtBoundary(base, base, g.len, g.pagesize);
    if g.exact {
      SkippedMore(g.mem, g.owned, g.a, base, g.pagesize);
    }
  }

  /** The scan stands at `count` in a page at `base` that has been loaded. */
  ghost predicate Inspecting(g: Range, scratch: array<byte>, base: nat, count: nat)
    requires 0 < g.pagesize <= scratch.Length
    reads scratch
  {
    && Multiple(base, g.pagesize) && base <= count < base + g.pagesize && count < g.len
    && (g.exact ==> SkippedOutside(g.mem, g.owned, g.a, base, g.pagesize))
    && InPage(g, scratch, base, count - base)
  }

  /** At a page boundary: load the next page, step over it, or give up. */
  method EnterPage(pipe: Pipe, space: Space, scratch: array<byte>, a: nat, pagesize: nat, count: nat,
                   ghost g: Range, ghost ptr: nat, ghost base: nat)
    returns (probe: PageProbe)
    requires 0 < pagesize <= pipe.capacity && pagesize <= scratch.Length && space.Near(g.mem)
    requires g.owned == space.owned && g.a == a && g.pagesize == pagesize
    requires Multiple(g.len, pagesize) && count < g.len && Multiple(count, pagesize)
    requires (g.exact ==> pipe.Idle() && !pipe.spuriousShort) && Scanning(g, scratch, base, count, ptr)
    modifies pipe, scratch, space
    ensures space.Near(g.mem) && (probe.Broken? ==> pipe.hardErrors)
    ensures old(pipe.Idle()) && !probe.Broken? ==>
      pipe.Idle() && pipe.SameFlags(old(pipe.nonblock), old(pipe.otherFlags))
    ensures
      match probe
      case Loaded => Inspecting(g, scratch, count, count)
      case Unreadable => Scanning(g, scratch, count + pagesize, count + pagesize, ptr)
      case Broken => Scanning(g, scratch, count, count, ptr)
  {
    PageDone(g, scratch, base, count, ptr);
    AtBoundary(count, count, g.len, pagesize);
    probe := ProbePage(pipe, space, a + count, pagesize, scratch, g.mem, g.exact);
    if probe.Unreadable? {
      PageSkipped(g, scratch, count, ptr);
    }
  }

  /** Inside a page: step over a zero byte or stop at another. */
  method InspectByte(scratch: array<byte>, ptr: nat, ghost g: Range, ghost base: nat, ghost count: nat)
    returns (stop: bool)
    requires 0 < g.pagesize <= scratch.Length && Inspecting(g, scratch, base, count) && ptr == count - base
    ensures stop ==> Scanning(g, scratch, base, count, ptr)
    ensures !stop ==> Scanning(g, scratch, base, count + 1, ptr + 1)
    ensures stop && g.exact && Avoids(g.owned, g.a + base, g.pagesize) ==> !Skippable(g.mem, g.a + base, g.pagesize)
  {
    stop := scratch[ptr] != 0;
    if g.exact && Avoids(g.owned, g.a + base, g.pagesize) {
      if stop {
        NonzeroStops(g.mem, g.a + base, scratch, g.pagesize, ptr);
      } else {
        ZeroRunMore(g.mem, g.a + base, scratch, g.pagesize, ptr);
      }
    }
  }

  /** One turn of the scan loop: step over a page, over a byte, or stop. */
  method ScanStep(pipe: Pipe, space: Space, scratch: array<byte>, a: nat, pagesize: nat, count0: nat, ptr0: nat,
                  ghost g: Range, ghost base0: nat)
    returns (count: nat, ptr: nat, stop: bool, ghost base: nat)
    requires 0 < pagesize <= pipe.capacity && pagesize <= scratch.Length && space.Near(g.mem)
    requires g.owned == space.owned && g.a == a && g.pagesize == pagesize
    requires Multiple(g.len, pagesize) && count0 < g.len
    requires (g.exact ==> pipe.Idle() && !pipe.spuriousShort) && Scanning(g, scratch, base0, count0, ptr0)
    modifies pipe, scratch, space
    ensures space.Near(g.mem) && Scanning(g, scratch, base, count, ptr)
    ensures count0 <= count && (!stop ==> count0 < count) && (stop ==> count < base + pagesize)
    ensures old(pipe.Idle()) && (!stop || !pipe.hardErrors) ==>
      pipe.Idle() && pipe.SameFlags(old(pipe.nonblock), old(pipe.otherFlags))
    ensures stop ==> pipe.hardErrors || StoppedRight(g, base)
  {
    count, ptr, stop, base := count0, ptr0, false, base0;
    AtBoundary(base, count, g.len, pagesize);
    if Multiple(count, pagesize) {
      var probe := EnterPage(pipe, space, scratch, a, pagesize, count, g, ptr, base);
      base := count;
      if probe.Unreadable? {
        count := count + pagesize;
        base := count;
        return;
      }
      if probe.Broken? {
        stop := true;
        return;
      }
      ptr := 0;
    }
    stop := InspectByte(scratch, ptr, g, base, count);
    if !stop {
      ptr, count := ptr + 1, count + 1;
    }
  }

  /** The page at `base`, if it is not owned, is not to be skipped. */
  ghost predicate StoppedRight(g: Range, base: nat) {
    g.exact && Avoids(g.owned, g.a + base, g.pagesize) ==> !Skippable(g.mem, g.a + base, g.pagesize)
  }

  /** Where the scan stands when it ends, rounded down, is how far whole pages have been passed. */
  lemma ScanEnds(g: Range, scratch: array<byte>, base: nat, count: nat, ptr: nat)
    requires 0 < g.pagesize <= scratch.Length && Multiple(g.len, g.pagesize) && Scanning(g, scratch, base, count, ptr)
    ensures
      var r := if count == base + g.pagesize then count else base;
      && count - Rem(count, g.pagesize) == r && Multiple(r, g.pagesize) && (count == g.len ==> r == g.len)
      && (g.exact ==> SkippedOutside(g.mem, g.owned, g.a, r, g.pagesize))
  {
    AtBoundary(base, count, g.len, g.pagesize);
    if count == base + g.pagesize {
      PageDone(g, scratch, base, count, ptr);
    } else if count == g.len {
      assert Multiple(count, g.pagesize);
    }
  }

  /** With nothing owned in the range, where the scan ends is the lead. */
  lemma EndIsLead(g: Range, r: nat, broken: bool)
    requires g.pagesize > 0 && g.exact && Multiple(g.len, g.pagesize) && Multiple(r, g.pagesize) && r <= g.len
    requires SkippedOutside(g.mem, g.owned, g.a, r, g.pagesize) && Avoids(g.owned, g.a, g.len)
    requires r < g.len ==> broken || StoppedRight(g, r)
    ensures r <= Lead(g.mem, g.a, g.len, g.pagesize)
    ensures !broken ==> r == Lead(g.mem, g.a, g.len, g.pagesize)
  {
    SkippedAll(g.mem, g.owned, g.a, g.len, r, g.pagesize);
    SkippedIsLead(g.mem, g.a, g.len, g.pagesize, r);
    if !broken {
      if r < g.len {
        NextMultiple(r, g.len, g.pagesize);
        assert Avoids(g.owned, g.a + r, g.pagesize);
      }
      LongestLeadUnique(g.mem, g.a, g.len, g.pagesize, r);
    }
  }

  /** `leading_zeros` of a range in a living address space that is `mem` outside its owned part.

      The result is always whole pages within the range. If the pipe, idle at first, cuts no probe short, every page
      passed that is not owned is skippable; if besides nothing in the range is owned and no probe fails in any other
      way than EFAULT, it is exactly the lead. */
  method LeadingZeros(pipe: Pipe, space: Space, a: nat, len: nat, pagesize: nat, scratch: array<byte>,
                      ghost mem: Memory)
    returns (r: nat)
    requires 0 < pagesize <= pipe.capacity && pagesize <= scratch.Length && space.Near(mem)
    requires Multiple(len, pagesize)
    modifies pipe, scratch, space
    ensures space.Near(mem) && Multiple(r, pagesize) && r <= len
    ensures old(pipe.Idle()) && !pipe.hardErrors ==>
      pipe.Idle() && pipe.SameFlags(old(pipe.nonblock), old(pipe.otherFlags))
    ensures old(pipe.Idle()) && !pipe.spuriousShort ==> SkippedOutside(mem, space.owned, a, r, pagesize)
    ensures old(pipe.Idle()) && !pipe.spuriousShort && Avoids(space.owned, a, len) ==>
      r <= Lead(mem, a, len, pagesize) && (!pipe.hardErrors ==> r == Lead(mem, a, len, pagesize))
  {
    ghost var g := Range(mem, space.owned, a, len, pagesize, pipe.Idle() && !pipe.spuriousShort);
    var count: nat, ptr: nat, stop := 0, 0, false;
    ghost var base: nat := 0;
    while count < len && !stop
      invariant space.Near(mem) && Scanning(g, scratch, base, count, ptr)
      invariant old(pipe.Idle()) && (!stop || !pipe.hardErrors) ==>
        pipe.Idle() && pipe.SameFlags(old(pipe.nonblock), old(pipe.otherFlags))
      invariant stop ==> count < base + pagesize && (pipe.hardErrors || StoppedRight(g, base))
      decreases len - count, !stop
    {
      count, ptr, stop, base := ScanStep(pipe, space, scratch, a, pagesize, count, ptr, g, base);
    }
    ScanEnds(g, scratch, base, count, ptr);
    r := count - Rem(count, pagesize);
    if g.exact && Avoids(space.owned, a, len) {
      EndIsLead(g, r, pipe.hardErrors);
    }
  }
}
