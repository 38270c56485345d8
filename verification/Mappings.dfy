/** Deciding which mappings a core stores and how much of each, in place. */
module Mappings {
  import opened Bytes
  import opened Inputs
  import opened Pages
  import opened Probe

  /** What smaps says about a mapping. */
  datatype Hint = Hint(dontdump: bool, hasAnonPages: bool)

  // ---- Permission bits ----

  /** Raw `rwxp` bits to ELF access bits: drop the private bit, keep three. */
  function ElfBits(flags: nat): nat {
    flags / 2 % 8
  }

  predicate ElfReadable(flags: nat) {
    flags / 4 % 2 == 1
  }

  predicate ElfWritable(flags: nat) {
    flags / 2 % 2 == 1
  }

  /** The bits of an `rwxp` column as the parser packs them. */
  function PermBits(r: bool, w: bool, x: bool, p: bool): nat {
    (if r then 8 else 0) + (if w then 4 else 0) + (if x then 2 else 0) + (if p then 1 else 0)
  }

  /** The conversion keeps each access right and forgets the private one. */
  lemma ElfBitsKeepRights(r: bool, w: bool, x: bool, p: bool)
    ensures
      var elf := ElfBits(PermBits(r, w, x, p));
      && (ElfReadable(elf) <==> r) && (ElfWritable(elf) <==> w) && (elf % 2 == 1 <==> x)
      && elf == ElfBits(PermBits(r, w, x, !p))
  {
  }

  // ---- The keep rule ----

  predicate HasElfMagic(mem: Memory, a: nat) {
    mem.content(a) == 0x7f && mem.content(a + 1) == 0x45 && mem.content(a + 2) == 0x4c && mem.content(a + 3) == 0x46
  }

  function Enriched(m: Mapping, hints: nat -> Hint): Mapping {
    m.(dontdump := hints(m.start).dontdump, hasAnonPages := hints(m.start).hasAnonPages)
  }

  /** A mapping as the kernel lists it: whole pages. */
  predicate WholePages(m: Mapping, pagesize: nat)
    requires pagesize > 0
  {
    m.start <= m.end && Multiple(m.end - m.start, pagesize)
  }

  /** Bytes to store for the mapping from `start` on: all of it if it can differ from a file, the first page if it
      looks like an ELF header (`magic`), and otherwise none. */
  function StoredSize(m: Mapping, pagesize: usize, start: nat, magic: bool): usize
    requires start <= m.end
  {
    if m.isAnon || m.hasAnonPages || ElfWritable(ElfBits(m.flags)) then m.end - start
    else if m.offset == 0 && magic then pagesize
    else 0
  }

  /** What becomes of a mapping whose first `lead` bytes are skipped: dropped, or kept without them. */
  function FinalizedBy(m: Mapping, pagesize: usize, lead: nat, magic: bool): Option<Mapping>
    requires m.start + lead <= m.end
  {
    if m.isDevice || m.dontdump || !ElfReadable(ElfBits(m.flags)) then None else
    var start := m.start + lead;
    if start == m.end then None
    else Some(m.(flags := ElfBits(m.flags), start := start, writeSize := StoredSize(m, pagesize, start, magic)))
  }

  /** What should become of it: dropped, or kept without its leading zero pages. */
  ghost function Finalized(m: Mapping, mem: Memory, pagesize: usize): Option<Mapping>
    requires pagesize > 0 && WholePages(m, pagesize)
  {
    var lead := Lead(mem, m.start, m.end - m.start, pagesize);
    FinalizedBy(m, pagesize, lead, HasElfMagic(mem, m.start + lead))
  }

  /** What may become of it however memory is misread: some whole pages are skipped, some are kept. */
  ghost predicate Possible(m: Mapping, f: Option<Mapping>, pagesize: usize)
    requires pagesize > 0 && WholePages(m, pagesize)
  {
    exists lead: nat, magic: bool ::
      lead <= m.end - m.start && Multiple(lead, pagesize) && f == FinalizedBy(m, pagesize, lead, magic)
  }

  predicate AllWhole(ms: seq<Mapping>, pagesize: nat)
    requires pagesize > 0
  {
    forall i | 0 <= i < |ms| :: WholePages(ms[i], pagesize)
  }

  /** What became of each mapping: always something possible, and if the scan was `exact` the right thing for every
      mapping outside the owned part of memory. */
  ghost predicate Outcomes(ms: seq<Mapping>, fs: seq<Option<Mapping>>, mem: Memory, owned: nat -> bool,
                           pagesize: usize, exact: bool)
    requires pagesize > 0 && AllWhole(ms, pagesize)
  {
    |fs| == |ms| && forall i | 0 <= i < |ms| :: Settles(ms[i], fs[i], mem, owned, pagesize, exact)
  }

  /** None of the mapping is owned. */
  ghost predicate Outside(owned: nat -> bool, m: Mapping) {
    forall x: nat | m.start <= x < m.end :: !owned(x)
  }

  ghost predicate Settles(m: Mapping, f: Option<Mapping>, mem: Memory, owned: nat -> bool, pagesize: usize, exact: bool)
    requires pagesize > 0 && WholePages(m, pagesize)
  {
    && Possible(m, f, pagesize)
    && (exact ==> Careful(m, f, mem, owned, pagesize))
    && (exact && Outside(owned, m) ==> f == Finalized(m, mem, pagesize))
  }

  /** Possible without skipping any page outside the owned part that should be kept. */
  ghost predicate Careful(m: Mapping, f: Option<Mapping>, mem: Memory, owned: nat -> bool, pagesize: usize)
    requires pagesize > 0 && WholePages(m, pagesize)
  {
    exists lead: nat, magic: bool ::
      && lead <= m.end - m.start && Multiple(lead, pagesize) && f == FinalizedBy(m, pagesize, lead, magic)
      && SkippedOutside(mem, owned, m.start, lead, pagesize)
  }

  /** The mappings that were kept, in order. */
  function Somes(fs: seq<Option<Mapping>>): (r: seq<Mapping>)
    ensures |r| <= |fs|
  {
    if fs == [] then [] else
    var rest, last := Somes(fs[..|fs| - 1]), fs[|fs| - 1];
    if last.None? then rest else rest + [last.value]
  }

  function EnrichAll(ms: seq<Mapping>, hints: nat -> Hint): (r: seq<Mapping>)
    ensures |r| == |ms|
  {
    seq<Mapping>(|ms|, i requires 0 <= i < |ms| => Enriched(ms[i], hints))
  }

  /** Shortest text `first_bytes_are_elf` looks at. */
  const MAGIC_LEN: nat := 4

  /** The scan reads memory as it is: its pipe is idle at first and no probe fails in any other way than EFAULT. */
  ghost predicate ExactScan(pipe: Pipe, pagesize: nat)
    reads pipe
  {
    pipe.Idle() && !pipe.spuriousShort && !pipe.hardErrors && pagesize >= MAGIC_LEN
  }

  /** `finalize_mappings`: enrich, then compact the kept mappings to the front of the array. `fs` is what became of
      each. */
  method FinalizeMappings(maps: array<Mapping>, n: nat, pagesize: usize, pipe: Pipe, scratch: array<byte>,
                          space: Space, hints: nat -> Hint, ghost mem: Memory)
    returns (kept: nat, ghost fs: seq<Option<Mapping>>)
    requires n <= maps.Length && 0 < pagesize <= pipe.capacity && pagesize <= scratch.Length
    requires AllWhole(maps[..n], pagesize) && space.Near(mem)
    modifies maps, pipe, scratch, space
    ensures space.Near(mem) && kept <= n && maps[n..] == old(maps[n..]) && maps[..kept] == Somes(fs)
    ensures AllWhole(EnrichAll(old(maps[..n]), hints), pagesize)
    ensures Outcomes(EnrichAll(old(maps[..n]), hints), fs, mem, space.owned, pagesize, old(ExactScan(pipe, pagesize)))
  {
    EnrichFromSmaps(maps, n, hints);
    EnrichKeepsPages(old(maps[..n]), hints, pagesize);
    kept, fs := Compact(maps, n, pagesize, pipe, scratch, space, mem);
  }

  lemma EnrichKeepsPages(ms: seq<Mapping>, hints: nat -> Hint, pagesize: nat)
    requires pagesize > 0 && AllWhole(ms, pagesize)
    ensures AllWhole(EnrichAll(ms, hints), pagesize)
  {
    forall i | 0 <= i < |ms|
      ensures WholePages(EnrichAll(ms, hints)[i], pagesize)
    {
      assert WholePages(ms[i], pagesize);
    }
  }

  /** The in-place compaction loop. */
  method Compact(maps: array<Mapping>, n: nat, pagesize: usize, pipe: Pipe, scratch: array<byte>, space: Space,
                 ghost mem: Memory)
    returns (kept: nat, ghost fs: seq<Option<Mapping>>)
    requires n <= maps.Length && 0 < pagesize <= pipe.capacity && pagesize <= scratch.Length
    requires AllWhole(maps[..n], pagesize) && space.Near(mem)
    modifies maps, pipe, scratch, space
    ensures space.Near(mem) && kept <= n && maps[n..] == old(maps[n..]) && maps[..kept] == Somes(fs)
    ensures Outcomes(old(maps[..n]), fs, mem, space.owned, pagesize, old(ExactScan(pipe, pagesize)))
  {
    ghost var all, ms, exact := maps[..], maps[..n], ExactScan(pipe, pagesize);
    kept, fs := 0, [];
    for idx := 0 to n
      invariant space.Near(mem) && (exact ==> ExactScan(pipe, pagesize)) && |fs| == idx && |Somes(fs)| == kept
      invariant Outcomes(ms[..idx], fs, mem, space.owned, pagesize, exact)
      invariant Compacted(maps, Somes(fs), idx, all)
    {
      ghost var f;
      kept, f := CompactNext(maps, idx, kept, pagesize, pipe, scratch, space, mem, exact, fs, all, ms);
      fs := fs + [f];
    }
    assert ms[..n] == ms;
  }

  /** One turn of the compaction loop. */
  method CompactNext(maps: array<Mapping>, idx: nat, kept0: nat, pagesize: usize, pipe: Pipe, scratch: array<byte>,
                     space: Space, ghost mem: Memory, ghost exact: bool, ghost fs: seq<Option<Mapping>>,
                     ghost all: seq<Mapping>, ghost ms: seq<Mapping>)
    returns (kept: nat, ghost f: Option<Mapping>)
    requires 0 < pagesize <= pipe.capacity && pagesize <= scratch.Length && space.Near(mem)
    requires (exact ==> ExactScan(pipe, pagesize)) && |fs| == idx < |ms| && |Somes(fs)| == kept0
    requires AllWhole(ms, pagesize) && ms <= all && Outcomes(ms[..idx], fs, mem, space.owned, pagesize, exact)
    requires Compacted(maps, Somes(fs), idx, all)
    modifies maps, pipe, scratch, space
    ensures space.Near(mem) && (exact ==> ExactScan(pipe, pagesize)) && |Somes(fs + [f])| == kept
    ensures Outcomes(ms[..idx + 1], fs + [f], mem, space.owned, pagesize, exact)
    ensures Compacted(maps, Somes(fs + [f]), idx + 1, all)
  {
    assert maps[idx] == ms[idx] && WholePages(ms[idx], pagesize);
    var outcome := FinalizeOne(maps[idx], pagesize, pipe, scratch, space, mem, exact);
    OutcomesSnoc(ms, fs, outcome, mem, space.owned, pagesize, exact);
    kept := PlaceKept(maps, outcome, kept0, idx, fs, all);
    f := outcome;
  }

  /** Store mapping `idx`, if it is kept, behind the ones kept so far. */
  method PlaceKept(maps: array<Mapping>, f: Option<Mapping>, kept0: nat, ghost idx: nat, ghost fs: seq<Option<Mapping>>,
                   ghost all: seq<Mapping>)
    returns (kept: nat)
    requires Compacted(maps, Somes(fs), idx, all) && kept0 == |Somes(fs)| && idx < |all|
    modifies maps
    ensures kept == |Somes(fs + [f])| && Compacted(maps, Somes(fs + [f]), idx + 1, all)
  {
    SomesSnoc(fs, f);
    kept := kept0;
    if f.Some? {
      Place(maps, f.value, kept0, idx, Somes(fs), all);
      kept := kept0 + 1;
    }
  }

  lemma OutcomesSnoc(ms: seq<Mapping>, fs: seq<Option<Mapping>>, f: Option<Mapping>, mem: Memory, owned: nat -> bool,
                     pagesize: usize, exact: bool)
    requires pagesize > 0 && AllWhole(ms, pagesize) && |fs| < |ms|
    requires Outcomes(ms[..|fs|], fs, mem, owned, pagesize, exact)
    requires Settles(ms[|fs|], f, mem, owned, pagesize, exact)
    ensures Outcomes(ms[..|fs| + 1], fs + [f], mem, owned, pagesize, exact)
  {
    var now, next := ms[..|fs|], ms[..|fs| + 1];
    forall i | 0 <= i < |next|
      ensures Settles(next[i], (fs + [f])[i], mem, owned, pagesize, exact)
    {
      if i < |fs| {
        assert now[i] == next[i] && Settles(now[i], fs[i], mem, owned, pagesize, exact);
      }
    }
  }

  lemma SomesSnoc(fs: seq<Option<Mapping>>, f: Option<Mapping>)
    ensures Somes(fs + [f]) == Somes(fs) + (if f.Some? then [f.value] else [])
  {
    assert (fs + [f])[..|fs|] == fs;
  }

  /** The array holds `out` at the front and is still `all` from `idx` on. */
  ghost predicate Compacted(maps: array<Mapping>, out: seq<Mapping>, idx: nat, all: seq<Mapping>)
    reads maps
  {
    && |out| <= idx <= maps.Length == |all|
    && (forall k | 0 <= k < |out| :: maps[k] == out[k])
    && (forall k | idx <= k < |all| :: maps[k] == all[k])
  }

  /** Store the next kept mapping over a slot that has already been read. */
  method Place(maps: array<Mapping>, m: Mapping, kept: nat, ghost idx: nat, ghost out: seq<Mapping>,
               ghost all: seq<Mapping>)
    requires Compacted(maps, out, idx, all) && kept == |out| && idx < |all|
    modifies maps
    ensures Compacted(maps, out + [m], idx + 1, all)
  {
    maps[kept] := m;
  }

  /** `enrich_from_smaps`, given what smaps says about each start address. */
  method EnrichFromSmaps(maps: array<Mapping>, n: nat, hints: nat -> Hint)
    requires n <= maps.Length
    modifies maps
    ensures maps[..n] == EnrichAll(old(maps[..n]), hints) && maps[n..] == old(maps[n..])
  {
    for i := 0 to n
      invariant forall k | 0 <= k < i :: maps[k] == Enriched(old(maps[k]), hints)
      invariant forall k | i <= k < maps.Length :: maps[k] == old(maps[k])
    {
      maps[i] := Enriched(maps[i], hints);
    }
  }

  /** The body of the loop for one mapping. */
  method FinalizeOne(m: Mapping, pagesize: usize, pipe: Pipe, scratch: array<byte>, space: Space,
                     ghost mem: Memory, ghost exact: bool)
    returns (f: Option<Mapping>)
    requires 0 < pagesize <= pipe.capacity && pagesize <= scratch.Length && WholePages(m, pagesize)
    requires space.Near(mem) && (exact ==> ExactScan(pipe, pagesize))
    modifies pipe, scratch, space
    ensures space.Near(mem) && (exact ==> ExactScan(pipe, pagesize))
    ensures Settles(m, f, mem, space.owned, pagesize, exact)
  {
    var flags := ElfBits(m.flags);
    if m.isDevice || m.dontdump || !ElfReadable(flags) {
      DroppedSettles(m, mem, space.owned, pagesize, exact);
      return None;
    }
    var lead, magic := SkipLead(m, pagesize, pipe, scratch, space, mem, exact);
    f := KeepFrom(m, pagesize, lead, magic);
  }

  /** Scan the mapping for leading zero pages and look at what comes after them. */
  method SkipLead(m: Mapping, pagesize: usize, pipe: Pipe, scratch: array<byte>, space: Space,
                  ghost mem: Memory, ghost exact: bool)
    returns (lead: nat, magic: bool)
    requires 0 < pagesize <= pipe.capacity && pagesize <= scratch.Length && WholePages(m, pagesize)
    requires space.Near(mem) && (exact ==> ExactScan(pipe, pagesize))
    modifies pipe, scratch, space
    ensures space.Near(mem) && (exact ==> ExactScan(pipe, pagesize)) && m.start + lead <= m.end
    ensures Settles(m, FinalizedBy(m, pagesize, lead, magic), mem, space.owned, pagesize, exact)
  {
    var len := m.end - m.start;
    lead := LeadingZeros(pipe, space, m.start, len, pagesize, scratch, mem);
    magic := HasElfMagic(space.mem, m.start + lead);
    if exact && Outside(space.owned, m) && lead < len {
      MagicAgrees(mem, space.mem, space.owned, m.start, lead, len, pagesize);
    }
    Settled(m, lead, magic, mem, space.owned, pagesize, exact);
  }

  /** The mapping without its first `lead` bytes, and how much of it to store. */
  method KeepFrom(m: Mapping, pagesize: usize, lead: nat, magic: bool) returns (f: Option<Mapping>)
    requires m.start + lead <= m.end && !m.isDevice && !m.dontdump && ElfReadable(ElfBits(m.flags))
    ensures f == FinalizedBy(m, pagesize, lead, magic)
  {
    var flags, start := ElfBits(m.flags), m.start + lead;
    if m.end == start {
      return None;
    }
    var writeSize: usize := 0;
    if m.isAnon || m.hasAnonPages || ElfWritable(flags) {
      writeSize := m.end - start;
    } else if !m.isAnon && m.offset == 0 && ElfReadable(flags) && magic {
      writeSize := pagesize;
    }
    return Some(m.(flags := flags, start := start, writeSize := writeSize));
  }

  lemma DroppedSettles(m: Mapping, mem: Memory, owned: nat -> bool, pagesize: usize, exact: bool)
    requires pagesize > 0 && WholePages(m, pagesize) && (m.isDevice || m.dontdump || !ElfReadable(ElfBits(m.flags)))
    ensures Settles(m, None, mem, owned, pagesize, exact)
  {
    assert FinalizedBy(m, pagesize, 0, false) == None;
    assert SkippedOutside(mem, owned, m.start, 0, pagesize) && Multiple(0, pagesize);
  }

  lemma Settled(m: Mapping, lead: nat, magic: bool, mem: Memory, owned: nat -> bool, pagesize: usize, exact: bool)
    requires pagesize > 0 && WholePages(m, pagesize) && lead <= m.end - m.start && Multiple(lead, pagesize)
    requires exact ==> SkippedOutside(mem, owned, m.start, lead, pagesize)
    requires exact && Outside(owned, m) ==>
      && lead == Lead(mem, m.start, m.end - m.start, pagesize)
      && (lead < m.end - m.start ==> magic == HasElfMagic(mem, m.start + lead))
    ensures Settles(m, FinalizedBy(m, pagesize, lead, magic), mem, owned, pagesize, exact)
  {
  }

  /** Outside `owned` the magic bytes agree. */
  lemma MagicAgrees(m1: Memory, m2: Memory, owned: nat -> bool, a: nat, lead: nat, len: nat, pagesize: nat)
    requires Agree(owned, m1, m2) && Avoids(owned, a, len) && pagesize >= MAGIC_LEN
    requires lead < len && Multiple(lead, pagesize) && Multiple(len, pagesize)
    ensures HasElfMagic(m1, a + lead) == HasElfMagic(m2, a + lead)
  {
    NextMultiple(lead, len, pagesize);
    assert forall x: nat | a + lead <= x < a + lead + MAGIC_LEN :: m1.content(x) == m2.content(x);
  }

  // ---- What finalizing guarantees ----

  predicate SortedDisjoint(ms: seq<Mapping>) {
    forall i, j | 0 <= i < j < |ms| :: ms[i].end <= ms[j].start
  }

  /** A kept mapping is a non-empty tail of the original, on a page boundary, and stores whole pages, no more than it
      covers. */
  lemma KeptIsTail(m: Mapping, f: Option<Mapping>, pagesize: usize)
    requires pagesize > 0 && WholePages(m, pagesize) && Possible(m, f, pagesize) && f.Some?
    ensures
      var k := f.value;
      && m.start <= k.start < k.end == m.end && Multiple(k.start - m.start, pagesize)
      && k.start + k.writeSize <= k.end && Multiple(k.end - k.start, pagesize) && Multiple(k.writeSize, pagesize)
  {
    var lead: nat, magic: bool :|
      lead <= m.end - m.start && Multiple(lead, pagesize) && f == FinalizedBy(m, pagesize, lead, magic);
    NextMultiple(lead, m.end - m.start, pagesize);
  }

  // ---- The keep rule, restated ----

  /** The bit of value `v`. */
  predicate Bit(n: nat, v: nat)
    requires v > 0
  {
    n / v % 2 == 1
  }

  /** `k` covers the end of the listed mapping `m` and otherwise says the same about it, with the ELF access bits (read
      4, write 2, execute 1) in place of the raw ones (read 8, write 4, execute 2). */
  predicate KeepsFields(m: Mapping, h: Hint, k: Mapping) {
    && k.end == m.end && k.offset == m.offset && k.isAnon == m.isAnon && k.name == m.name
    && k.hasAnonPages == h.hasAnonPages && !k.dontdump && !k.isDevice
    && k.flags < 8 && (Bit(k.flags, 4) <==> Bit(m.flags, 8)) && (Bit(k.flags, 2) <==> Bit(m.flags, 4))
    && (Bit(k.flags, 1) <==> Bit(m.flags, 2))
  }

  /** A mapping that no file holds, or that no longer equals its file. */
  predicate Irreplaceable(m: Mapping, h: Hint) {
    m.isAnon || h.hasAnonPages || Bit(m.flags, 4)
  }

  predicate Excluded(m: Mapping, h: Hint) {
    m.isDevice || h.dontdump || !Bit(m.flags, 8)
  }

  /** The four bytes at `a` are 7f 45 4c 46. */
  predicate StartsElf(mem: Memory, a: nat) {
    [mem.content(a), mem.content(a + 1), mem.content(a + 2), mem.content(a + 3)] == [0x7f, 0x45, 0x4c, 0x46]
  }

  /** How much of the kept mapping `k` is stored: everything that the file system could not give back, the first page of
      an ELF image, and else nothing. */
  predicate StoresRight(m: Mapping, h: Hint, k: Mapping, mem: Memory, pagesize: usize) {
    if Irreplaceable(m, h) then k.start <= k.end && k.writeSize == k.end - k.start
    else if m.offset == 0 && StartsElf(mem, k.start) then k.writeSize == pagesize
    else k.writeSize == 0
  }

  /** The reference: `f` is what should become of the listed mapping `m` with the smaps hints `h`. */
  ghost predicate KeepRule(m: Mapping, h: Hint, f: Option<Mapping>, mem: Memory, pagesize: usize)
    requires pagesize > 0 && WholePages(m, pagesize)
  {
    match f
    case None => Excluded(m, h) || SkippedTo(mem, m.start, m.end - m.start, pagesize)
    case Some(k) =>
      && !Excluded(m, h) && KeepsFields(m, h, k) && StoresRight(m, h, k, mem, pagesize)
      && m.start <= k.start < m.end && IsLongestLead(mem, m.start, m.end - m.start, pagesize, k.start - m.start)
  }

  /** The ELF bits are the raw ones, moved down. */
  lemma BitsMove(flags: nat)
    ensures ElfBits(flags) < 8 && (Bit(ElfBits(flags), 4) <==> Bit(flags, 8))
    ensures (Bit(ElfBits(flags), 2) <==> Bit(flags, 4)) && (Bit(ElfBits(flags), 1) <==> Bit(flags, 2))
    ensures (ElfReadable(ElfBits(flags)) <==> Bit(flags, 8)) && (ElfWritable(ElfBits(flags)) <==> Bit(flags, 4))
  {
    Halves(flags);
    LowBits(flags / 2);
  }

  lemma Halves(n: nat)
    ensures n / 8 == n / 2 / 4 && n / 4 == n / 2 / 2
  {
  }

  /** The three lowest bits. */
  lemma LowBits(n: nat)
    ensures n % 8 / 4 % 2 == n / 4 % 2 && n % 8 / 2 % 2 == n / 2 % 2 && n % 8 % 2 == n % 2
  {
    var q, r := n / 8, n % 8;
    Eighths(n);
    EvenPlus(q, r / 4);
    EvenPlus(2 * q, r / 2);
    EvenPlus(4 * q, r);
  }

  lemma Eighths(n: nat)
    ensures n == 2 * (4 * (n / 8)) + n % 8 && n / 4 == 2 * (n / 8) + n % 8 / 4 && n / 2 == 2 * (2 * (n / 8)) + n % 8 / 2
  {
  }

  lemma EvenPlus(q: nat, b: nat)
    ensures (2 * q + b) % 2 == b % 2
  {
  }

  lemma ThreeBits(a: nat, b: nat)
    requires a < 8 && b < 8 && (Bit(a, 4) <==> Bit(b, 4)) && (Bit(a, 2) <==> Bit(b, 2)) && (Bit(a, 1) <==> Bit(b, 1))
    ensures a == b
  {
  }

  /** Whatever is kept, however memory is misread, has the fields it should have; and as far as the size does not depend
      on the bytes found, the size it should have. */
  lemma PossibleKeepsFields(m: Mapping, hints: nat -> Hint, f: Option<Mapping>, pagesize: usize)
    requires pagesize > 0 && WholePages(m, pagesize) && Possible(Enriched(m, hints), f, pagesize) && f.Some?
    ensures
      var h, k := hints(m.start), f.value;
      && !Excluded(m, h) && KeepsFields(m, h, k) && m.start <= k.start < k.end
      && (if Irreplaceable(m, h) then k.writeSize == k.end - k.start
          else if m.offset == 0 then k.writeSize in {0, pagesize} else k.writeSize == 0)
  {
    BitsMove(m.flags);
  }

  lemma ByFields(m: Mapping, hints: nat -> Hint, pagesize: usize, lead: nat, magic: bool)
    requires m.start + lead <= m.end
    ensures
      var h, f := hints(m.start), FinalizedBy(Enriched(m, hints), pagesize, lead, magic);
      match f
      case None => Excluded(m, h) || m.start + lead == m.end
      case Some(k) =>
        && !Excluded(m, h) && KeepsFields(m, h, k) && k.start == m.start + lead < m.end
        && k.writeSize
          == (if Irreplaceable(m, h) then k.end - k.start else if m.offset == 0 && magic then pagesize else 0)
  {
    BitsMove(m.flags);
  }

  /** What the engine makes of a mapping, when it sees memory as it is, meets the reference. */
  lemma FinalizedMeetsRule(m: Mapping, hints: nat -> Hint, mem: Memory, pagesize: usize)
    requires pagesize > 0 && WholePages(m, pagesize)
    ensures KeepRule(m, hints(m.start), Finalized(Enriched(m, hints), mem, pagesize), mem, pagesize)
  {
    var lead := Lead(mem, m.start, m.end - m.start, pagesize);
    LeadIsLongest(mem, m.start, m.end - m.start, pagesize);
    RuleFromLead(m, hints, mem, pagesize, lead);
    FinalizedIs(Enriched(m, hints), mem, pagesize, lead, HasElfMagic(mem, m.start + lead));
  }

  lemma RuleFromLead(m: Mapping, hints: nat -> Hint, mem: Memory, pagesize: usize, lead: nat)
    requires pagesize > 0 && WholePages(m, pagesize) && IsLongestLead(mem, m.start, m.end - m.start, pagesize, lead)
    ensures
      var f := FinalizedBy(Enriched(m, hints), pagesize, lead, HasElfMagic(mem, m.start + lead));
      KeepRule(m, hints(m.start), f, mem, pagesize)
  {
    ByFields(m, hints, pagesize, lead, HasElfMagic(mem, m.start + lead));
  }

  /** The reference leaves no freedom. */
  lemma RuleIsOnlyAnswer(m: Mapping, h: Hint, f: Option<Mapping>, g: Option<Mapping>, mem: Memory, pagesize: usize)
    requires pagesize > 0 && WholePages(m, pagesize)
    requires KeepRule(m, h, f, mem, pagesize) && KeepRule(m, h, g, mem, pagesize)
    ensures f == g
  {
    if f.Some? && g.Some? {
      ThreeBits(f.value.flags, g.value.flags);
      OneLead(mem, m.start, m.end - m.start, pagesize, f.value.start - m.start, g.value.start - m.start);
    }
  }

  /** The reference in terms of what the engine does. */
  lemma RuleIsFinalized(m: Mapping, hints: nat -> Hint, f: Option<Mapping>, mem: Memory, pagesize: usize)
    requires pagesize > 0 && WholePages(m, pagesize) && KeepRule(m, hints(m.start), f, mem, pagesize)
    ensures f == Finalized(Enriched(m, hints), mem, pagesize)
  {
    FinalizedMeetsRule(m, hints, mem, pagesize);
    RuleIsOnlyAnswer(m, hints(m.start), f, Finalized(Enriched(m, hints), mem, pagesize), mem, pagesize);
  }

  lemma OneLead(mem: Memory, a: nat, len: nat, pagesize: nat, r: nat, q: nat)
    requires pagesize > 0 && IsLongestLead(mem, a, len, pagesize, r) && IsLongestLead(mem, a, len, pagesize, q)
    requires r < len && q < len
    ensures r == q
  {
  }

  /** Kept as it should be, it starts with a page that is neither zero nor unreadable. */
  lemma KeptStartsFull(m: Mapping, mem: Memory, pagesize: usize)
    requires pagesize > 0 && WholePages(m, pagesize) && Finalized(m, mem, pagesize).Some?
    ensures Possible(m, Finalized(m, mem, pagesize), pagesize)
    ensures !Skippable(mem, Finalized(m, mem, pagesize).value.start, pagesize)
  {
    var len := m.end - m.start;
    LeadIsLongest(mem, m.start, len, pagesize);
  }

  /** The mapping is one to store in full. */
  predicate StoredWhole(m: Mapping) {
    && !m.isDevice && !m.dontdump && ElfReadable(ElfBits(m.flags))
    && (m.isAnon || m.hasAnonPages || ElfWritable(ElfBits(m.flags)))
  }

  /** A page outside the owned part that is neither zero nor unreadable is never lost, even from a mapping of which
      other parts are owned: it lies in the stored part. */
  lemma PageKept(m: Mapping, f: Option<Mapping>, mem: Memory, owned: nat -> bool, pagesize: usize, q: nat)
    requires pagesize > 0 && WholePages(m, pagesize) && Careful(m, f, mem, owned, pagesize) && StoredWhole(m)
    requires q < m.end - m.start && Multiple(q, pagesize)
    requires Avoids(owned, m.start + q, pagesize) && !Skippable(mem, m.start + q, pagesize)
    ensures f.Some? && f.value.start <= m.start + q
    ensures m.start + q + pagesize <= f.value.start + f.value.writeSize == m.end
  {
    var lead: nat, magic: bool :|
      && lead <= m.end - m.start && Multiple(lead, pagesize) && f == FinalizedBy(m, pagesize, lead, magic)
      && SkippedOutside(mem, owned, m.start, lead, pagesize);
    NextMultiple(q, m.end - m.start, pagesize);
    assert lead <= q;
  }

  /** The indices of the kept mappings. */
  function KeptIndices(fs: seq<Option<Mapping>>): seq<nat> {
    if fs == [] then [] else
    var n := |fs| - 1;
    KeptIndices(fs[..n]) + (if fs[n].Some? then [n] else [])
  }

  /** The result is the order-preserving filter-map: position by position it is what became of a mapping, the source
      positions increase, and no mapping that was kept is missing. */
  lemma {:induction false} KeptByIndex(fs: seq<Option<Mapping>>)
    ensures IsFilter(fs, Somes(fs), KeptIndices(fs))
  {
    if fs != [] {
      var n := |fs| - 1;
      KeptByIndex(fs[..n]);
      FilterMore(fs[..n], Somes(fs[..n]), KeptIndices(fs[..n]), fs[n]);
      assert fs[..n] + [fs[n]] == fs;
    }
  }

  ghost predicate IsFilter(fs: seq<Option<Mapping>>, r: seq<Mapping>, ks: seq<nat>) {
    && |r| == |ks|
    && (forall j | 0 <= j < |ks| :: ks[j] < |fs| && fs[ks[j]] == Some(r[j]))
    && (forall j, k | 0 <= j < k < |ks| :: ks[j] < ks[k])
    && (forall i | 0 <= i < |fs| && fs[i].Some? :: i in ks)
  }

  lemma FilterMore(fs: seq<Option<Mapping>>, r: seq<Mapping>, ks: seq<nat>, f: Option<Mapping>)
    requires IsFilter(fs, r, ks)
    ensures if f.None? then IsFilter(fs + [f], r + [], ks + []) && r + [] == r && ks + [] == ks
            else IsFilter(fs + [f], r + [f.value], ks + [|fs|])
  {
    var ks' := ks + (if f.Some? then [|fs|] else []);
    forall i | 0 <= i < |fs| + 1 && (fs + [f])[i].Some?
      ensures i in ks'
    {
      if i < |fs| {
        assert fs[i].Some? && i in ks;
      }
    }
  }

  /** Order and disjointness survive, and every stored size fits its range, which the assembler relies on. */
  lemma KeptInOrder(ms: seq<Mapping>, fs: seq<Option<Mapping>>, mem: Memory, owned: nat -> bool, pagesize: usize,
                    exact: bool)
    requires pagesize > 0 && AllWhole(ms, pagesize) && Outcomes(ms, fs, mem, owned, pagesize, exact)
    ensures SortedDisjoint(ms) ==> SortedDisjoint(Somes(fs))
    ensures forall j | 0 <= j < |Somes(fs)| ::
      var k := Somes(fs)[j]; k.start + k.writeSize <= k.end && Multiple(k.writeSize, pagesize)
  {
    KeptByIndex(fs);
    var r, ks := Somes(fs), KeptIndices(fs);
    forall j | 0 <= j < |r|
      ensures ms[ks[j]].start <= r[j].start && r[j].end == ms[ks[j]].end
      ensures r[j].start + r[j].writeSize <= r[j].end && Multiple(r[j].writeSize, pagesize)
    {
      assert Settles(ms[ks[j]], fs[ks[j]], mem, owned, pagesize, exact);
      KeptIsTail(ms[ks[j]], fs[ks[j]], pagesize);
    }
  }

  /** With nothing owned and an exact scan, what becomes of the mappings is determined: the result is the filter-map of
      `Finalized`. */
  lemma ExactIsFilterMap(ms: seq<Mapping>, fs: seq<Option<Mapping>>, mem: Memory, owned: nat -> bool, pagesize: usize)
    requires pagesize > 0 && AllWhole(ms, pagesize) && Outcomes(ms, fs, mem, owned, pagesize, true)
    requires forall i | 0 <= i < |ms| :: Outside(owned, ms[i])
    ensures fs == seq(|ms|, i requires 0 <= i < |ms| && WholePages(ms[i], pagesize) => Finalized(ms[i], mem, pagesize))
  {
    forall i | 0 <= i < |ms|
      ensures fs[i] == Finalized(ms[i], mem, pagesize)
    {
      assert Settles(ms[i], fs[i], mem, owned, pagesize, true);
    }
  }

  /** A mapping should be dropped exactly when it is a device, excluded, unreadable, or made of skippable pages only. */
  lemma DroppedIff(m: Mapping, mem: Memory, pagesize: usize)
    requires pagesize > 0 && WholePages(m, pagesize)
    ensures Finalized(m, mem, pagesize).None? <==>
      || m.isDevice || m.dontdump || !ElfReadable(ElfBits(m.flags))
      || SkippedTo(mem, m.start, m.end - m.start, pagesize)
  {
    var len := m.end - m.start;
    LeadIsLongest(mem, m.start, len, pagesize);
  }

  /** Memories that agree outside `owned` finalize a mapping outside `owned` alike. */
  lemma FinalizedAgrees(m: Mapping, a: Memory, b: Memory, owned: nat -> bool, pagesize: usize)
    requires pagesize >= MAGIC_LEN && WholePages(m, pagesize)
    requires Agree(owned, a, b) && Outside(owned, m)
    ensures Finalized(m, a, pagesize) == Finalized(m, b, pagesize)
  {
    var len := m.end - m.start;
    LeadAgrees(a, b, owned, m.start, len, pagesize);
    var lead := Lead(a, m.start, len, pagesize);
    LeadWhole(a, m.start, len, pagesize);
    var x, y := HasElfMagic(a, m.start + lead), HasElfMagic(b, m.start + lead);
    if lead < len {
      MagicAgrees(a, b, owned, m.start, lead, len, pagesize);
    }
    MagicMatters(m, pagesize, lead, x, y);
    FinalizedIs(m, a, pagesize, lead, x);
    FinalizedIs(m, b, pagesize, lead, y);
  }

  lemma FinalizedIs(m: Mapping, mem: Memory, pagesize: usize, lead: nat, magic: bool)
    requires pagesize > 0 && WholePages(m, pagesize) && lead == Lead(mem, m.start, m.end - m.start, pagesize)
    requires magic == HasElfMagic(mem, m.start + lead)
    ensures Finalized(m, mem, pagesize) == FinalizedBy(m, pagesize, lead, magic)
  {
  }

  lemma LeadWhole(mem: Memory, a: nat, len: nat, pagesize: nat)
    requires pagesize > 0 && Multiple(len, pagesize)
    ensures Multiple(Lead(mem, a, len, pagesize), pagesize)
  {
    LeadIsLongest(mem, a, len, pagesize);
  }

  lemma MagicMatters(m: Mapping, pagesize: usize, lead: nat, x: bool, y: bool)
    requires m.start + lead <= m.end && (m.start + lead < m.end ==> x == y)
    ensures FinalizedBy(m, pagesize, lead, x) == FinalizedBy(m, pagesize, lead, y)
  {
  }
}
