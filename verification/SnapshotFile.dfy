/** The protocol, the mapping rules and the file format together: what a reader of the core learns about the stopped
    process. */
module SnapshotFile {
  import opened Bytes
  import opened Inputs
  import opened Pages
  import opened Notes
  import opened NoteReader
  import opened DumpNotes
  import opened Probe
  import opened CoreFile
  import opened RoundTrip
  import opened Limiter
  import opened Mappings
  import opened Serialize
  import L = Lister
  import S = Snapshot

  // ---- Segments in the file ----

  /** Segment `i` of a core read back: its header and its bytes. */
  lemma {:induction false} ExpectedAt(ms: seq<Mapping>, offset: nat, pagesize: nat, parts: seq<seq<byte>>, i: nat)
    requires (forall m | m in ms :: m.start <= m.end) && Fitting(ms, parts) && i < |ms|
    ensures
      var seg := Expected(ms, offset, pagesize, parts)[i];
      && seg.data == parts[i] && seg.header == LoadPhdr(ms[i], seg.header.offset, pagesize)
  {
    if i > 0 {
      ExpectedAt(ms[1..], offset + ms[0].writeSize, pagesize, parts[1..], i - 1);
    }
  }

  /** The segment is mapping `k` with the bytes `mem` has there: all it should store, or if not `whole` a first part. */
  ghost predicate ShowsMapping(seg: Segment, k: Mapping, pagesize: nat, mem: Memory, whole: bool) {
    && k.start <= k.end
    && seg.header == Phdr(1, k.flags, seg.header.offset, k.start, 0, |seg.data|, k.end - k.start, pagesize)
    && |seg.data| <= k.writeSize && (whole ==> |seg.data| == k.writeSize)
    && seg.data == mem.Image(k.start, |seg.data|)
  }

  predicate Within(seg: Segment, m: Mapping) {
    m.start <= seg.header.vaddr < m.end
  }

  /** The file shows the listed mapping `m` as `f` says: no segment in its range if it is dropped, and otherwise one
      or more of them, every one showing the kept part. */
  ghost predicate ShowsListed(segs: seq<Segment>, m: Mapping, f: Option<Mapping>, pagesize: nat, mem: Memory,
                              whole: bool)
  {
    && (forall q | 0 <= q < |segs| && Within(segs[q], m) ::
          f.Some? && ShowsMapping(segs[q], f.value, pagesize, mem, whole))
    && (f.Some? ==> exists q :: 0 <= q < |segs| && Within(segs[q], m))
  }

  /** Whether segments are stored in full. */
  predicate Whole(opts: Options) {
    !(opts.prioritize && opts.maxLength.Some?)
  }

  lemma StoredShape(cap: Captured, opts: Options, fs: seq<Option<Mapping>>)
    requires cap.Valid()
    ensures
      var kept, ms := Somes(fs), DumpInputs(cap, opts, fs).mappings;
      SizedAs(ms, kept) && (Whole(opts) ==> ms == kept)
  {
    if !Whole(opts) {
      LimitedShape(Somes(fs), opts.maxLength.value, NotesEnd(InputsFor(cap, opts, Somes(fs))));
    }
  }

  lemma WholeImage(part: seq<byte>, start: nat, mem: Memory, now: Memory, owned: nat -> bool, m: Mapping)
    requires DepictsOne(part, start, now, owned) && Agree(owned, mem, now)
    requires Outside(owned, m) && m.start <= start && start + |part| <= m.end
    ensures part == mem.Image(start, |part|)
  {
    forall j: nat | j < |part|
      ensures part[j] == mem.View(start + j)
    {
      AgreeView(owned, mem, now, start + j);
    }
  }

  /** What a dump stores: of the mappings `listed`, with the smaps hints `hints`, it keeps those that `fs` says, at the
      sizes of `stored`, with the bytes `parts` taken from a memory that is `now` outside `owned`. */
  datatype Store = Store(
    listed: seq<Mapping>, hints: nat -> Hint, ms: seq<Mapping>, fs: seq<Option<Mapping>>, stored: seq<Mapping>,
    parts: seq<seq<byte>>, pagesize: usize)

  ghost predicate Stores(st: Store, now: Memory, owned: nat -> bool, whole: bool) {
    && st.ms == EnrichAll(st.listed, st.hints)
    && st.pagesize >= MAGIC_LEN && AllWhole(st.ms, st.pagesize) && SortedDisjoint(st.ms)
    && Outcomes(st.ms, st.fs, now, owned, st.pagesize, true)
    && SizedAs(st.stored, Somes(st.fs)) && (whole ==> st.stored == Somes(st.fs))
    && (forall m | m in st.stored :: m.start <= m.end) && Fitting(st.stored, st.parts)
    && Depicts(st.stored, st.parts, now, owned)
  }

  /** The kept mapping number `q` comes from the one mapping `i` it starts in. */
  lemma SourceOf(st: Store, now: Memory, owned: nat -> bool, whole: bool, q: nat) returns (i: nat)
    requires Stores(st, now, owned, whole) && q < |st.stored|
    ensures i < |st.ms| && st.fs[i] == Some(Somes(st.fs)[q])
    ensures
      var k := Somes(st.fs)[q];
      st.ms[i].start <= k.start < k.end == st.ms[i].end && k.start + k.writeSize <= k.end
    ensures forall j | 0 <= j < |st.ms| && st.ms[j].start <= Somes(st.fs)[q].start < st.ms[j].end :: j == i
  {
    KeptByIndex(st.fs);
    i := KeptIndices(st.fs)[q];
    assert Settles(st.ms[i], st.fs[i], now, owned, st.pagesize, true);
    KeptIsTail(st.ms[i], st.fs[i], st.pagesize);
  }

  /** One segment that lies in mapping `i`. */
  lemma SegmentOf(st: Store, now: Memory, frozen: Memory, owned: nat -> bool, whole: bool, first: nat,
                  segs: seq<Segment>, q: nat, i: nat)
    requires Stores(st, now, owned, whole) && Agree(owned, frozen, now) && i < |st.ms| && Outside(owned, st.ms[i])
    requires segs == Expected(st.stored, first, st.pagesize, st.parts) && q < |segs| && Within(segs[q], st.ms[i])
    ensures
      var f := Finalized(st.ms[i], frozen, st.pagesize);
      f.Some? && ShowsMapping(segs[q], f.value, st.pagesize, frozen, whole)
  {
    var k := KeptOf(st, now, frozen, owned, whole, first, segs, q, i);
    assert DepictsOne(st.parts[q], st.stored[q].start, now, owned);
    WholeImage(st.parts[q], k.start, frozen, now, owned, st.ms[i]);
    FlagsSmall(st.ms[i], frozen, st.pagesize);
    ExpectedAt(st.stored, first, st.pagesize, st.parts, q);
    Assembled(segs[q], k, st.stored[q], st.pagesize, frozen, whole);
  }

  /** The mapping kept of number `i`, which segment `q` stores. */
  lemma KeptOf(st: Store, now: Memory, frozen: Memory, owned: nat -> bool, whole: bool, first: nat,
               segs: seq<Segment>, q: nat, i: nat)
    returns (k: Mapping)
    requires Stores(st, now, owned, whole) && Agree(owned, frozen, now) && i < |st.ms| && Outside(owned, st.ms[i])
    requires segs == Expected(st.stored, first, st.pagesize, st.parts) && q < |segs| && Within(segs[q], st.ms[i])
    ensures Finalized(st.ms[i], frozen, st.pagesize) == Some(k)
    ensures st.stored[q] == k.(writeSize := st.stored[q].writeSize) && st.stored[q].writeSize <= k.writeSize
    ensures (whole ==> st.stored[q] == k) && st.ms[i].start <= k.start && k.start + k.writeSize <= st.ms[i].end
  {
    k := Somes(st.fs)[q];
    ExpectedAt(st.stored, first, st.pagesize, st.parts, q);
    var src := SourceOf(st, now, owned, whole, q);
    assert st.stored[q] == k.(writeSize := st.stored[q].writeSize);
    assert src == i;
    KeptFrozen(st, now, frozen, owned, whole, i);
  }

  lemma Assembled(seg: Segment, k: Mapping, stored: Mapping, pagesize: usize, mem: Memory, whole: bool)
    requires k.start <= k.end && k.flags < 8 && stored == k.(writeSize := stored.writeSize)
    requires stored.writeSize <= k.writeSize && (whole ==> stored == k)
    requires seg.header == LoadPhdr(stored, seg.header.offset, pagesize)
    requires |seg.data| == stored.writeSize && seg.data == mem.Image(k.start, |seg.data|)
    ensures ShowsMapping(seg, k, pagesize, mem, whole)
  {
  }

  lemma FlagsSmall(m: Mapping, mem: Memory, pagesize: usize)
    requires pagesize > 0 && WholePages(m, pagesize) && Finalized(m, mem, pagesize).Some?
    ensures Finalized(m, mem, pagesize).value.flags < 8
  {
    BitsMove(m.flags);
  }

  /** Outside the owned part what became of a mapping is what should become of it in `frozen`. */
  lemma KeptFrozen(st: Store, now: Memory, frozen: Memory, owned: nat -> bool, whole: bool, i: nat)
    requires Stores(st, now, owned, whole) && Agree(owned, frozen, now) && i < |st.ms| && Outside(owned, st.ms[i])
    ensures st.fs[i] == Finalized(st.ms[i], frozen, st.pagesize)
  {
    assert Settles(st.ms[i], st.fs[i], now, owned, st.pagesize, true);
    FinalizedAgrees(st.ms[i], frozen, now, owned, st.pagesize);
  }

  /** A kept mapping has a segment. */
  lemma SegmentExists(st: Store, now: Memory, owned: nat -> bool, whole: bool, first: nat, segs: seq<Segment>, i: nat)
    returns (q: nat)
    requires Stores(st, now, owned, whole) && i < |st.ms| && st.fs[i].Some?
    requires segs == Expected(st.stored, first, st.pagesize, st.parts)
    ensures q < |segs| && Within(segs[q], st.ms[i])
  {
    KeptByIndex(st.fs);
    q :| 0 <= q < |KeptIndices(st.fs)| && KeptIndices(st.fs)[q] == i;
    assert Settles(st.ms[i], st.fs[i], now, owned, st.pagesize, true);
    KeptIsTail(st.ms[i], st.fs[i], st.pagesize);
    ExpectedAt(st.stored, first, st.pagesize, st.parts, q);
  }

  /** Every mapping outside the owned part is shown as it should be, with the bytes of `frozen`. */
  lemma MappingOf(st: Store, now: Memory, frozen: Memory, owned: nat -> bool, whole: bool, first: nat,
                  segs: seq<Segment>, i: nat)
    requires Stores(st, now, owned, whole) && Agree(owned, frozen, now) && i < |st.ms| && Outside(owned, st.ms[i])
    requires segs == Expected(st.stored, first, st.pagesize, st.parts)
    ensures WholePages(st.listed[i], st.pagesize)
    ensures ShowsRuled(segs, st.listed[i], st.hints(st.listed[i].start), st.pagesize, frozen, whole)
  {
    var m, e := st.listed[i], st.ms[i];
    assert e == Enriched(m, st.hints) && WholePages(e, st.pagesize);
    KeptShown(st, now, frozen, owned, whole, first, segs, i);
    RuledShown(segs, m, e, st.hints, st.pagesize, frozen, whole);
  }

  lemma RuledShown(segs: seq<Segment>, m: Mapping, e: Mapping, hints: nat -> Hint, pagesize: usize, mem: Memory,
                   whole: bool)
    requires e == Enriched(m, hints) && pagesize > 0 && WholePages(e, pagesize)
    requires ShowsListed(segs, e, Finalized(e, mem, pagesize), pagesize, mem, whole)
    ensures WholePages(m, pagesize) && ShowsRuled(segs, m, hints(m.start), pagesize, mem, whole)
  {
    FinalizedMeetsRule(m, hints, mem, pagesize);
    SameRange(segs, e, m, Finalized(e, mem, pagesize), pagesize, mem, whole);
  }

  lemma SameRange(segs: seq<Segment>, a: Mapping, b: Mapping, f: Option<Mapping>, pagesize: nat, mem: Memory,
                  whole: bool)
    requires ShowsListed(segs, a, f, pagesize, mem, whole) && a.start == b.start && a.end == b.end
    ensures ShowsListed(segs, b, f, pagesize, mem, whole)
  {
    forall q | 0 <= q < |segs|
      ensures Within(segs[q], a) <==> Within(segs[q], b)
    {
    }
  }

  lemma KeptShown(st: Store, now: Memory, frozen: Memory, owned: nat -> bool, whole: bool, first: nat,
                  segs: seq<Segment>, i: nat)
    requires Stores(st, now, owned, whole) && Agree(owned, frozen, now) && i < |st.ms| && Outside(owned, st.ms[i])
    requires segs == Expected(st.stored, first, st.pagesize, st.parts)
    ensures ShowsListed(segs, st.ms[i], Finalized(st.ms[i], frozen, st.pagesize), st.pagesize, frozen, whole)
  {
    var f := Finalized(st.ms[i], frozen, st.pagesize);
    forall q | 0 <= q < |segs| && Within(segs[q], st.ms[i])
      ensures f.Some? && ShowsMapping(segs[q], f.value, st.pagesize, frozen, whole)
    {
      SegmentOf(st, now, frozen, owned, whole, first, segs, q, i);
    }
    KeptFrozen(st, now, frozen, owned, whole, i);
    if f.Some? {
      var q := SegmentExists(st, now, owned, whole, first, segs, i);
    }
  }

  // ---- The whole ----

  /** A reader of the core learns what was captured; the rows of the file table, if no name has a NUL in it; and the
      memory. */
  ghost predicate ShowsDump(v: View, cap: Captured, extra: seq<Note>, listed: seq<Mapping>, hints: nat -> Hint,
                            mem: Memory, owned: nat -> bool, whole: bool)
    requires cap.Valid() && AllWhole(listed, PageSizeOf(cap.auxv))
  {
    && v.header == Phdr(4, 0, 64 + 56 * (|v.segments| + 1), 0, 0, v.header.filesz, 0, 0)
    && ShowsNotes(v.notes, cap, extra)
    && ((forall m | m in listed :: NulFree(m.name)) ==>
          ShowsFiles(v.notes[FilesAt(cap, extra)..], v.segments, listed, PageSizeOf(cap.auxv)))
    && ShowsMemory(v.segments, listed, hints, PageSizeOf(cap.auxv), mem, owned, whole)
    && (v.segments != [] ==> v.leftover == 0)
  }

  /** The file table has a row for every segment of a file-backed mapping, in order: the range of the segment, the
      offset of the mapping in pages, and the name of the file. */
  ghost predicate ShowsFiles(files: seq<Note>, segs: seq<Segment>, listed: seq<Mapping>, pagesize: nat)
    requires pagesize > 0
  {
    exists rows, ks :: HoldsTable(files, pagesize, rows) && ShowsRows(rows, ks, segs, listed, pagesize)
  }

  /** Row `j` is about segment `ks[j]`. */
  ghost predicate ShowsRows(rows: seq<FileEntry>, ks: seq<nat>, segs: seq<Segment>, listed: seq<Mapping>, pagesize: nat)
    requires pagesize > 0
  {
    && |ks| == |rows| && Increasing(ks)
    && (forall j | 0 <= j < |rows| :: ks[j] < |segs| && RowShows(rows[j], segs[ks[j]], listed, pagesize))
    && (forall q, i | 0 <= q < |segs| && 0 <= i < |listed| && Within(segs[q], listed[i]) && !listed[i].isAnon ::
          q in ks)
  }

  ghost predicate RowShows(row: FileEntry, seg: Segment, listed: seq<Mapping>, pagesize: nat)
    requires pagesize > 0
  {
    exists i ::
      && 0 <= i < |listed| && Within(seg, listed[i]) && !listed[i].isAnon
      && row.start == seg.header.vaddr && row.end == seg.header.vaddr + seg.header.memsz
      && row.pageOffset == Quot(listed[i].offset, pagesize) && row.name == listed[i].name
  }

  /** The segments show every mapping of `listed` outside `owned` as the keep rule says of `mem`; every byte outside
      `owned`, also in mappings that are owned in part, is that of `mem`; and if segments are stored `whole`, no page is
      lost. */
  ghost predicate ShowsMemory(segs: seq<Segment>, listed: seq<Mapping>, hints: nat -> Hint, pagesize: usize,
                              mem: Memory, owned: nat -> bool, whole: bool)
    requires pagesize > 0 && AllWhole(listed, pagesize)
  {
    && ShowsMappings(segs, listed, hints, pagesize, mem, owned, whole) && ShowsBytes(segs, mem, owned)
    && (whole ==> NoPageLost(segs, listed, hints, pagesize, mem, owned))
  }

  ghost predicate ShowsMappings(segs: seq<Segment>, listed: seq<Mapping>, hints: nat -> Hint, pagesize: usize,
                                mem: Memory, owned: nat -> bool, whole: bool)
    requires pagesize > 0 && AllWhole(listed, pagesize)
  {
    forall i | 0 <= i < |listed| && Outside(owned, listed[i]) ::
      ShowsRuled(segs, listed[i], hints(listed[i].start), pagesize, mem, whole)
  }

  /** The file shows the listed mapping `m` as the keep rule says. */
  ghost predicate ShowsRuled(segs: seq<Segment>, m: Mapping, h: Hint, pagesize: usize, mem: Memory, whole: bool)
    requires pagesize > 0 && WholePages(m, pagesize)
  {
    exists f :: KeepRule(m, h, f, mem, pagesize) && ShowsListed(segs, m, f, pagesize, mem, whole)
  }

  ghost predicate ShowsBytes(segs: seq<Segment>, mem: Memory, owned: nat -> bool) {
    forall q | 0 <= q < |segs| :: DepictsOne(segs[q].data, segs[q].header.vaddr, mem, owned)
  }

  /** Every page that is not owned, neither zero nor unreadable, and part of a mapping to store in full is in the
      file. */
  ghost predicate NoPageLost(segs: seq<Segment>, listed: seq<Mapping>, hints: nat -> Hint, pagesize: usize, mem: Memory,
                             owned: nat -> bool)
    requires pagesize > 0
  {
    forall i, q: nat |
      && 0 <= i < |listed| && InFull(listed[i], hints(listed[i].start)) && listed[i].start + q < listed[i].end
      && Multiple(q, pagesize)
      && Avoids(owned, listed[i].start + q, pagesize) && !Skippable(mem, listed[i].start + q, pagesize)
      :: Stored(segs, listed[i].start + q, pagesize)
  }

  predicate InFull(m: Mapping, h: Hint) {
    !Excluded(m, h) && Irreplaceable(m, h)
  }

  /** Some segment holds `[a, a + len)`. */
  ghost predicate Stored(segs: seq<Segment>, a: nat, len: nat) {
    exists q :: 0 <= q < |segs| && segs[q].header.vaddr <= a && a + len <= segs[q].header.vaddr + |segs[q].data|
  }

  /** The first page of an ELF image is in the file, although a debugger could find it in the image: it holds the
      build id. */
  lemma ElfHeaderStored(segs: seq<Segment>, listed: seq<Mapping>, hints: nat -> Hint, pagesize: usize, mem: Memory,
                        owned: nat -> bool, i: nat, q: nat)
    requires pagesize > 0 && AllWhole(listed, pagesize) && i < |listed| && Outside(owned, listed[i])
    requires ShowsMappings(segs, listed, hints, pagesize, mem, owned, true)
    requires !Excluded(listed[i], hints(listed[i].start)) && listed[i].offset == 0
    requires q < listed[i].end - listed[i].start && StartsElf(mem, listed[i].start + q)
    requires IsLongestLead(mem, listed[i].start, listed[i].end - listed[i].start, pagesize, q)
    ensures Stored(segs, listed[i].start + q, pagesize)
  {
    assert WholePages(listed[i], pagesize);
    RuledStoresPage(segs, listed[i], hints(listed[i].start), pagesize, mem, q);
  }

  lemma RuledStoresPage(segs: seq<Segment>, m: Mapping, h: Hint, pagesize: usize, mem: Memory, q: nat)
    requires pagesize > 0 && WholePages(m, pagesize) && ShowsRuled(segs, m, h, pagesize, mem, true)
    requires !Excluded(m, h) && m.offset == 0 && q < m.end - m.start && StartsElf(mem, m.start + q)
    requires IsLongestLead(mem, m.start, m.end - m.start, pagesize, q)
    ensures Stored(segs, m.start + q, pagesize)
  {
    var f :| KeepRule(m, h, f, mem, pagesize) && ShowsListed(segs, m, f, pagesize, mem, true);
    RuleStoresPage(m, h, f, mem, pagesize, q);
    ListedStores(segs, m, f.value, pagesize, mem, m.start + q, pagesize);
  }

  lemma ListedStores(segs: seq<Segment>, m: Mapping, k: Mapping, pagesize: nat, mem: Memory, a: nat, len: nat)
    requires ShowsListed(segs, m, Some(k), pagesize, mem, true) && k.start <= a && a + len <= k.start + k.writeSize
    ensures Stored(segs, a, len)
  {
    var s :| 0 <= s < |segs| && Within(segs[s], m);
    assert ShowsMapping(segs[s], k, pagesize, mem, true);
  }

  lemma RuleStoresPage(m: Mapping, h: Hint, f: Option<Mapping>, mem: Memory, pagesize: usize, q: nat)
    requires pagesize > 0 && WholePages(m, pagesize) && KeepRule(m, h, f, mem, pagesize)
    requires !Excluded(m, h) && m.offset == 0 && q < m.end - m.start && StartsElf(mem, m.start + q)
    requires IsLongestLead(mem, m.start, m.end - m.start, pagesize, q)
    ensures f.Some? && f.value.start == m.start + q && pagesize <= f.value.writeSize
  {
    NextMultiple(q, m.end - m.start, pagesize);
    if f.Some? {
      OneLead(mem, m.start, m.end - m.start, pagesize, q, f.value.start - m.start);
    }
  }

  /** A dump whose core can be read back: sizes fit their words and the kernel lists mappings in order. */
  ghost predicate Readable(cap: Captured, opts: Options, listed: seq<Mapping>, hints: nat -> Hint, d: Dump, now: Memory,
                           owned: nat -> bool)
  {
    && cap.Valid() && IsDump(cap, opts, listed, d, now, owned, hints, true) && Fits(DumpInputs(cap, opts, d.fs))
    && SortedDisjoint(EnrichAll(listed, hints)) && PageSizeOf(cap.auxv) >= MAGIC_LEN
  }

  function StoreOf(cap: Captured, opts: Options, listed: seq<Mapping>, hints: nat -> Hint, d: Dump): Store
    requires cap.Valid()
  {
    Store(listed, hints, EnrichAll(listed, hints), d.fs, DumpInputs(cap, opts, d.fs).mappings, d.parts,
      PageSizeOf(cap.auxv))
  }

  lemma ListedWhole(listed: seq<Mapping>, hints: nat -> Hint, pagesize: nat)
    requires pagesize > 0 && AllWhole(EnrichAll(listed, hints), pagesize)
    ensures AllWhole(listed, pagesize)
  {
    forall i | 0 <= i < |listed|
      ensures WholePages(listed[i], pagesize)
    {
      assert WholePages(EnrichAll(listed, hints)[i], pagesize);
    }
  }

  /** Reading back a dump of a memory that agrees with `frozen` outside `owned`. */
  lemma DumpShows(cap: Captured, opts: Options, listed: seq<Mapping>, hints: nat -> Hint, d: Dump, now: Memory,
                  frozen: Memory, owned: nat -> bool)
    requires Readable(cap, opts, listed, hints, d, now, owned) && Agree(owned, frozen, now)
    ensures AllWhole(listed, PageSizeOf(cap.auxv))
    ensures
      var v := ReadCore(Stream(cap, opts, d));
      v.Some? && ShowsDump(v.value, cap, opts.notes, listed, hints, frozen, owned, Whole(opts))
  {
    var inp, st := DumpInputs(cap, opts, d.fs), StoreOf(cap, opts, listed, hints, d);
    ListedWhole(listed, hints, st.pagesize);
    CoreRoundTrip(inp, d.parts);
    NotesOfDump(cap, opts, d.fs);
    StoredShape(cap, opts, d.fs);
    MemoryOf(st, now, frozen, owned, Whole(opts), FirstOffset(inp));
    if forall m | m in listed :: NulFree(m.name) {
      FilesOf(st, inp, now, owned, Whole(opts), FirstOffset(inp));
    }
  }

  /** The table of files of a dump. */
  lemma FilesOf(st: Store, inp: CoreInputs, now: Memory, owned: nat -> bool, whole: bool, first: nat)
    requires Stores(st, now, owned, whole) && inp.mappings == st.stored && inp.pagesize == st.pagesize
    requires |inp.mappings| < U64 && forall m | m in st.listed :: NulFree(m.name)
    ensures ShowsFiles(FileNotes(inp), Expected(st.stored, first, st.pagesize, st.parts), st.listed, st.pagesize)
  {
    var rows, segs := FileTable(st.stored, st.pagesize), Expected(st.stored, first, st.pagesize, st.parts);
    forall m | m in inp.mappings
      ensures NulFree(m.name)
    {
      var q :| 0 <= q < |st.stored| && st.stored[q] == m;
      var i := ListedOf(st, now, owned, whole, first, segs, q);
    }
    FileNotesHold(inp);
    var ks := FileTableRows(st.stored, st.pagesize);
    RowsShown(st, now, owned, whole, first, segs, rows, ks);
  }

  lemma RowsShown(st: Store, now: Memory, owned: nat -> bool, whole: bool, first: nat, segs: seq<Segment>,
                  rows: seq<FileEntry>, ks: seq<nat>)
    requires Stores(st, now, owned, whole) && segs == Expected(st.stored, first, st.pagesize, st.parts)
    requires RowsOf(rows, st.stored, st.pagesize, ks)
    ensures ShowsRows(rows, ks, segs, st.listed, st.pagesize)
  {
    forall j | 0 <= j < |rows|
      ensures ks[j] < |segs| && RowShows(rows[j], segs[ks[j]], st.listed, st.pagesize)
    {
      var i := ListedOf(st, now, owned, whole, first, segs, ks[j]);
      assert RowIs(rows[j], st.stored[ks[j]], st.pagesize);
    }
    forall q, i | 0 <= q < |segs| && 0 <= i < |st.listed| && Within(segs[q], st.listed[i]) && !st.listed[i].isAnon
      ensures q in ks
    {
      var src := ListedOf(st, now, owned, whole, first, segs, q);
      assert src == i && !st.stored[q].isAnon;
    }
  }

  /** The listed mapping that stored mapping `q` comes from: the only one its segment lies in, of the same file. */
  lemma ListedOf(st: Store, now: Memory, owned: nat -> bool, whole: bool, first: nat, segs: seq<Segment>, q: nat)
    returns (i: nat)
    requires Stores(st, now, owned, whole) && segs == Expected(st.stored, first, st.pagesize, st.parts)
    requires q < |st.stored|
    ensures i < |st.listed| && Within(segs[q], st.listed[i])
    ensures forall j | 0 <= j < |st.listed| && Within(segs[q], st.listed[j]) :: j == i
    ensures
      var k, m := st.stored[q], st.listed[i];
      && k.isAnon == m.isAnon && k.offset == m.offset && k.name == m.name
      && segs[q].header.vaddr == k.start && segs[q].header.memsz == k.end - k.start
  {
    i := SourceOf(st, now, owned, whole, q);
    ExpectedAt(st.stored, first, st.pagesize, st.parts, q);
    var k, m := Somes(st.fs)[q], st.listed[i];
    assert st.ms[i] == Enriched(m, st.hints) && st.stored[q] == k.(writeSize := st.stored[q].writeSize);
    assert Settles(st.ms[i], st.fs[i], now, owned, st.pagesize, true);
    ListedFields(m, st.hints, st.fs[i], st.pagesize);
    forall j | 0 <= j < |st.listed| && Within(segs[q], st.listed[j])
      ensures j == i
    {
      assert st.ms[j] == Enriched(st.listed[j], st.hints);
    }
  }

  lemma ListedFields(m: Mapping, hints: nat -> Hint, f: Option<Mapping>, pagesize: usize)
    requires pagesize > 0 && WholePages(Enriched(m, hints), pagesize) && Possible(Enriched(m, hints), f, pagesize)
    requires f.Some?
    ensures f.value.isAnon == m.isAnon && f.value.offset == m.offset && f.value.name == m.name
  {
    PossibleKeepsFields(m, hints, f, pagesize);
  }

  lemma MemoryOf(st: Store, now: Memory, frozen: Memory, owned: nat -> bool, whole: bool, first: nat)
    requires Stores(st, now, owned, whole) && Agree(owned, frozen, now) && AllWhole(st.listed, st.pagesize)
    ensures ShowsMemory(Expected(st.stored, first, st.pagesize, st.parts), st.listed, st.hints, st.pagesize, frozen,
      owned, whole)
  {
    MappingsOf(st, now, frozen, owned, whole, first);
    BytesOf(st, now, frozen, owned, whole, first);
    if whole {
      PagesOf(st, now, frozen, owned, first);
    }
  }

  lemma BytesOf(st: Store, now: Memory, frozen: Memory, owned: nat -> bool, whole: bool, first: nat)
    requires Stores(st, now, owned, whole) && Agree(owned, frozen, now)
    ensures ShowsBytes(Expected(st.stored, first, st.pagesize, st.parts), frozen, owned)
  {
    var segs := Expected(st.stored, first, st.pagesize, st.parts);
    forall q | 0 <= q < |segs|
      ensures DepictsOne(segs[q].data, segs[q].header.vaddr, frozen, owned)
    {
      ExpectedAt(st.stored, first, st.pagesize, st.parts, q);
      assert DepictsOne(st.parts[q], st.stored[q].start, now, owned);
      DepictsAgreeing(st.parts[q], st.stored[q].start, frozen, now, owned);
    }
  }

  lemma DepictsAgreeing(part: seq<byte>, start: nat, mem: Memory, now: Memory, owned: nat -> bool)
    requires DepictsOne(part, start, now, owned) && Agree(owned, mem, now)
    ensures DepictsOne(part, start, mem, owned)
  {
    forall j: nat | j < |part| && !owned(start + j)
      ensures part[j] == mem.View(start + j)
    {
      AgreeView(owned, mem, now, start + j);
    }
  }

  lemma PagesOf(st: Store, now: Memory, frozen: Memory, owned: nat -> bool, first: nat)
    requires Stores(st, now, owned, true) && Agree(owned, frozen, now)
    ensures NoPageLost(Expected(st.stored, first, st.pagesize, st.parts), st.listed, st.hints, st.pagesize, frozen,
      owned)
  {
    forall i, q: nat |
      && 0 <= i < |st.listed| && InFull(st.listed[i], st.hints(st.listed[i].start))
      && st.listed[i].start + q < st.listed[i].end && Multiple(q, st.pagesize)
      && Avoids(owned, st.listed[i].start + q, st.pagesize) && !Skippable(frozen, st.listed[i].start + q, st.pagesize)
      ensures Stored(Expected(st.stored, first, st.pagesize, st.parts), st.listed[i].start + q, st.pagesize)
    {
      assert st.ms[i] == Enriched(st.listed[i], st.hints);
      FullIsStoredWhole(st.listed[i], st.hints);
      PageOf(st, now, frozen, owned, first, i, q);
    }
  }

  lemma FullIsStoredWhole(m: Mapping, hints: nat -> Hint)
    ensures InFull(m, hints(m.start)) <==> StoredWhole(Enriched(m, hints))
  {
    BitsMove(m.flags);
  }

  lemma PageOf(st: Store, now: Memory, frozen: Memory, owned: nat -> bool, first: nat, i: nat, q: nat)
    requires Stores(st, now, owned, true) && Agree(owned, frozen, now) && i < |st.ms| && StoredWhole(st.ms[i])
    requires st.ms[i].start + q < st.ms[i].end && Multiple(q, st.pagesize)
    requires Avoids(owned, st.ms[i].start + q, st.pagesize) && !Skippable(frozen, st.ms[i].start + q, st.pagesize)
    ensures Stored(Expected(st.stored, first, st.pagesize, st.parts), st.ms[i].start + q, st.pagesize)
  {
    SkippableAgrees(frozen, now, owned, st.ms[i].start + q, st.pagesize);
    assert Settles(st.ms[i], st.fs[i], now, owned, st.pagesize, true);
    PageKept(st.ms[i], st.fs[i], now, owned, st.pagesize, q);
    var s := SegmentIs(st, now, owned, first, i);
  }

  /** Stored in full, a kept mapping has a segment of its start and size. */
  lemma SegmentIs(st: Store, now: Memory, owned: nat -> bool, first: nat, i: nat) returns (s: nat)
    requires Stores(st, now, owned, true) && i < |st.ms| && st.fs[i].Some?
    ensures
      var segs, k := Expected(st.stored, first, st.pagesize, st.parts), st.fs[i].value;
      s < |segs| && segs[s].header.vaddr == k.start && |segs[s].data| == k.writeSize
  {
    KeptByIndex(st.fs);
    s :| 0 <= s < |KeptIndices(st.fs)| && KeptIndices(st.fs)[s] == i;
    ExpectedAt(st.stored, first, st.pagesize, st.parts, s);
  }

  lemma MappingsOf(st: Store, now: Memory, frozen: Memory, owned: nat -> bool, whole: bool, first: nat)
    requires Stores(st, now, owned, whole) && Agree(owned, frozen, now) && AllWhole(st.listed, st.pagesize)
    ensures ShowsMappings(Expected(st.stored, first, st.pagesize, st.parts), st.listed, st.hints, st.pagesize, frozen,
      owned, whole)
  {
    var segs := Expected(st.stored, first, st.pagesize, st.parts);
    forall i | 0 <= i < |st.listed| && Outside(owned, st.listed[i])
      ensures ShowsRuled(segs, st.listed[i], st.hints(st.listed[i].start), st.pagesize, frozen, whole)
    {
      assert st.ms[i] == Enriched(st.listed[i], st.hints);
      MappingOf(st, now, frozen, owned, whole, first, segs, i);
    }
  }

  /** `d` is a dump that the serializer can make in state `t`, out of the captured threads and the memory it reads,
      in-line or in the snapshot child, while that memory keeps changing inside the lister's own part. */
  ghost predicate DumpOf(c: L.Config, t: L.State, content: L.Content, readable: nat -> bool,
                         cap: Captured, opts: Options, listed: seq<Mapping>, hints: nat -> Hint, d: Dump)
  {
    && L.Reachable(c, t) && t.dump.captureOk && t.dump.allStopped && S.Serializing(t, content)
    && cap.threads == t.dump.captured
    && Readable(cap, opts, listed, hints, d, Memory(content, readable), c.owned)
  }

  /** What a reader of the core learns: the thread notes decode to the captured threads, each once and the main one
      first, and those are the threads of the list with the registers of the capture point; every listed mapping
      outside the lister's own memory is kept, or dropped, as the rules say of the frozen memory; every byte in the
      file that is not the lister's own is the frozen one; and no page with something in it is lost, even from a
      mapping that is the lister's own in part. */
  lemma DumpShowsFrozenProcess(c: L.Config, t: L.State, content: L.Content, readable: nat -> bool,
                               cap: Captured, opts: Options, listed: seq<Mapping>, hints: nat -> Hint, d: Dump)
    requires DumpOf(c, t, content, readable, cap, opts, listed, hints, d)
    ensures AllWhole(listed, PageSizeOf(cap.auxv))
    ensures
      var v, frozen := ReadCore(Stream(cap, opts, d)), Memory(t.dump.frozenMem, readable);
      && v.Some? && ShowsDump(v.value, cap, opts.notes, listed, hints, frozen, c.owned, Whole(opts))
      && cap.threads == t.dump.captured && S.CapturedAsStopped(c, t)
  {
    S.ReadsFrozen(c, t, content);
    S.SnapshotParts(c, t);
    DumpShows(cap, opts, listed, hints, d, Memory(content, readable), Memory(t.dump.frozenMem, readable), c.owned);
  }

  // ---- Two strategies ----

  /** Segments that show the same mapping differ at most in where they lie in the file. */
  ghost predicate SameSegment(a: Segment, b: Segment) {
    a.data == b.data && a.header == b.header.(offset := a.header.offset)
  }

  /** Both files have segments in the range of `m`, or neither has, and they are the same. */
  ghost predicate SameWithin(a: seq<Segment>, b: seq<Segment>, m: Mapping) {
    && ((exists q :: 0 <= q < |a| && Within(a[q], m)) <==> (exists q :: 0 <= q < |b| && Within(b[q], m)))
    && (forall q, r | 0 <= q < |a| && 0 <= r < |b| && Within(a[q], m) && Within(b[r], m) :: SameSegment(a[q], b[r]))
  }

  lemma SameShown(a: seq<Segment>, b: seq<Segment>, m: Mapping, f: Option<Mapping>, pagesize: nat, f1: Memory,
                  f2: Memory)
    requires ShowsListed(a, m, f, pagesize, f1, true) && ShowsListed(b, m, f, pagesize, f2, true) && SameBytes(f1, f2)
    ensures SameWithin(a, b, m)
  {
    forall q, r | 0 <= q < |a| && 0 <= r < |b| && Within(a[q], m) && Within(b[r], m)
      ensures SameSegment(a[q], b[r])
    {
      assert ShowsMapping(a[q], f.value, pagesize, f1, true) && ShowsMapping(b[r], f.value, pagesize, f2, true);
      ImageSame(f1, f2, f.value.start, |a[q].data|);
    }
  }

  lemma ImageSame(f1: Memory, f2: Memory, start: nat, len: nat)
    requires SameBytes(f1, f2)
    ensures f1.Image(start, len) == f2.Image(start, len)
  {
    var a, b := f1.Image(start, len), f2.Image(start, len);
    forall j | 0 <= j < len
      ensures a[j] == b[j]
    {
      var x := start + j;
      assert f1.readable(x / MIN_KERNEL_PAGE) == f2.readable(x / MIN_KERNEL_PAGE) && f1.content(x) == f2.content(x);
      assert a[j] == f1.View(x) && b[j] == f2.View(x);
    }
  }

  ghost predicate SameBytes(f1: Memory, f2: Memory) {
    (forall p: nat :: f1.readable(p) == f2.readable(p)) && (forall x: nat :: f1.content(x) == f2.content(x))
  }

  /** Where both files hold a byte that is not owned in either, it is the same. */
  ghost predicate SameBytesWhere(a: seq<Segment>, b: seq<Segment>, o1: nat -> bool, o2: nat -> bool) {
    forall q, r, x: nat |
      && 0 <= q < |a| && 0 <= r < |b| && Holds(a[q], x) && Holds(b[r], x) && !o1(x) && !o2(x)
      :: ByteAt(a[q], x) == ByteAt(b[r], x)
  }

  predicate Holds(seg: Segment, x: nat) {
    seg.header.vaddr <= x < seg.header.vaddr + |seg.data|
  }

  function ByteAt(seg: Segment, x: nat): byte
    requires Holds(seg, x)
  {
    seg.data[x - seg.header.vaddr]
  }

  lemma ByteIs(segs: seq<Segment>, mem: Memory, owned: nat -> bool, q: nat, x: nat)
    requires ShowsBytes(segs, mem, owned) && q < |segs| && Holds(segs[q], x) && !owned(x)
    ensures ByteAt(segs[q], x) == mem.View(x)
  {
    var j: nat := x - segs[q].header.vaddr;
    assert DepictsOne(segs[q].data, segs[q].header.vaddr, mem, owned);
    assert !owned(segs[q].header.vaddr + j);
  }

  lemma SameShownBytes(a: seq<Segment>, b: seq<Segment>, f1: Memory, f2: Memory, o1: nat -> bool, o2: nat -> bool)
    requires ShowsBytes(a, f1, o1) && ShowsBytes(b, f2, o2) && SameBytes(f1, f2)
    ensures SameBytesWhere(a, b, o1, o2)
  {
    forall q, r, x: nat |
      && 0 <= q < |a| && 0 <= r < |b| && Holds(a[q], x) && Holds(b[r], x) && !o1(x) && !o2(x)
      ensures ByteAt(a[q], x) == ByteAt(b[r], x)
    {
      ByteIs(a, f1, o1, q, x);
      ByteIs(b, f2, o2, r, x);
      assert f1.readable(x / MIN_KERNEL_PAGE) == f2.readable(x / MIN_KERNEL_PAGE) && f1.content(x) == f2.content(x);
    }
  }

  /** Two memories that show `listed` through two files. */
  lemma SameMemory(a: seq<Segment>, b: seq<Segment>, listed: seq<Mapping>, hints: nat -> Hint, pagesize: usize,
                   f1: Memory, f2: Memory, o1: nat -> bool, o2: nat -> bool)
    requires pagesize >= MAGIC_LEN && AllWhole(listed, pagesize) && SameBytes(f1, f2)
    requires ShowsMemory(a, listed, hints, pagesize, f1, o1, true)
    requires ShowsMemory(b, listed, hints, pagesize, f2, o2, true)
    ensures SameOutside(a, b, listed, o1, o2) && SameBytesWhere(a, b, o1, o2)
  {
    SameShownBytes(a, b, f1, f2, o1, o2);
    forall i | 0 <= i < |listed| && Outside(o1, listed[i]) && Outside(o2, listed[i])
      ensures SameWithin(a, b, listed[i])
    {
      assert WholePages(listed[i], pagesize);
      SameRuled(a, b, listed[i], hints, pagesize, f1, f2, o1);
    }
  }

  lemma SameRuled(a: seq<Segment>, b: seq<Segment>, m: Mapping, hints: nat -> Hint, pagesize: usize, f1: Memory,
                  f2: Memory, owned: nat -> bool)
    requires pagesize >= MAGIC_LEN && WholePages(m, pagesize) && SameBytes(f1, f2) && Outside(owned, m)
    requires ShowsRuled(a, m, hints(m.start), pagesize, f1, true)
    requires ShowsRuled(b, m, hints(m.start), pagesize, f2, true)
    ensures SameWithin(a, b, m)
  {
    var e := Enriched(m, hints);
    ShownAsFinalized(a, m, hints, pagesize, f1);
    ShownAsFinalized(b, m, hints, pagesize, f2);
    FinalizedAgrees(e, f1, f2, owned, pagesize);
    SameShown(a, b, m, Finalized(e, f1, pagesize), pagesize, f1, f2);
  }

  lemma ShownAsFinalized(segs: seq<Segment>, m: Mapping, hints: nat -> Hint, pagesize: usize, mem: Memory)
    requires pagesize > 0 && WholePages(m, pagesize) && ShowsRuled(segs, m, hints(m.start), pagesize, mem, true)
    ensures ShowsListed(segs, m, Finalized(Enriched(m, hints), mem, pagesize), pagesize, mem, true)
  {
    var f :| KeepRule(m, hints(m.start), f, mem, pagesize) && ShowsListed(segs, m, f, pagesize, mem, true);
    RuleIsFinalized(m, hints, f, mem, pagesize);
  }

  ghost predicate SameOutside(a: seq<Segment>, b: seq<Segment>, ms: seq<Mapping>, o1: nat -> bool, o2: nat -> bool) {
    forall i | 0 <= i < |ms| && Outside(o1, ms[i]) && Outside(o2, ms[i]) :: SameWithin(a, b, ms[i])
  }

  /** The frozen states are the same. */
  ghost predicate SameFrozen(c1: L.Config, t1: L.State, c2: L.Config, t2: L.State) {
    && t1.me.pids == t2.me.pids && c1.frame == c2.frame
    && (forall a :: t1.dump.frozenMem(a) == t2.dump.frozenMem(a))
    && (forall p | p in t1.me.pids :: t1.dump.frozenRegs(p) == t2.dump.frozenRegs(p))
  }

  /** Hence a forked and an in-line dump of the same frozen process, each with its own inputs, its own choice of
      mappings and its own changing memory, agree: on every thread's pid and registers; for every listed mapping outside
      both listers' memory, on whether it is there, its header but for the file offset, and all its bytes; and on every
      byte that both files hold and that is neither lister's own. */
  lemma StrategiesWriteSameCore(c1: L.Config, t1: L.State, m1: L.Content, cap1: Captured, opts1: Options, d1: Dump,
                                c2: L.Config, t2: L.State, m2: L.Content, cap2: Captured, opts2: Options, d2: Dump,
                                readable: nat -> bool, listed: seq<Mapping>, hints: nat -> Hint)
    requires DumpOf(c1, t1, m1, readable, cap1, opts1, listed, hints, d1)
    requires DumpOf(c2, t2, m2, readable, cap2, opts2, listed, hints, d2)
    requires SameFrozen(c1, t1, c2, t2) && PageSizeOf(cap1.auxv) == PageSizeOf(cap2.auxv)
    requires Whole(opts1) && Whole(opts2)
    ensures |t1.dump.captured| == |t2.dump.captured|
    ensures forall j | 0 <= j < |t1.dump.captured| ::
      t1.dump.captured[j].pid == t2.dump.captured[j].pid && t1.dump.captured[j].regs == t2.dump.captured[j].regs
    ensures
      var a, b := ReadCore(Stream(cap1, opts1, d1)), ReadCore(Stream(cap2, opts2, d2));
      && a.Some? && b.Some?
      && SameOutside(a.value.segments, b.value.segments, listed, c1.owned, c2.owned)
      && SameBytesWhere(a.value.segments, b.value.segments, c1.owned, c2.owned)
  {
    S.StrategiesAgree(c1, t1, c2, t2);
    DumpShowsFrozenProcess(c1, t1, m1, readable, cap1, opts1, listed, hints, d1);
    DumpShowsFrozenProcess(c2, t2, m2, readable, cap2, opts2, listed, hints, d2);
    var a, b := ReadCore(Stream(cap1, opts1, d1)).value, ReadCore(Stream(cap2, opts2, d2)).value;
    var p := PageSizeOf(cap1.auxv);
    var f1, f2 := Memory(t1.dump.frozenMem, readable), Memory(t2.dump.frozenMem, readable);
    SameMemory(a.segments, b.segments, listed, hints, p, f1, f2, c1.owned, c2.owned);
  }
}
