/** A gABI reader recovers from the file exactly what was put in. */
module RoundTrip {
  import opened Bytes
  import opened Inputs
  import opened Notes
  import opened CoreFile

  /** Everything the file has to store fits the word it is stored in. */
  predicate Fits(inp: CoreInputs)
    requires inp.pagesize > 0
  {
    && |inp.mappings| + 1 < U16
    && (forall note | note in NoteList(inp) :: NoteFits(note))
    && FirstOffset(inp) + TotalSize(inp.mappings) < U64
  }

  /** The segments a reader must find. */
  function Expected(ms: seq<Mapping>, offset: nat, pagesize: nat, parts: seq<seq<byte>>): (r: seq<Segment>)
    requires (forall m | m in ms :: m.start <= m.end) && Fitting(ms, parts)
    ensures |r| == |ms|
  {
    if ms == [] then [] else
    [Segment(LoadPhdr(ms[0], offset, pagesize), parts[0])]
    + Expected(ms[1..], offset + ms[0].writeSize, pagesize, parts[1..])
  }

  predicate PhdrFits(p: Phdr) {
    && p.ptype < U32 && p.flags < U32 && p.offset < U64 && p.vaddr < U64 && p.paddr < U64
    && p.filesz < U64 && p.memsz < U64 && p.align < U64
  }

  lemma PhdrReadsBack(file: seq<byte>, off: nat, p: Phdr)
    requires At(file, off, PhdrBytes(p)) && PhdrFits(p)
    ensures ReadPhdr(file, off) == p
  {
    var a, b, c, d := Le(p.ptype, 4), Le(p.flags, 4), Le(p.offset, 8), Le(p.vaddr, 8);
    var e, f, g, h := Le(p.paddr, 8), Le(p.filesz, 8), Le(p.memsz, 8), Le(p.align, 8);
    AtPart(file, off, a + b + c + d + e + f + g, h);
    AtPart(file, off, a + b + c + d + e + f, g);
    AtPart(file, off, a + b + c + d + e, f);
    AtPart(file, off, a + b + c + d, e);
    AtPart(file, off, a + b + c, d);
    AtPart(file, off, a + b, c);
    AtPart(file, off, a, b);
    WordSizes();
    WordAt(file, off, p.ptype, 4);
    WordAt(file, off + 4, p.flags, 4);
    WordAt(file, off + 8, p.offset, 8);
    WordAt(file, off + 16, p.vaddr, 8);
    WordAt(file, off + 24, p.paddr, 8);
    WordAt(file, off + 32, p.filesz, 8);
    WordAt(file, off + 40, p.memsz, 8);
    WordAt(file, off + 48, p.align, 8);
  }

  /** The headers `ps` lie one after another from `off` on. */
  predicate TableIn(file: seq<byte>, off: nat, ps: seq<Phdr>)
    decreases |ps|
  {
    ps == [] || (At(file, off, PhdrBytes(ps[0])) && TableIn(file, off + PHDR, ps[1..]))
  }

  /** They read back there. */
  predicate TableReads(file: seq<byte>, off: nat, ps: seq<Phdr>)
    decreases |ps|
  {
    ps == [] || (EntryReads(file, off, ps[0]) && TableReads(file, off + PHDR, ps[1..]))
  }

  predicate EntryReads(file: seq<byte>, off: nat, p: Phdr) {
    off + PHDR <= |file| && ReadPhdr(file, off) == p
  }

  lemma FirstEntry(file: seq<byte>, off: nat, p: Phdr, rest: seq<Phdr>)
    requires At(file, off, PhdrBytes(p) + PhdrTable(rest))
    ensures At(file, off, PhdrBytes(p)) && At(file, off + PHDR, PhdrTable(rest))
  {
    AtPart(file, off, PhdrBytes(p), PhdrTable(rest));
  }

  lemma {:induction false} EntriesIn(file: seq<byte>, off: nat, ps: seq<Phdr>)
    requires At(file, off, PhdrTable(ps))
    ensures TableIn(file, off, ps)
    decreases |ps|
  {
    if ps != [] {
      FirstEntry(file, off, ps[0], ps[1..]);
      EntriesIn(file, off + PHDR, ps[1..]);
    }
  }

  lemma EntryReadsBack(file: seq<byte>, off: nat, p: Phdr)
    requires At(file, off, PhdrBytes(p)) && PhdrFits(p)
    ensures EntryReads(file, off, p)
  {
    PhdrReadsBack(file, off, p);
  }

  lemma {:induction false} EntriesReadBack(file: seq<byte>, off: nat, ps: seq<Phdr>)
    requires TableIn(file, off, ps) && forall p | p in ps :: PhdrFits(p)
    ensures TableReads(file, off, ps)
    decreases |ps|
  {
    if ps != [] {
      EntryReadsBack(file, off, ps[0]);
      EntriesReadBack(file, off + PHDR, ps[1..]);
    }
  }

  lemma {:induction false} EntriesRead(file: seq<byte>, off: nat, ps: seq<Phdr>)
    requires off + PHDR * |ps| <= |file| && TableReads(file, off, ps)
    ensures ReadPhdrs(file, off, |ps|) == ps
    decreases |ps|
  {
    if ps != [] {
      EntriesRead(file, off + PHDR, ps[1..]);
      assert [ps[0]] + ps[1..] == ps;
    }
  }

  lemma PhdrsReadBack(file: seq<byte>, off: nat, ps: seq<Phdr>)
    requires At(file, off, PhdrTable(ps)) && forall p | p in ps :: PhdrFits(p)
    ensures ReadPhdrs(file, off, |ps|) == ps
  {
    EntriesIn(file, off, ps);
    EntriesReadBack(file, off, ps);
    EntriesRead(file, off, ps);
  }

  lemma {:induction false} LoadsFit(ms: seq<Mapping>, offset: nat, pagesize: usize)
    requires forall m | m in ms :: m.start <= m.end
    requires offset + TotalSize(ms) < U64
    ensures forall p | p in LoadPhdrs(ms, offset, pagesize) :: PhdrFits(p)
  {
    if ms != [] {
      LoadsFit(ms[1..], offset + ms[0].writeSize, pagesize);
    }
  }

  lemma {:induction false} SegmentsReadBack(file: seq<byte>, ms: seq<Mapping>, offset: nat, pagesize: nat,
                                            parts: seq<seq<byte>>)
    requires (forall m | m in ms :: m.start <= m.end) && Fitting(ms, parts)
    requires At(file, offset, Joined(parts))
    ensures ReadSegments(file, LoadPhdrs(ms, offset, pagesize)) == Some(Expected(ms, offset, pagesize, parts))
  {
    if ms != [] {
      AtPart(file, offset, parts[0], Joined(parts[1..]));
      SegmentsReadBack(file, ms[1..], offset + ms[0].writeSize, pagesize, parts[1..]);
    }
  }

  lemma {:induction false} LoadsExtent(ms: seq<Mapping>, offset: nat, pagesize: nat)
    requires ms != [] && forall m | m in ms :: m.start <= m.end
    ensures Extent(LoadPhdrs(ms, offset, pagesize)) == offset + TotalSize(ms)
  {
    if |ms| > 1 {
      LoadsExtent(ms[1..], offset + ms[0].writeSize, pagesize);
    } else {
      assert LoadPhdrs(ms[1..], offset + ms[0].writeSize, pagesize) == [];
    }
  }

  /** The parts of the file and where they are. */
  lemma PartsAt(inp: CoreInputs, parts: seq<seq<byte>>)
    requires Valid(inp) && Fitting(inp.mappings, parts)
    ensures
      var file := CoreImage(inp, parts);
      && At(file, 0, EhdrBytes(|inp.mappings| + 1))
      && At(file, EHDR, PhdrTable([NotePhdr(inp)] + LoadPhdrs(inp.mappings, FirstOffset(inp), inp.pagesize)))
      && At(file, PhdrsEnd(inp), Section(inp))
      && At(file, FirstOffset(inp), Joined(parts))
  {
    HeadersAt(inp, Joined(parts));
    ImageLength(inp, parts);
    AtEnd(Headers(inp), Joined(parts));
  }

  lemma HeadersAt(inp: CoreInputs, g: seq<byte>)
    requires Valid(inp)
    ensures
      var file := Headers(inp) + g;
      && At(file, 0, EhdrBytes(|inp.mappings| + 1))
      && At(file, EHDR, PhdrTable([NotePhdr(inp)] + LoadPhdrs(inp.mappings, FirstOffset(inp), inp.pagesize)))
      && At(file, PhdrsEnd(inp), Section(inp))
  {
    var loads := LoadPhdrs(inp.mappings, FirstOffset(inp), inp.pagesize);
    TableCons(NotePhdr(inp), loads);
    SixParts(EhdrBytes(|inp.mappings| + 1), PhdrBytes(NotePhdr(inp)), PhdrTable(loads), Section(inp),
      Zeros(PageGap(NotesEnd(inp), inp.pagesize)), g, PhdrTable([NotePhdr(inp)] + loads));
  }

  lemma TableCons(p: Phdr, ps: seq<Phdr>)
    ensures PhdrTable([p] + ps) == PhdrBytes(p) + PhdrTable(ps)
  {
    assert ([p] + ps)[1..] == ps;
  }

  lemma AtEnd(a: seq<byte>, b: seq<byte>)
    ensures At(a + b, |a|, b)
  {
  }

  lemma SixParts(e: seq<byte>, n: seq<byte>, t: seq<byte>, s: seq<byte>, z: seq<byte>, g: seq<byte>,
                 table: seq<byte>)
    requires table == n + t
    ensures
      var file := e + n + t + s + z + g;
      At(file, 0, e) && At(file, |e|, table) && At(file, |e| + |table|, s)
  {
    var file := e + n + t + s + z + g;
    AtPart(file, 0, e + n + t + s + z, g);
    AtPart(file, 0, e + n + t + s, z);
    AtPart(file, 0, e + n + t, s);
    assert e + n + t == e + (n + t);
    AtPart(file, 0, e, n + t);
  }

  /** `file` starts with an ELF core header that a reader accepts and that announces `phnum` program headers. */
  predicate HeaderOk(file: seq<byte>, phnum: nat) {
    |file| >= 64 && ReadEhdr(file) == CoreEhdr(phnum)
  }

  lemma EhdrReadsBack(file: seq<byte>, phnum: nat)
    requires At(file, 0, EhdrBytes(phnum))
    ensures HeaderOk(file, phnum % U16)
  {
    AtPart(file, 0, IDENT + EhdrFront(), EhdrBack(phnum));
    AtPart(file, 0, IDENT, EhdrFront());
    assert file[..16] == CoreEhdr(0).ident;
    EhdrFrontReads(file);
    EhdrBackReads(file, phnum);
  }

  lemma EhdrFrontReads(file: seq<byte>)
    requires At(file, 16, EhdrFront())
    ensures Word(file, 16, 2) == 4 && Word(file, 18, 2) == 62 && Word(file, 20, 4) == 1 && Word(file, 24, 8) == 0
    ensures Word(file, 32, 8) == 64 && Word(file, 40, 8) == 0 && Word(file, 48, 4) == 0
  {
    WordSizes();
    SevenFields(file, 16, Le(ET_CORE, 2), Le(EM_X86_64, 2), Le(1, 4), Le(0, 8), Le(EHDR, 8), Le(0, 8), Le(0, 4));
    WordAt(file, 16, ET_CORE, 2);
    WordAt(file, 18, EM_X86_64, 2);
    WordAt(file, 20, 1, 4);
    WordAt(file, 24, 0, 8);
    WordAt(file, 32, EHDR, 8);
    WordAt(file, 40, 0, 8);
    WordAt(file, 48, 0, 4);
  }

  lemma SevenFields(file: seq<byte>, off: nat, a: seq<byte>, b: seq<byte>, c: seq<byte>, d: seq<byte>,
                    e: seq<byte>, f: seq<byte>, g: seq<byte>)
    requires At(file, off, a + b + c + d + e + f + g)
    ensures At(file, off, a) && At(file, off + |a|, b) && At(file, off + |a| + |b|, c)
    ensures At(file, off + |a| + |b| + |c|, d) && At(file, off + |a| + |b| + |c| + |d|, e)
    ensures At(file, off + |a| + |b| + |c| + |d| + |e|, f) && At(file, off + |a| + |b| + |c| + |d| + |e| + |f|, g)
  {
    AtPart(file, off, a + b + c + d + e + f, g);
    AtPart(file, off, a + b + c + d + e, f);
    AtPart(file, off, a + b + c + d, e);
    AtPart(file, off, a + b + c, d);
    AtPart(file, off, a + b, c);
    AtPart(file, off, a, b);
  }

  lemma SixFields(file: seq<byte>, off: nat, a: seq<byte>, b: seq<byte>, c: seq<byte>, d: seq<byte>,
                  e: seq<byte>, f: seq<byte>)
    requires At(file, off, a + b + c + d + e + f)
    ensures At(file, off, a) && At(file, off + |a|, b) && At(file, off + |a| + |b|, c)
    ensures At(file, off + |a| + |b| + |c|, d) && At(file, off + |a| + |b| + |c| + |d|, e)
    ensures At(file, off + |a| + |b| + |c| + |d| + |e|, f)
  {
    AtPart(file, off, a + b + c + d + e, f);
    AtPart(file, off, a + b + c + d, e);
    AtPart(file, off, a + b + c, d);
    AtPart(file, off, a + b, c);
    AtPart(file, off, a, b);
  }

  lemma EhdrBackReads(file: seq<byte>, phnum: nat)
    requires At(file, 52, EhdrBack(phnum))
    ensures Word(file, 52, 2) == 64 && Word(file, 54, 2) == 56 && Word(file, 56, 2) == phnum % U16
    ensures Word(file, 58, 2) == 64 && Word(file, 60, 2) == 0 && Word(file, 62, 2) == 0
  {
    WordSizes();
    SixFields(file, 52, Le(EHDR, 2), Le(PHDR, 2), Le(phnum, 2), Le(64, 2), Le(0, 2), Le(0, 2));
    WordAt(file, 52, EHDR, 2);
    WordAt(file, 54, PHDR, 2);
    StoredWord(phnum, 2);
    WordAt(file, 58, 64, 2);
    WordAt(file, 60, 0, 2);
    WordAt(file, 62, 0, 2);
  }

  lemma NotesReadBack(file: seq<byte>, p: Phdr, section: seq<byte>, notes: seq<Note>)
    requires p.ptype == 4 && p.filesz == |section| && At(file, p.offset, section)
    requires ParseNotes(section) == Some(notes)
    ensures ReadNotes(file, p) == Some(notes)
  {
    assert file[p.offset..p.offset + p.filesz] == section;
  }

  /** With the header and the table in place, the rest is up to the parts. */
  lemma ReadsParts(file: seq<byte>, ps: seq<Phdr>)
    requires ps != [] && HeaderOk(file, |ps|) && 64 + 56 * |ps| <= |file| && ReadPhdrs(file, 64, |ps|) == ps
    ensures ReadCore(file) == ReadParts(file, ps)
  {
  }

  lemma ReadsWhole(file: seq<byte>, ps: seq<Phdr>, notes: seq<Note>, segments: seq<Segment>, leftover: nat)
    requires ps != [] && ReadNotes(file, ps[0]) == Some(notes) && ReadSegments(file, ps[1..]) == Some(segments)
    requires leftover == |file| - Min(|file|, Extent(ps))
    ensures ReadParts(file, ps) == Some(View(ps[0], notes, segments, leftover))
  {
  }

  /** All program headers of the core. */
  function Table(inp: CoreInputs): (ps: seq<Phdr>)
    requires Valid(inp)
    ensures |ps| == |inp.mappings| + 1 && ps[0] == NotePhdr(inp)
    ensures ps[1..] == LoadPhdrs(inp.mappings, FirstOffset(inp), inp.pagesize)
  {
    [NotePhdr(inp)] + LoadPhdrs(inp.mappings, FirstOffset(inp), inp.pagesize)
  }

  lemma HeaderReadsBack(inp: CoreInputs, parts: seq<seq<byte>>)
    requires Valid(inp) && Fitting(inp.mappings, parts)
    ensures HeaderOk(CoreImage(inp, parts), (|inp.mappings| + 1) % U16)
  {
    PartsAt(inp, parts);
    EhdrReadsBack(CoreImage(inp, parts), |inp.mappings| + 1);
  }

  lemma TableReadsBack(inp: CoreInputs, parts: seq<seq<byte>>)
    requires Valid(inp) && Fitting(inp.mappings, parts) && Fits(inp)
    ensures
      var file := CoreImage(inp, parts);
      EHDR + PHDR * |Table(inp)| <= |file| && ReadPhdrs(file, EHDR, |Table(inp)|) == Table(inp)
  {
    PartsAt(inp, parts);
    LoadsFit(inp.mappings, FirstOffset(inp), inp.pagesize);
    PhdrsReadBack(CoreImage(inp, parts), EHDR, Table(inp));
  }

  lemma SmallMod(n: nat)
    ensures n % U16 == n <==> n < U16
  {
  }

  lemma TableExtent(inp: CoreInputs)
    requires Valid(inp)
    ensures Extent(Table(inp))
      == if inp.mappings == [] then NotesEnd(inp) else FirstOffset(inp) + TotalSize(inp.mappings)
  {
    if inp.mappings != [] {
      LoadsExtent(inp.mappings, FirstOffset(inp), inp.pagesize);
    }
  }

  /** The bytes after the last thing a header names. */
  function Leftover(inp: CoreInputs): nat
    requires inp.pagesize > 0
  {
    if inp.mappings == [] then PageGap(NotesEnd(inp), inp.pagesize) else 0
  }

  lemma LeftoverIs(inp: CoreInputs, parts: seq<seq<byte>>)
    requires Valid(inp) && Fitting(inp.mappings, parts)
    ensures
      var file := CoreImage(inp, parts);
      Leftover(inp) == |file| - Min(|file|, Extent(Table(inp)))
  {
    TableExtent(inp);
    ImageLength(inp, parts);
  }

  /** Between the notes and the first segment there is nothing but zeros. */
  lemma GapIsZero(inp: CoreInputs, parts: seq<seq<byte>>)
    requires Valid(inp) && Fitting(inp.mappings, parts)
    ensures |CoreImage(inp, parts)| >= FirstOffset(inp)
    ensures AllZero(CoreImage(inp, parts)[NotesEnd(inp)..FirstOffset(inp)])
  {
    var front := EhdrBytes(|inp.mappings| + 1) + PhdrBytes(NotePhdr(inp))
      + PhdrTable(LoadPhdrs(inp.mappings, FirstOffset(inp), inp.pagesize)) + Section(inp);
    MiddleOf(front, Zeros(PageGap(NotesEnd(inp), inp.pagesize)), Joined(parts));
  }

  lemma MiddleOf(a: seq<byte>, b: seq<byte>, c: seq<byte>)
    ensures (a + b + c)[|a|..|a| + |b|] == b
  {
  }

  /** Reading the file gives back the notes, every segment header, and every segment's bytes at its declared
      offset. Nothing is left over, but for the alignment gap when there is no segment to align. */
  lemma CoreRoundTrip(inp: CoreInputs, parts: seq<seq<byte>>)
    requires Valid(inp) && Fitting(inp.mappings, parts) && Fits(inp)
    ensures ReadCore(CoreImage(inp, parts)) == Some(View(
      NotePhdr(inp), NoteList(inp), Expected(inp.mappings, FirstOffset(inp), inp.pagesize, parts), Leftover(inp)))
  {
    var file := CoreImage(inp, parts);
    HeaderReadsBack(inp, parts);
    SmallMod(|inp.mappings| + 1);
    TableReadsBack(inp, parts);
    PartsAt(inp, parts);
    NotesRoundTrip(NoteList(inp));
    LoadsReadBack(inp, parts);
    LeftoverIs(inp, parts);
    ReadsParts(file, Table(inp));
    NotesReadBack(file, NotePhdr(inp), Section(inp), NoteList(inp));
    ReadsWhole(file, Table(inp), NoteList(inp), Expected(inp.mappings, FirstOffset(inp), inp.pagesize, parts),
      Leftover(inp));
  }

  lemma LoadsReadBack(inp: CoreInputs, parts: seq<seq<byte>>)
    requires Valid(inp) && Fitting(inp.mappings, parts)
    ensures ReadSegments(CoreImage(inp, parts), Table(inp)[1..])
      == Some(Expected(inp.mappings, FirstOffset(inp), inp.pagesize, parts))
  {
    PartsAt(inp, parts);
    SegmentsReadBack(CoreImage(inp, parts), inp.mappings, FirstOffset(inp), inp.pagesize, parts);
  }

  /** The header count is stored in 16 bits: a reader sees the real number of headers exactly when it fits. */
  lemma HeaderCountNeedsSixteenBits(inp: CoreInputs, parts: seq<seq<byte>>)
    requires Valid(inp) && Fitting(inp.mappings, parts)
    ensures HeaderOk(CoreImage(inp, parts), |inp.mappings| + 1) <==> |inp.mappings| + 1 < U16
  {
    HeaderReadsBack(inp, parts);
    SmallMod(|inp.mappings| + 1);
  }
}
