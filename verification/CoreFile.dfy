/** The core file as a value: its layout and bytes, and a reader that follows the System V ABI (gABI). */
module CoreFile {
  import opened Bytes
  import opened Inputs
  import opened Pages
  import opened Notes

  const PT_LOAD: nat := 1
  const PT_NOTE: nat := 4
  const ET_CORE: nat := 4
  const EM_X86_64: nat := 62

  /** What the assembler demands of its caller. */
  predicate Valid(inp: CoreInputs) {
    inp.pagesize > 0 && forall m | m in inp.mappings :: m.start + m.writeSize <= m.end
  }

  // ---- Headers ----

  /** A program header. */
  datatype Phdr = Phdr(
    ptype: nat, flags: nat, offset: nat, vaddr: nat, paddr: nat, filesz: nat, memsz: nat, align: nat)

  /** `e_ident`: magic, 64-bit, little-endian, version 1, System V ABI. */
  const IDENT: seq<byte> := [0x7f, 0x45, 0x4c, 0x46, 2, 1, 1, 0, 0, 0, 0, 0, 0, 0, 0, 0]

  function EhdrBytes(phnum: nat): (s: seq<byte>)
    ensures |s| == EHDR
  {
    IDENT + EhdrFront() + EhdrBack(phnum)
  }

  /** `e_type` to `e_flags`. */
  function EhdrFront(): (s: seq<byte>)
    ensures |s| == 36
  {
    Le(ET_CORE, 2) + Le(EM_X86_64, 2) + Le(1, 4) + Le(0, 8) + Le(EHDR, 8) + Le(0, 8) + Le(0, 4)
  }

  /** `e_ehsize` to `e_shstrndx`. */
  function EhdrBack(phnum: nat): (s: seq<byte>)
    ensures |s| == 12
  {
    Le(EHDR, 2) + Le(PHDR, 2) + Le(phnum, 2) + Le(64, 2) + Le(0, 2) + Le(0, 2)
  }

  function PhdrBytes(p: Phdr): (s: seq<byte>)
    ensures |s| == PHDR
  {
    Le(p.ptype, 4) + Le(p.flags, 4) + Le(p.offset, 8) + Le(p.vaddr, 8) + Le(p.paddr, 8)
    + Le(p.filesz, 8) + Le(p.memsz, 8) + Le(p.align, 8)
  }

  function PhdrTable(ps: seq<Phdr>): (s: seq<byte>)
    ensures |s| == PHDR * |ps|
  {
    if ps == [] then [] else PhdrBytes(ps[0]) + PhdrTable(ps[1..])
  }

  // ---- Layout ----

  function PhdrsEnd(inp: CoreInputs): nat {
    EHDR + (|inp.mappings| + 1) * PHDR
  }

  function NotesEnd(inp: CoreInputs): nat
    requires inp.pagesize > 0
  {
    PhdrsEnd(inp) + |Section(inp)|
  }

  /** The zero bytes that bring offset `n` to the next page. */
  function PageGap(n: nat, pagesize: nat): (g: nat)
    requires pagesize > 0
    ensures g < pagesize
  {
    Rem(pagesize - Rem(n, pagesize), pagesize)
  }

  /** The file offset of the first segment. */
  function FirstOffset(inp: CoreInputs): nat
    requires inp.pagesize > 0
  {
    NotesEnd(inp) + PageGap(NotesEnd(inp), inp.pagesize)
  }

  function NotePhdr(inp: CoreInputs): Phdr
    requires inp.pagesize > 0
  {
    Phdr(PT_NOTE, 0, PhdrsEnd(inp), 0, 0, |Section(inp)|, 0, 0)
  }

  function LoadPhdr(m: Mapping, offset: nat, pagesize: nat): Phdr
    requires m.start <= m.end
  {
    Phdr(PT_LOAD, m.flags % 8, offset, m.start, 0, m.writeSize, m.end - m.start, pagesize)
  }

  /** One PT_LOAD per mapping, each at the offset where the previous one ends. */
  function LoadPhdrs(ms: seq<Mapping>, offset: nat, pagesize: nat): (ps: seq<Phdr>)
    requires forall m | m in ms :: m.start <= m.end
    ensures |ps| == |ms|
  {
    if ms == [] then [] else
    [LoadPhdr(ms[0], offset, pagesize)] + LoadPhdrs(ms[1..], offset + ms[0].writeSize, pagesize)
  }

  /** One run of bytes for each mapping, as long as the mapping says. */
  predicate Fitting(ms: seq<Mapping>, parts: seq<seq<byte>>) {
    |parts| == |ms| && forall i | 0 <= i < |ms| :: |parts[i]| == ms[i].writeSize
  }

  /** The stored bytes of all segments. */
  function Joined(parts: seq<seq<byte>>): seq<byte> {
    if parts == [] then [] else parts[0] + Joined(parts[1..])
  }

  function TotalSize(ms: seq<Mapping>): nat {
    if ms == [] then 0 else ms[0].writeSize + TotalSize(ms[1..])
  }

  /** Everything before the segments. */
  function Headers(inp: CoreInputs): seq<byte>
    requires Valid(inp)
  {
    EhdrBytes(|inp.mappings| + 1) + PhdrBytes(NotePhdr(inp))
    + PhdrTable(LoadPhdrs(inp.mappings, FirstOffset(inp), inp.pagesize))
    + Section(inp) + Zeros(PageGap(NotesEnd(inp), inp.pagesize))
  }

  /** The whole core file, with the bytes `parts` for its segments. */
  function CoreImage(inp: CoreInputs, parts: seq<seq<byte>>): seq<byte>
    requires Valid(inp)
  {
    Headers(inp) + Joined(parts)
  }

  /** Every byte of the segments is what `mem` shows at its address, except at `owned` addresses. */
  ghost predicate Depicts(ms: seq<Mapping>, parts: seq<seq<byte>>, mem: Memory, owned: nat -> bool) {
    |parts| == |ms| && forall i | 0 <= i < |ms| :: DepictsOne(parts[i], ms[i].start, mem, owned)
  }

  ghost predicate DepictsOne(part: seq<byte>, start: nat, mem: Memory, owned: nat -> bool) {
    forall j: nat | j < |part| && !owned(start + j) :: part[j] == mem.View(start + j)
  }

  lemma {:induction false} JoinedLength(ms: seq<Mapping>, parts: seq<seq<byte>>)
    requires Fitting(ms, parts)
    ensures |Joined(parts)| == TotalSize(ms)
  {
    if ms != [] {
      JoinedLength(ms[1..], parts[1..]);
    }
  }

  /** The length of the file, from sizes alone. */
  function CoreLength(inp: CoreInputs): nat
    requires inp.pagesize > 0
  {
    FirstOffset(inp) + TotalSize(inp.mappings)
  }

  lemma ImageLength(inp: CoreInputs, parts: seq<seq<byte>>)
    requires Valid(inp) && Fitting(inp.mappings, parts)
    ensures |Headers(inp)| == FirstOffset(inp) && |CoreImage(inp, parts)| == CoreLength(inp)
  {
    JoinedLength(inp.mappings, parts);
  }

  // ---- Reader (gABI chapter 4, "ELF Header", and chapter 5, "Program Header") ----
  //
  // It knows the format by its numbers, not by the names the writer uses.

  datatype Segment = Segment(header: Phdr, data: seq<byte>)

  /** What a reader finds: the header of the notes and the notes, segments in order, and the bytes after the last thing
      any header names. */
  datatype View = View(header: Phdr, notes: seq<Note>, segments: seq<Segment>, leftover: nat)

  /** The file header. */
  datatype Ehdr = Ehdr(
    ident: seq<byte>, etype: nat, machine: nat, version: nat, entry: nat, phoff: nat, shoff: nat, flags: nat,
    ehsize: nat, phentsize: nat, phnum: nat, shentsize: nat, shnum: nat, shstrndx: nat)

  function ReadEhdr(file: seq<byte>): Ehdr
    requires 64 <= |file|
  {
    Ehdr(file[..16], Word(file, 16, 2), Word(file, 18, 2), Word(file, 20, 4), Word(file, 24, 8), Word(file, 32, 8),
      Word(file, 40, 8), Word(file, 48, 4), Word(file, 52, 2), Word(file, 54, 2), Word(file, 56, 2),
      Word(file, 58, 2), Word(file, 60, 2), Word(file, 62, 2))
  }

  /** The header of an x86_64 core with `phnum` program headers right behind it and no sections. */
  function CoreEhdr(phnum: nat): Ehdr {
    Ehdr([0x7f, 0x45, 0x4c, 0x46, 2, 1, 1, 0, 0, 0, 0, 0, 0, 0, 0, 0], 4, 62, 1, 0, 64, 0, 0, 64, 56, phnum, 64, 0, 0)
  }

  function ReadPhdr(file: seq<byte>, off: nat): Phdr
    requires off + 56 <= |file|
  {
    Phdr(Word(file, off, 4), Word(file, off + 4, 4), Word(file, off + 8, 8), Word(file, off + 16, 8),
      Word(file, off + 24, 8), Word(file, off + 32, 8), Word(file, off + 40, 8), Word(file, off + 48, 8))
  }

  function ReadPhdrs(file: seq<byte>, off: nat, n: nat): (ps: seq<Phdr>)
    requires off + 56 * n <= |file|
    ensures |ps| == n
    decreases n
  {
    if n == 0 then [] else [ReadPhdr(file, off)] + ReadPhdrs(file, off + 56, n - 1)
  }

  /** The segments the headers name, or `None` if one is not a PT_LOAD inside the file. */
  function ReadSegments(file: seq<byte>, ps: seq<Phdr>): Option<seq<Segment>> {
    if ps == [] then Some([]) else
    var p := ps[0];
    if p.ptype != 1 || p.offset + p.filesz > |file| then None else
    var rest := ReadSegments(file, ps[1..]);
    if rest.None? then None else
    Some([Segment(p, file[p.offset..p.offset + p.filesz])] + rest.value)
  }

  function Extent(ps: seq<Phdr>): nat {
    if ps == [] then 0 else Max(ps[0].offset + ps[0].filesz, Extent(ps[1..]))
  }

  function ReadCore(file: seq<byte>): Option<View> {
    if |file| < 64 then None else
    var e := ReadEhdr(file);
    if e != CoreEhdr(e.phnum) || e.phnum == 0 || e.phoff + 56 * e.phnum > |file| then None
    else ReadParts(file, ReadPhdrs(file, e.phoff, e.phnum))
  }

  /** The notes that the header `p` names, or `None` if it is not a PT_NOTE inside the file. */
  function ReadNotes(file: seq<byte>, p: Phdr): Option<seq<Note>> {
    if p.ptype != 4 || p.offset + p.filesz > |file| then None
    else ParseNotes(file[p.offset..p.offset + p.filesz])
  }

  /** The notes and segments that the program headers name. */
  function ReadParts(file: seq<byte>, ps: seq<Phdr>): Option<View>
    requires ps != []
  {
    var notes, segments := ReadNotes(file, ps[0]), ReadSegments(file, ps[1..]);
    if notes.None? || segments.None? then None
    else Some(View(ps[0], notes.value, segments.value, |file| - Min(|file|, Extent(ps))))
  }
}
