/** The PT_NOTE section: the notes a core holds, their bytes, and a reader for them. */
module Notes {
  import opened Bytes
  import opened Inputs

  const NT_PRSTATUS: u32 := 1
  const NT_PRFPREG: u32 := 2
  const NT_PRPSINFO: u32 := 3
  const NT_PRXREG: u32 := 4
  const NT_AUXV: u32 := 6
  const NT_FILE: u32 := 0x46494c45
  const CORE: seq<byte> := [0x43, 0x4f, 0x52, 0x45]

  function AlignNote(n: nat): (r: nat)
    ensures n <= r < n + 4 && r % 4 == 0
  {
    (n + 3) / 4 * 4
  }

  function NoteSize(namesz: nat, descsz: nat): nat {
    NHDR + AlignNote(namesz) + AlignNote(descsz)
  }

  /** The zero bytes after a field of `n` bytes. */
  function Pad(n: nat): seq<byte> {
    Zeros(AlignNote(n) - n)
  }

  function NameField(name: seq<byte>): (s: seq<byte>)
    ensures |s| == AlignNote(|name| + 1)
  {
    name + [0] + Pad(|name| + 1)
  }

  function NoteHeader(note: Note): (s: seq<byte>)
    ensures |s| == NHDR
  {
    Le(|note.name| + 1, 4) + Le(|note.desc|, 4) + Le(note.ntype, 4)
  }

  function NoteBytes(note: Note): (s: seq<byte>)
    ensures |s| == NoteSize(|note.name| + 1, |note.desc|)
  {
    NoteHeader(note) + NameField(note.name) + note.desc + Pad(|note.desc|)
  }

  function AllNotes(notes: seq<Note>): seq<byte> {
    if notes == [] then [] else NoteBytes(notes[0]) + AllNotes(notes[1..])
  }

  lemma AllNotesConcat(a: seq<Note>, b: seq<Note>)
    ensures AllNotes(a + b) == AllNotes(a) + AllNotes(b)
  {
    if a == [] {
      assert a + b == b;
    } else {
      assert (a + b)[1..] == a[1..] + b;
      AllNotesConcat(a[1..], b);
    }
  }

  lemma AllNotesOne(note: Note)
    ensures AllNotes([note]) == NoteBytes(note)
  {
  }

  // ---- Reading notes back (gABI chapter 5, "Note Section", with 4-byte alignment) ----

  /** The note at the front of `s` and the bytes it takes; all padding must be zero. */
  function ParseNote(s: seq<byte>): (r: Option<(Note, nat)>)
    ensures r.Some? ==> NHDR <= r.value.1 <= |s|
  {
    if |s| < NHDR then None else
    var namesz, descsz := Word(s, 0, 4), Word(s, 4, 4);
    var ntype := Word(s, 8, 4);
    var desc := NHDR + AlignNote(namesz);
    var size := desc + AlignNote(descsz);
    if namesz == 0 || ntype >= U32 || size > |s| || s[NHDR + namesz - 1] != 0 then None
    else if !AllZero(s[NHDR + namesz..desc]) || !AllZero(s[desc + descsz..size]) then None
    else Some((Note(s[NHDR..NHDR + namesz - 1], ntype, s[desc..desc + descsz]), size))
  }

  /** All of `s` as a list of notes, with nothing left over. */
  function ParseNotes(s: seq<byte>): Option<seq<Note>>
    decreases |s|
  {
    if s == [] then Some([]) else
    var first := ParseNote(s);
    if first.None? then None else
    var rest := ParseNotes(s[first.value.1..]);
    if rest.None? then None else Some([first.value.0] + rest.value)
  }

  /** Both length fields of the note fit their 32-bit words. */
  predicate NoteFits(note: Note) {
    |note.name| + 1 < U32 && |note.desc| < U32
  }

  lemma HeaderReadsBack(note: Note, s: seq<byte>)
    requires At(s, 0, NoteHeader(note)) && NoteFits(note)
    ensures Word(s, 0, 4) == |note.name| + 1 && Word(s, 4, 4) == |note.desc| && Word(s, 8, 4) == note.ntype
  {
    WordSizes();
    var a, b, c := Le(|note.name| + 1, 4), Le(|note.desc|, 4), Le(note.ntype, 4);
    AtPart(s, 0, a + b, c);
    AtPart(s, 0, a, b);
    WordAt(s, 0, |note.name| + 1, 4);
    WordAt(s, 4, |note.desc|, 4);
    WordAt(s, 8, note.ntype, 4);
  }

  lemma NameReadsBack(name: seq<byte>, s: seq<byte>, off: nat)
    requires At(s, off, NameField(name))
    ensures s[off..off + |name|] == name && s[off + |name|] == 0
    ensures AllZero(s[off + |name| + 1..off + AlignNote(|name| + 1)])
  {
    assert NameField(name) == name + ([0] + Pad(|name| + 1));
    AtPart(s, off, name, [0] + Pad(|name| + 1));
    AtPart(s, off + |name|, [0], Pad(|name| + 1));
  }

  lemma FieldsAt(note: Note, rest: seq<byte>)
    ensures
      var s := NoteBytes(note) + rest;
      && At(s, 0, NoteHeader(note)) && At(s, NHDR, NameField(note.name))
      && At(s, NHDR + AlignNote(|note.name| + 1), note.desc)
      && At(s, NHDR + AlignNote(|note.name| + 1) + |note.desc|, Pad(|note.desc|))
  {
    var h, n, d := NoteHeader(note), NameField(note.name), note.desc;
    assert NoteBytes(note) + rest == [] + h + (n + d + Pad(|d|) + rest);
    AtWhole([], h, n + d + Pad(|d|) + rest);
    assert NoteBytes(note) + rest == h + n + (d + Pad(|d|) + rest);
    AtWhole(h, n, d + Pad(|d|) + rest);
    assert NoteBytes(note) + rest == (h + n) + d + (Pad(|d|) + rest);
    AtWhole(h + n, d, Pad(|d|) + rest);
    assert NoteBytes(note) + rest == (h + n + d) + Pad(|d|) + rest;
    AtWhole(h + n + d, Pad(|d|), rest);
  }

  lemma NoteReadsBack(note: Note, rest: seq<byte>)
    requires NoteFits(note)
    ensures ParseNote(NoteBytes(note) + rest) == Some((note, |NoteBytes(note)|))
  {
    var s := NoteBytes(note) + rest;
    FieldsAt(note, rest);
    HeaderReadsBack(note, s);
    NameReadsBack(note.name, s, NHDR);
  }

  /** The reader recovers exactly the notes that were written. */
  lemma {:induction false} NotesRoundTrip(notes: seq<Note>)
    requires forall note | note in notes :: NoteFits(note)
    ensures ParseNotes(AllNotes(notes)) == Some(notes)
  {
    if notes != [] {
      var rest := AllNotes(notes[1..]);
      NoteReadsBack(notes[0], rest);
      assert (NoteBytes(notes[0]) + rest)[|NoteBytes(notes[0])|..] == rest;
      NotesRoundTrip(notes[1..]);
      assert [notes[0]] + notes[1..] == notes;
    }
  }

  // ---- The notes of a core ----

  function CoreNote(ntype: u32, desc: seq<byte>): Note {
    Note(CORE, ntype, desc)
  }

  /** A 32-bit two's-complement word. */
  function Signed(n: i32): nat {
    if n < 0 then n + U32 else n
  }

  /** The NT_PRSTATUS payload: all zero but the thread id and the registers. */
  function Prstatus(t: ThreadState): (s: seq<byte>)
    ensures |s| == 336
  {
    Zeros(32) + Le(Signed(t.pid), 4) + Zeros(76) + t.regs + Zeros(8)
  }

  function ThreadNotes(t: ThreadState): seq<Note> {
    [CoreNote(NT_PRSTATUS, Prstatus(t)), CoreNote(NT_PRFPREG, t.fpregs)]
  }

  function AllThreadNotes(ts: seq<ThreadState>): seq<Note> {
    if ts == [] then [] else ThreadNotes(ts[0]) + AllThreadNotes(ts[1..])
  }

  /** The index of the thread to show first. */
  function MainIndex(inp: CoreInputs): nat {
    Min(inp.mainThread, if inp.threads == [] then 0 else |inp.threads| - 1)
  }

  /** The threads in dump order: the main one, then the others as captured. */
  function MainFirst(inp: CoreInputs): seq<ThreadState> {
    if inp.threads == [] then [] else
    [inp.threads[MainIndex(inp)]] + Without(inp.threads, MainIndex(inp))
  }

  function Without<T>(s: seq<T>, i: nat): seq<T>
    requires i < |s|
  {
    s[..i] + s[i + 1..]
  }

  function AuxvBytes(auxv: seq<Auxv>): (s: seq<byte>)
    ensures |s| == 16 * |auxv|
  {
    if auxv == [] then [] else Le(auxv[0].aType, 8) + Le(auxv[0].aVal, 8) + AuxvBytes(auxv[1..])
  }

  // ---- NT_FILE ----

  /** One row of the file-backed mapping table. */
  datatype FileEntry = FileEntry(start: usize, end: usize, pageOffset: usize, name: seq<byte>)

  function FileTable(ms: seq<Mapping>, pagesize: nat): (t: seq<FileEntry>)
    requires pagesize > 0
  {
    if ms == [] then [] else
    (if ms[0].isAnon then [] else [Entry(ms[0], pagesize)]) + FileTable(ms[1..], pagesize)
  }

  function Entry(m: Mapping, pagesize: nat): FileEntry
    requires pagesize > 0
  {
    FileEntry(m.start, m.end, Quot(m.offset, pagesize), m.name)
  }

  function Triples(t: seq<FileEntry>): (s: seq<byte>)
    ensures |s| == 24 * |t|
  {
    if t == [] then [] else Triple(t[0]) + Triples(t[1..])
  }

  function Triple(e: FileEntry): (s: seq<byte>)
    ensures |s| == 24
  {
    Le(e.start, 8) + Le(e.end, 8) + Le(e.pageOffset, 8)
  }

  function Names(t: seq<FileEntry>): seq<byte> {
    if t == [] then [] else t[0].name + [0] + Names(t[1..])
  }

  function FileDesc(t: seq<FileEntry>, pagesize: nat): seq<byte> {
    Le(|t|, 8) + Le(pagesize, 8) + Triples(t) + Names(t)
  }

  function UserNotes(inp: CoreInputs): seq<Note> {
    if inp.user.Some? then [CoreNote(NT_PRXREG, inp.user.value)] else []
  }

  function AuxvNotes(inp: CoreInputs): seq<Note> {
    if inp.auxv != [] then [CoreNote(NT_AUXV, AuxvBytes(inp.auxv))] else []
  }

  function FileNotes(inp: CoreInputs): seq<Note>
    requires inp.pagesize > 0
  {
    FileNote(FileTable(inp.mappings, inp.pagesize), inp.pagesize)
  }

  /** Every note of the core, in file order. */
  function NoteList(inp: CoreInputs): seq<Note>
    requires inp.pagesize > 0
  {
    [CoreNote(NT_PRPSINFO, inp.prpsinfo)] + (UserNotes(inp) + (AllThreadNotes(MainFirst(inp))
    + (AuxvNotes(inp) + (inp.notes + FileNotes(inp)))))
  }

  function FileNote(t: seq<FileEntry>, pagesize: nat): seq<Note> {
    if t == [] then [] else [CoreNote(NT_FILE, FileDesc(t, pagesize))]
  }

  /** The whole PT_NOTE section. */
  function Section(inp: CoreInputs): seq<byte>
    requires inp.pagesize > 0
  {
    AllNotes(NoteList(inp))
  }
}
