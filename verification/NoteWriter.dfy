/** Streaming the PT_NOTE section through a writer, and computing its size beforehand by other means. */
module NoteWriter {
  import opened Bytes
  import opened Inputs
  import opened Notes
  import opened Output

  /** A list of notes being written after `pre`, as part of a larger output. */
  datatype NoteGoal = NoteGoal(out: Goal, pre: seq<byte>, notes: seq<Note>)

  /** The notes `done` of the list have been written. */
  ghost predicate Wrote(w: Writer, g: NoteGoal, done: seq<Note>)
    reads w, w.fd
  {
    && g.pre + AllNotes(g.notes) <= g.out.total && done <= g.notes
    && w.Sofar(g.out, g.pre + AllNotes(done))
  }

  /** Writing `note` next is on course. */
  ghost predicate Next(w: Writer, g: NoteGoal, done: seq<Note>, note: Note)
    reads w, w.fd
  {
    Wrote(w, g, done) && done + [note] <= g.notes
  }

  /** The outcome of a write that is part of `g`: `done` notes are out, or the writer has stopped. */
  ghost predicate Outcome(w: Writer, g: NoteGoal, done: seq<Note>, ok: bool)
    reads w, w.fd
  {
    if ok then Wrote(w, g, done) else w.Stopped(g.out) && (w.fd.reliable ==> w.Done())
  }

  lemma NoteStep(g: NoteGoal, done: seq<Note>, note: Note)
    requires g.pre + AllNotes(g.notes) <= g.out.total && done + [note] <= g.notes
    ensures g.pre + AllNotes(done + [note]) == g.pre + AllNotes(done) + NoteBytes(note)
    ensures g.pre + AllNotes(done) + NoteBytes(note) <= g.out.total
  {
    AllNotesConcat(done, [note]);
    AllNotesOne(note);
    var rest := g.notes[|done| + 1..];
    assert g.notes == done + [note] + rest;
    AllNotesConcat(done + [note], rest);
    Regroup(g.pre, AllNotes(done), NoteBytes(note), AllNotes(rest));
  }

  lemma Regroup(pre: seq<byte>, a: seq<byte>, b: seq<byte>, c: seq<byte>)
    ensures pre + (a + b) == pre + a + b
    ensures pre + a + b <= pre + (a + b + c)
  {
    assert pre + (a + b + c) == pre + a + b + c;
  }

  /** If `a + b` comes next then `a` comes next, and then `b`. */
  lemma Peel(pre: seq<byte>, a: seq<byte>, b: seq<byte>, total: seq<byte>)
    requires pre + (a + b) <= total
    ensures pre + a <= total && pre + a + b <= total && pre + a + b == pre + (a + b)
  {
    assert pre + a + b == pre + (a + b);
    assert pre + a <= pre + a + b;
  }

  lemma NoteParts(note: Note)
    ensures NoteBytes(note) == NoteHeader(note) + (NameField(note.name) + Padded(note.desc))
  {
  }

  /** A field and its zero padding. */
  function Padded(field: seq<byte>): seq<byte> {
    field + Pad(|field|)
  }

  /** `write_full` of a field followed by `pad`. */
  method AppendPadded(w: Writer, field: seq<byte>, ghost g: Goal, ghost pre: seq<byte>)
    returns (r: Option<WriteError>)
    requires w.Sofar(g, pre) && pre + Padded(field) <= g.total
    modifies w, w.fd
    ensures r.None? ==> w.Sofar(g, pre + Padded(field))
    ensures r.Some? ==> w.Stopped(g) && (w.fd.reliable ==> w.Done())
  {
    var padding := Zeros(AlignNote(|field|) - |field|);
    Peel(pre, field, padding, g.total);
    r := w.Append(field, g, pre);
    if r.Some? { return; }
    r := w.Append(padding, g, pre + field);
  }

  /** `write_core_note`: header, the 8-byte "CORE" name field, descriptor, padding. */
  method WriteCoreNote(w: Writer, ntype: u32, desc: seq<byte>, ghost g: NoteGoal, ghost done: seq<Note>)
    returns (r: Option<WriteError>)
    requires Next(w, g, done, CoreNote(ntype, desc))
    modifies w, w.fd
    ensures Outcome(w, g, done + [CoreNote(ntype, desc)], r.None?)
  {
    ghost var note := CoreNote(ntype, desc);
    ghost var pre, total := g.pre + AllNotes(done), g.out.total;
    NoteStep(g, done, note);
    var nhdr := Le(5, 4) + Le(|desc|, 4) + Le(ntype, 4);
    var name := CORE + [0, 0, 0, 0];
    assert name == NameField(CORE);
    NoteParts(note);
    Peel(pre, nhdr, name + Padded(desc), total);
    r := w.Append(nhdr, g.out, pre);
    if r.Some? { return; }
    Peel(pre + nhdr, name, Padded(desc), total);
    r := w.Append(name, g.out, pre + nhdr);
    if r.Some? { return; }
    r := AppendPadded(w, desc, g.out, pre + nhdr + name);
  }

  /** `write_extra_note`: the caller's own name, with its NUL and padding. */
  method WriteExtraNote(w: Writer, note: Note, ghost g: NoteGoal, ghost done: seq<Note>)
    returns (r: Option<WriteError>)
    requires Next(w, g, done, note)
    modifies w, w.fd
    ensures Outcome(w, g, done + [note], r.None?)
  {
    ghost var pre, total := g.pre + AllNotes(done), g.out.total;
    NoteStep(g, done, note);
    var namesz, descsz := |note.name| + 1, |note.desc|;
    var nhdr := Le(namesz, 4) + Le(descsz, 4) + Le(note.ntype, 4);
    NoteParts(note);
    Peel(pre, nhdr, NameField(note.name) + Padded(note.desc), total);
    r := w.Append(nhdr, g.out, pre);
    if r.Some? { return; }
    Peel(pre + nhdr, NameField(note.name), Padded(note.desc), total);
    r := WriteNameField(w, note.name, g.out, pre + nhdr);
    if r.Some? { return; }
    r := AppendPadded(w, note.desc, g.out, pre + nhdr + NameField(note.name));
  }

  /** The name, its NUL and padding. */
  method WriteNameField(w: Writer, name: seq<byte>, ghost g: Goal, ghost pre: seq<byte>)
    returns (r: Option<WriteError>)
    requires w.Sofar(g, pre) && pre + NameField(name) <= g.total
    modifies w, w.fd
    ensures r.None? ==> w.Sofar(g, pre + NameField(name))
    ensures r.Some? ==> w.Stopped(g) && (w.fd.reliable ==> w.Done())
  {
    var padding := Zeros(AlignNote(|name| + 1) - (|name| + 1));
    assert NameField(name) == name + ([0] + padding);
    Peel(pre, name, [0] + padding, g.total);
    r := w.Append(name, g, pre);
    if r.Some? { return; }
    Peel(pre + name, [0], padding, g.total);
    r := w.Append([0], g, pre + name);
    if r.Some? { return; }
    r := w.Append(padding, g, pre + name + [0]);
  }

  /** `nt_file_sizes`: the file-backed count and the unpadded descriptor length, or zeros. */
  method NtFileSizes(mappings: seq<Mapping>, ghost pagesize: nat) returns (count: nat, descLen: nat)
    requires pagesize > 0
    ensures count == |FileTable(mappings, pagesize)|
    ensures descLen == if count == 0 then 0 else |FileDesc(FileTable(mappings, pagesize), pagesize)|
  {
    var triplesAndNames := 0;
    count := 0;
    for i := 0 to |mappings|
      invariant count == |FileTable(mappings[..i], pagesize)|
      invariant triplesAndNames == 24 * count + |Names(FileTable(mappings[..i], pagesize))|
    {
      TableSnoc(mappings, i, pagesize);
      if !mappings[i].isAnon {
        count := count + 1;
        triplesAndNames := triplesAndNames + 3 * 8 + |mappings[i].name| + 1;
      }
    }
    assert mappings[..|mappings|] == mappings;
    descLen := if count == 0 then 0 else 2 * 8 + triplesAndNames;
  }

  lemma TableSnoc(ms: seq<Mapping>, i: nat, pagesize: nat)
    requires i < |ms| && pagesize > 0
    ensures
      var row := if ms[i].isAnon then [] else [Entry(ms[i], pagesize)];
      && FileTable(ms[..i + 1], pagesize) == FileTable(ms[..i], pagesize) + row
      && Names(FileTable(ms[..i + 1], pagesize)) == Names(FileTable(ms[..i], pagesize)) + Names(row)
      && Triples(FileTable(ms[..i + 1], pagesize)) == Triples(FileTable(ms[..i], pagesize)) + Triples(row)
  {
    var row := if ms[i].isAnon then [] else [Entry(ms[i], pagesize)];
    assert ms[..i + 1] == ms[..i] + [ms[i]];
    TableConcat(ms[..i], [ms[i]], pagesize);
    assert [ms[i]][1..] == [];
    assert FileTable([ms[i]], pagesize) == row;
    RowsConcat(FileTable(ms[..i], pagesize), row);
  }

  lemma TableConcat(a: seq<Mapping>, b: seq<Mapping>, pagesize: nat)
    requires pagesize > 0
    ensures FileTable(a + b, pagesize) == FileTable(a, pagesize) + FileTable(b, pagesize)
  {
    if a == [] {
      assert a + b == b;
    } else {
      assert (a + b)[1..] == a[1..] + b;
      TableConcat(a[1..], b, pagesize);
    }
  }

  lemma RowsConcat(a: seq<FileEntry>, b: seq<FileEntry>)
    ensures Names(a + b) == Names(a) + Names(b) && Triples(a + b) == Triples(a) + Triples(b)
  {
    if a == [] {
      assert a + b == b;
    } else {
      assert (a + b)[1..] == a[1..] + b;
      RowsConcat(a[1..], b);
    }
  }

  /** `write_nt_file`: nothing if no mapping is file-backed; else header, triples, then names. */
  method WriteNtFile(w: Writer, mappings: seq<Mapping>, pagesize: usize, ghost g: NoteGoal, ghost done: seq<Note>)
    returns (r: Option<WriteError>)
    requires pagesize > 0 && Wrote(w, g, done)
    requires done + FileNote(FileTable(mappings, pagesize), pagesize) <= g.notes
    modifies w, w.fd
    ensures Outcome(w, g, done + FileNote(FileTable(mappings, pagesize), pagesize), r.None?)
  {
    var count, descLen := NtFileSizes(mappings, pagesize);
    if count == 0 {
      assert done + [] == done;
      return None;
    }
    ghost var t := FileTable(mappings, pagesize);
    ghost var note := CoreNote(NT_FILE, FileDesc(t, pagesize));
    ghost var pre, total := g.pre + AllNotes(done), g.out.total;
    NoteStep(g, done, note);
    var padding := Zeros(AlignNote(descLen) - descLen);
    ghost var front, triples, names := FileFront(t, pagesize), Triples(t), Names(t);
    FileNoteBytes(t, pagesize);
    Peel(pre, front, triples + (names + padding), total);
    r := WriteFileFront(w, count, pagesize, descLen, t, g.out, pre);
    if r.Some? { return; }
    Peel(pre + front, triples, names + padding, total);
    r := WriteTriples(w, mappings, pagesize, g.out, pre + front);
    if r.Some? { return; }
    Peel(pre + front + triples, names, padding, total);
    r := WriteNames(w, mappings, pagesize, g.out, pre + front + triples);
    if r.Some? { return; }
    r := w.Append(padding, g.out, pre + front + triples + names);
  }

  /** The bytes of an NT_FILE note up to its triples. */
  function FileFront(t: seq<FileEntry>, pagesize: nat): seq<byte> {
    NoteHeader(CoreNote(NT_FILE, FileDesc(t, pagesize))) + NameField(CORE) + (Le(|t|, 8) + Le(pagesize, 8))
  }

  lemma FileNoteBytes(t: seq<FileEntry>, pagesize: nat)
    ensures
      var desc := FileDesc(t, pagesize);
      NoteBytes(CoreNote(NT_FILE, desc))
      == FileFront(t, pagesize) + (Triples(t) + (Names(t) + Pad(|desc|)))
  {
  }

  method WriteFileFront(w: Writer, count: nat, pagesize: usize, descLen: nat, ghost t: seq<FileEntry>,
                        ghost g: Goal, ghost pre: seq<byte>)
    returns (r: Option<WriteError>)
    requires count == |t| && descLen == |FileDesc(t, pagesize)|
    requires w.Sofar(g, pre) && pre + FileFront(t, pagesize) <= g.total
    modifies w, w.fd
    ensures r.None? ==> w.Sofar(g, pre + FileFront(t, pagesize))
    ensures r.Some? ==> w.Stopped(g) && (w.fd.reliable ==> w.Done())
  {
    var nhdr := Le(5, 4) + Le(descLen, 4) + Le(NT_FILE, 4);
    var name := CORE + [0, 0, 0, 0];
    var header := Le(count, 8) + Le(pagesize, 8);
    assert name == NameField(CORE);
    FrontIs(t, pagesize, nhdr, name, header);
    Peel(pre, nhdr, name + header, g.total);
    r := w.Append(nhdr, g, pre);
    if r.Some? { return; }
    Peel(pre + nhdr, name, header, g.total);
    r := w.Append(name, g, pre + nhdr);
    if r.Some? { return; }
    r := w.Append(header, g, pre + nhdr + name);
  }

  lemma FrontIs(t: seq<FileEntry>, pagesize: nat, nhdr: seq<byte>, name: seq<byte>, header: seq<byte>)
    requires nhdr == NoteHeader(CoreNote(NT_FILE, FileDesc(t, pagesize))) && name == NameField(CORE)
    requires header == Le(|t|, 8) + Le(pagesize, 8)
    ensures FileFront(t, pagesize) == nhdr + (name + header)
  {
  }

  /** The triples of the first `i` mappings. */
  function TriplesTo(ms: seq<Mapping>, i: nat, pagesize: nat): seq<byte>
    requires i <= |ms| && pagesize > 0
  {
    Triples(FileTable(ms[..i], pagesize))
  }

  lemma TripleStep(ms: seq<Mapping>, i: nat, pagesize: nat, pre: seq<byte>, total: seq<byte>)
    requires i < |ms| && pagesize > 0 && pre + Triples(FileTable(ms, pagesize)) <= total
    ensures ms[i].isAnon ==> TriplesTo(ms, i + 1, pagesize) == TriplesTo(ms, i, pagesize)
    ensures !ms[i].isAnon ==>
      && pre + TriplesTo(ms, i, pagesize) + Triple(Entry(ms[i], pagesize)) == pre + TriplesTo(ms, i + 1, pagesize)
      && pre + TriplesTo(ms, i + 1, pagesize) <= total
  {
    TableSnoc(ms, i, pagesize);
    RowsPrefix(ms, i + 1, pagesize);
    if ms[i].isAnon {
      assert TriplesTo(ms, i, pagesize) + Triples([]) == TriplesTo(ms, i, pagesize);
    } else {
      assert Triples([Entry(ms[i], pagesize)]) == Triple(Entry(ms[i], pagesize));
      Regroup(pre, TriplesTo(ms, i, pagesize), Triple(Entry(ms[i], pagesize)), []);
    }
  }

  method WriteTriples(w: Writer, mappings: seq<Mapping>, pagesize: usize, ghost g: Goal, ghost pre: seq<byte>)
    returns (r: Option<WriteError>)
    requires pagesize > 0
    requires w.Sofar(g, pre) && pre + Triples(FileTable(mappings, pagesize)) <= g.total
    modifies w, w.fd
    ensures r.None? ==> w.Sofar(g, pre + Triples(FileTable(mappings, pagesize)))
    ensures r.Some? ==> w.Stopped(g) && (w.fd.reliable ==> w.Done())
  {
    assert pre + TriplesTo(mappings, 0, pagesize) == pre;
    for i := 0 to |mappings|
      invariant w.Sofar(g, pre + TriplesTo(mappings, i, pagesize))
    {
      TripleStep(mappings, i, pagesize, pre, g.total);
      if !mappings[i].isAnon {
        r := w.Append(Triple(Entry(mappings[i], pagesize)), g, pre + TriplesTo(mappings, i, pagesize));
        if r.Some? { return; }
      }
    }
    assert mappings[..|mappings|] == mappings;
    return None;
  }

  /** The names of the first `i` mappings. */
  function NamesTo(ms: seq<Mapping>, i: nat, pagesize: nat): seq<byte>
    requires i <= |ms| && pagesize > 0
  {
    Names(FileTable(ms[..i], pagesize))
  }

  lemma NameStep(ms: seq<Mapping>, i: nat, pagesize: nat, pre: seq<byte>, total: seq<byte>)
    requires i < |ms| && pagesize > 0 && pre + Names(FileTable(ms, pagesize)) <= total
    ensures ms[i].isAnon ==> NamesTo(ms, i + 1, pagesize) == NamesTo(ms, i, pagesize)
    ensures !ms[i].isAnon ==>
      && pre + NamesTo(ms, i, pagesize) + (ms[i].name + [0]) == pre + NamesTo(ms, i + 1, pagesize)
      && pre + NamesTo(ms, i + 1, pagesize) <= total
  {
    TableSnoc(ms, i, pagesize);
    RowsPrefix(ms, i + 1, pagesize);
    if ms[i].isAnon {
      assert NamesTo(ms, i, pagesize) + Names([]) == NamesTo(ms, i, pagesize);
    } else {
      assert Names([Entry(ms[i], pagesize)]) == (ms[i].name + [0]);
      Regroup(pre, NamesTo(ms, i, pagesize), (ms[i].name + [0]), []);
    }
  }

  method WriteNames(w: Writer, mappings: seq<Mapping>, pagesize: usize, ghost g: Goal, ghost pre: seq<byte>)
    returns (r: Option<WriteError>)
    requires pagesize > 0
    requires w.Sofar(g, pre) && pre + Names(FileTable(mappings, pagesize)) <= g.total
    modifies w, w.fd
    ensures r.None? ==> w.Sofar(g, pre + Names(FileTable(mappings, pagesize)))
    ensures r.Some? ==> w.Stopped(g) && (w.fd.reliable ==> w.Done())
  {
    assert pre + NamesTo(mappings, 0, pagesize) == pre;
    for i := 0 to |mappings|
      invariant w.Sofar(g, pre + NamesTo(mappings, i, pagesize))
    {
      NameStep(mappings, i, pagesize, pre, g.total);
      if !mappings[i].isAnon {
        r := w.Append((mappings[i].name + [0]), g, pre + NamesTo(mappings, i, pagesize));
        if r.Some? { return; }
      }
    }
    assert mappings[..|mappings|] == mappings;
    return None;
  }

  lemma RowsPrefix(ms: seq<Mapping>, i: nat, pagesize: nat)
    requires i <= |ms| && pagesize > 0
    ensures
      var a, b := FileTable(ms[..i], pagesize), FileTable(ms, pagesize);
      Names(a) <= Names(b) && Triples(a) <= Triples(b)
  {
    assert ms == ms[..i] + ms[i..];
    TableConcat(ms[..i], ms[i..], pagesize);
    RowsConcat(FileTable(ms[..i], pagesize), FileTable(ms[i..], pagesize));
  }

  // ---- The whole section ----

  lemma ThreadNotesConcat(a: seq<ThreadState>, b: seq<ThreadState>)
    ensures AllThreadNotes(a + b) == AllThreadNotes(a) + AllThreadNotes(b)
  {
    if a == [] {
      assert a + b == b;
    } else {
      assert (a + b)[1..] == a[1..] + b;
      ThreadNotesConcat(a[1..], b);
    }
  }

  lemma ThreadNotesSnoc(a: seq<ThreadState>, t: ThreadState)
    ensures AllThreadNotes(a + [t]) == AllThreadNotes(a) + ThreadNotes(t)
  {
    ThreadNotesConcat(a, [t]);
    assert AllThreadNotes([t]) == ThreadNotes(t) + AllThreadNotes([]);
  }

  lemma ThreadNotesPrefix(a: seq<ThreadState>, all: seq<ThreadState>)
    requires a <= all
    ensures AllThreadNotes(a) <= AllThreadNotes(all)
  {
    assert all == a + all[|a|..];
    ThreadNotesConcat(a, all[|a|..]);
  }

  /** The PRSTATUS and PRFPREG notes of one thread. */
  method WriteThread(w: Writer, t: ThreadState, ghost g: NoteGoal, ghost done: seq<Note>)
    returns (r: Option<WriteError>)
    requires Wrote(w, g, done) && done + ThreadNotes(t) <= g.notes
    modifies w, w.fd
    ensures Outcome(w, g, done + ThreadNotes(t), r.None?)
  {
    ghost var status := CoreNote(NT_PRSTATUS, Prstatus(t));
    assert done + ThreadNotes(t) == done + [status] + [CoreNote(NT_PRFPREG, t.fpregs)];
    r := WriteCoreNote(w, NT_PRSTATUS, Prstatus(t), g, done);
    if r.Some? { return; }
    r := WriteCoreNote(w, NT_PRFPREG, t.fpregs, g, done + [status]);
  }

  /** The first `i` threads without the main one. */
  function OthersTo(ts: seq<ThreadState>, main: nat, i: nat): seq<ThreadState>
    requires main < |ts| && i <= |ts|
  {
    if i <= main then ts[..i] else ts[..main] + ts[main + 1..i]
  }

  /** The notes of the main thread and of the others before index `i`. */
  function MainAndOthers(inp: CoreInputs, i: nat): seq<Note>
    requires i <= |inp.threads| && inp.threads != []
  {
    AllThreadNotes([inp.threads[MainIndex(inp)]] + OthersTo(inp.threads, MainIndex(inp), i))
  }

  lemma OthersStep(inp: CoreInputs, i: nat)
    requires i < |inp.threads|
    ensures i == MainIndex(inp) ==> MainAndOthers(inp, i + 1) == MainAndOthers(inp, i)
    ensures i != MainIndex(inp) ==>
      MainAndOthers(inp, i + 1) == MainAndOthers(inp, i) + ThreadNotes(inp.threads[i])
    ensures MainAndOthers(inp, i + 1) <= AllThreadNotes(MainFirst(inp))
  {
    var ts, main := inp.threads, MainIndex(inp);
    var a, b := [ts[main]] + OthersTo(ts, main, i), [ts[main]] + OthersTo(ts, main, i + 1);
    if i != main {
      assert b == a + [ts[i]];
      ThreadNotesSnoc(a, ts[i]);
    } else {
      assert a == b;
    }
    assert b <= MainFirst(inp);
    ThreadNotesPrefix(b, MainFirst(inp));
  }

  lemma OthersEnds(inp: CoreInputs)
    requires inp.threads != []
    ensures MainAndOthers(inp, 0) == ThreadNotes(inp.threads[MainIndex(inp)])
    ensures MainAndOthers(inp, |inp.threads|) == AllThreadNotes(MainFirst(inp))
  {
    var ts, main := inp.threads, MainIndex(inp);
    assert [ts[main]] + OthersTo(ts, main, 0) == [ts[main]];
    assert AllThreadNotes([ts[main]]) == ThreadNotes(ts[main]) + AllThreadNotes([]);
    assert OthersTo(ts, main, |ts|) == Without(ts, main);
  }

  /** The two passes over the threads: the main one, then the others. */
  method WriteThreads(w: Writer, inp: CoreInputs, ghost g: NoteGoal, ghost done: seq<Note>)
    returns (r: Option<WriteError>)
    requires Wrote(w, g, done) && done + AllThreadNotes(MainFirst(inp)) <= g.notes
    modifies w, w.fd
    ensures Outcome(w, g, done + AllThreadNotes(MainFirst(inp)), r.None?)
  {
    if inp.threads == [] {
      assert done + [] == done;
      return None;
    }
    var ts, main := inp.threads, MainIndex(inp);
    assert MainFirst(inp)[1..] == Without(ts, main);
    NotesPrefix(done, ThreadNotes(ts[main]), AllThreadNotes(Without(ts, main)), g.notes);
    r := WriteThread(w, ts[main], g, done);
    if r.Some? { return; }
    OthersEnds(inp);
    r := WriteOthers(w, inp, g, done);
  }

  method WriteOthers(w: Writer, inp: CoreInputs, ghost g: NoteGoal, ghost done: seq<Note>)
    returns (r: Option<WriteError>)
    requires inp.threads != [] && done + AllThreadNotes(MainFirst(inp)) <= g.notes
    requires Wrote(w, g, done + MainAndOthers(inp, 0))
    modifies w, w.fd
    ensures Outcome(w, g, done + MainAndOthers(inp, |inp.threads|), r.None?)
  {
    for i := 0 to |inp.threads|
      invariant Wrote(w, g, done + MainAndOthers(inp, i))
    {
      OthersStep(inp, i);
      if i != MainIndex(inp) {
        NotesPrefix(done, MainAndOthers(inp, i), ThreadNotes(inp.threads[i]), g.notes);
        r := WriteThread(w, inp.threads[i], g, done + MainAndOthers(inp, i));
        if r.Some? { return; }
      }
    }
    return None;
  }

  lemma NotesPrefix(done: seq<Note>, a: seq<Note>, b: seq<Note>, all: seq<Note>)
    requires done + (a + b) <= all
    ensures done + a <= all && done + a + b <= all && done + a + b == done + (a + b)
  {
    assert done + a + b == done + (a + b);
    assert done + a <= done + a + b;
  }

  lemma ExtraNext(done: seq<Note>, notes: seq<Note>, i: nat, all: seq<Note>)
    requires i < |notes| && done + notes <= all
    ensures done + notes[..i] + [notes[i]] == done + notes[..i + 1] <= all
  {
    var next := notes[..i + 1];
    assert notes[..i] + [notes[i]] == next;
    assert done + notes == done + next + notes[i + 1..];
  }

  /** The user's extra notes, in order. */
  method WriteExtraNotes(w: Writer, notes: seq<Note>, ghost g: NoteGoal, ghost done: seq<Note>)
    returns (r: Option<WriteError>)
    requires Wrote(w, g, done) && done + notes <= g.notes
    modifies w, w.fd
    ensures Outcome(w, g, done + notes, r.None?)
  {
    assert done + notes[..0] == done;
    for i := 0 to |notes|
      invariant Wrote(w, g, done + notes[..i])
    {
      ExtraNext(done, notes, i, g.notes);
      r := WriteExtraNote(w, notes[i], g, done + notes[..i]);
      if r.Some? { return; }
    }
    assert notes[..|notes|] == notes;
    return None;
  }

  /** `write_notes`: the section, in file order. */
  method WriteNotes(w: Writer, inp: CoreInputs, ghost out: Goal, ghost pre: seq<byte>)
    returns (r: Option<WriteError>)
    requires inp.pagesize > 0
    requires w.Sofar(out, pre) && pre + Section(inp) <= out.total
    modifies w, w.fd
    ensures r.None? ==> w.Sofar(out, pre + Section(inp))
    ensures r.Some? ==> w.Stopped(out) && (w.fd.reliable ==> w.Done())
  {
    ghost var g := NoteGoal(out, pre, NoteList(inp));
    ghost var tail := AuxvNotes(inp) + (inp.notes + FileNotes(inp));
    ghost var info, threads := [CoreNote(NT_PRPSINFO, inp.prpsinfo)], AllThreadNotes(MainFirst(inp));
    assert pre + AllNotes([]) == pre;
    NotesPrefix([], info, UserNotes(inp) + (threads + tail), g.notes);
    assert [] + info == info;
    r := WriteCoreNote(w, NT_PRPSINFO, inp.prpsinfo, g, []);
    if r.Some? { return; }
    NotesPrefix(info, UserNotes(inp), threads + tail, g.notes);
    if inp.user.Some? {
      r := WriteCoreNote(w, NT_PRXREG, inp.user.value, g, info);
      if r.Some? { return; }
    } else {
      assert info + UserNotes(inp) == info;
    }
    NotesPrefix(info + UserNotes(inp), threads, tail, g.notes);
    r := WriteThreads(w, inp, g, info + UserNotes(inp));
    if r.Some? { return; }
    r := WriteTail(w, inp, g, info + UserNotes(inp) + threads);
  }

  /** AUXV, the extra notes and NT_FILE. */
  method WriteTail(w: Writer, inp: CoreInputs, ghost g: NoteGoal, ghost done: seq<Note>)
    returns (r: Option<WriteError>)
    requires inp.pagesize > 0
    requires Wrote(w, g, done) && done + (AuxvNotes(inp) + (inp.notes + FileNotes(inp))) == g.notes
    modifies w, w.fd
    ensures Outcome(w, g, g.notes, r.None?)
  {
    NotesPrefix(done, AuxvNotes(inp), inp.notes + FileNotes(inp), g.notes);
    if inp.auxv != [] {
      r := WriteCoreNote(w, NT_AUXV, AuxvBytes(inp.auxv), g, done);
      if r.Some? { return; }
    } else {
      assert done + AuxvNotes(inp) == done;
    }
    NotesPrefix(done + AuxvNotes(inp), inp.notes, FileNotes(inp), g.notes);
    r := WriteExtraNotes(w, inp.notes, g, done + AuxvNotes(inp));
    if r.Some? { return; }
    r := WriteNtFile(w, inp.mappings, inp.pagesize, g, done + AuxvNotes(inp) + inp.notes);
  }

  // ---- The size of the section, computed without writing it ----

  function CoreNoteSize(descsz: nat): nat {
    NoteSize(5, descsz)
  }

  /** The PRSTATUS and PRFPREG notes of one thread. */
  const THREAD_NOTES: nat := 888

  lemma ThreadNotesSize(ts: seq<ThreadState>)
    ensures |AllNotes(AllThreadNotes(ts))| == |ts| * THREAD_NOTES
  {
    if ts != [] {
      ThreadNotesSize(ts[1..]);
      AllNotesConcat(ThreadNotes(ts[0]), AllThreadNotes(ts[1..]));
      OneThreadSize(ts[0]);
    }
  }

  lemma OneThreadSize(t: ThreadState)
    ensures |AllNotes(ThreadNotes(t))| == THREAD_NOTES
  {
    var a, b := CoreNote(NT_PRSTATUS, Prstatus(t)), CoreNote(NT_PRFPREG, t.fpregs);
    assert ThreadNotes(t) == [a] + [b];
    AllNotesConcat([a], [b]);
    AllNotesOne(a);
    AllNotesOne(b);
  }

  lemma AllNotesSix(a: Note, b: seq<Note>, c: seq<Note>, d: seq<Note>, e: seq<Note>, f: seq<Note>)
    ensures |AllNotes([a] + (b + (c + (d + (e + f)))))|
      == |NoteBytes(a)| + |AllNotes(b)| + |AllNotes(c)| + |AllNotes(d)| + |AllNotes(e)| + |AllNotes(f)|
  {
    AllNotesOne(a);
    AllNotesConcat([a], b + (c + (d + (e + f))));
    AllNotesConcat(b, c + (d + (e + f)));
    AllNotesConcat(c, d + (e + f));
    AllNotesConcat(d, e + f);
    AllNotesConcat(e, f);
  }

  lemma CoreNoteLength(ntype: u32, desc: seq<byte>)
    ensures |AllNotes([CoreNote(ntype, desc)])| == CoreNoteSize(|desc|)
  {
    AllNotesOne(CoreNote(ntype, desc));
  }

  /** The section length from counts, part by part. */
  function SizeFrom(nThreads: nat, nAuxv: nat, mappings: seq<Mapping>, notes: seq<Note>, hasUser: bool): nat {
    var t := FileTable(mappings, 1);
    CoreNoteSize(136)
    + (if hasUser then CoreNoteSize(928) else 0)
    + nThreads * THREAD_NOTES
    + (if nAuxv > 0 then CoreNoteSize(nAuxv * 16) else 0)
    + (if t != [] then CoreNoteSize(|FileDesc(t, 1)|) else 0)
    + |AllNotes(notes)|
  }

  lemma SectionLength(inp: CoreInputs)
    requires inp.pagesize > 0
    ensures |Section(inp)| == SizeFrom(|inp.threads|, |inp.auxv|, inp.mappings, inp.notes, inp.user.Some?)
  {
    var info, user, threads := CoreNote(NT_PRPSINFO, inp.prpsinfo), UserNotes(inp), AllThreadNotes(MainFirst(inp));
    var auxv, files := AuxvNotes(inp), FileNotes(inp);
    AllNotesSix(info, user, threads, auxv, inp.notes, files);
    assert |NoteBytes(info)| == CoreNoteSize(136);
    UserNotesLength(inp);
    ThreadNotesLength(inp);
    AuxvNotesLength(inp);
    FileNotesLength(inp);
  }

  lemma UserNotesLength(inp: CoreInputs)
    ensures |AllNotes(UserNotes(inp))| == if inp.user.Some? then CoreNoteSize(928) else 0
  {
    if inp.user.Some? { CoreNoteLength(NT_PRXREG, inp.user.value); }
  }

  lemma ThreadNotesLength(inp: CoreInputs)
    ensures |AllNotes(AllThreadNotes(MainFirst(inp)))| == |inp.threads| * THREAD_NOTES
  {
    ThreadNotesSize(MainFirst(inp));
  }

  lemma AuxvNotesLength(inp: CoreInputs)
    ensures |AllNotes(AuxvNotes(inp))| == if |inp.auxv| > 0 then CoreNoteSize(|inp.auxv| * 16) else 0
  {
    if inp.auxv != [] { CoreNoteLength(NT_AUXV, AuxvBytes(inp.auxv)); }
  }

  lemma FileNotesLength(inp: CoreInputs)
    requires inp.pagesize > 0
    ensures |AllNotes(FileNotes(inp))|
      == if FileTable(inp.mappings, 1) == [] then 0 else CoreNoteSize(|FileDesc(FileTable(inp.mappings, 1), 1)|)
  {
    var t := FileTable(inp.mappings, inp.pagesize);
    TableSizeIgnoresPages(inp.mappings, 1, inp.pagesize);
    if t != [] { CoreNoteLength(NT_FILE, FileDesc(t, inp.pagesize)); }
  }

  /** The size of the table does not depend on the page size. */
  lemma TableSizeIgnoresPages(ms: seq<Mapping>, p: nat, q: nat)
    requires p > 0 && q > 0
    ensures |FileTable(ms, p)| == |FileTable(ms, q)|
    ensures |Names(FileTable(ms, p))| == |Names(FileTable(ms, q))|
  {
    if ms != [] {
      TableSizeIgnoresPages(ms[1..], p, q);
      if !ms[0].isAnon {
        NamesHead(ms, p);
        NamesHead(ms, q);
      } else {
        assert FileTable(ms, p) == FileTable(ms[1..], p) && FileTable(ms, q) == FileTable(ms[1..], q);
      }
    }
  }

  lemma NamesHead(ms: seq<Mapping>, p: nat)
    requires p > 0 && ms != [] && !ms[0].isAnon
    ensures Names(FileTable(ms, p)) == ms[0].name + [0] + Names(FileTable(ms[1..], p))
  {
    assert FileTable(ms, p)[1..] == FileTable(ms[1..], p);
  }

  lemma SizeForEveryInput(nThreads: nat, nAuxv: nat, mappings: seq<Mapping>, notes: seq<Note>, hasUser: bool)
    ensures forall inp: CoreInputs
      | inp.pagesize > 0 && |inp.threads| == nThreads && |inp.auxv| == nAuxv && inp.mappings == mappings
        && inp.notes == notes && inp.user.Some? == hasUser
      :: |Section(inp)| == SizeFrom(nThreads, nAuxv, mappings, notes, hasUser)
  {
    forall inp: CoreInputs
      | inp.pagesize > 0 && |inp.threads| == nThreads && |inp.auxv| == nAuxv && inp.mappings == mappings
        && inp.notes == notes && inp.user.Some? == hasUser
      ensures |Section(inp)| == SizeFrom(nThreads, nAuxv, mappings, notes, hasUser)
    {
      SectionLength(inp);
    }
  }

  /** `note_section_size_for`: the size from counts alone equals the bytes `write_notes` produces, for every
      input with those counts, mappings and extra notes. */
  method NoteSectionSizeFor(nThreads: nat, nAuxv: nat, mappings: seq<Mapping>, notes: seq<Note>, hasUser: bool)
    returns (sz: nat)
    ensures sz == SizeFrom(nThreads, nAuxv, mappings, notes, hasUser)
    ensures forall inp: CoreInputs
      | inp.pagesize > 0 && |inp.threads| == nThreads && |inp.auxv| == nAuxv && inp.mappings == mappings
        && inp.notes == notes && inp.user.Some? == hasUser
      :: sz == |Section(inp)|
  {
    sz := EngineNotesSize(nThreads, nAuxv, mappings, hasUser);
    ghost var base := sz;
    for i := 0 to |notes|
      invariant sz == base + |AllNotes(notes[..i])|
    {
      AllNotesSnoc(notes, i);
      sz := sz + NoteSize(|notes[i].name| + 1, |notes[i].desc|);
    }
    assert notes[..|notes|] == notes;
    SizeForEveryInput(nThreads, nAuxv, mappings, notes, hasUser);
  }

  lemma AllNotesSnoc(notes: seq<Note>, i: nat)
    requires i < |notes|
    ensures |AllNotes(notes[..i + 1])| == |AllNotes(notes[..i])| + NoteSize(|notes[i].name| + 1, |notes[i].desc|)
  {
    assert notes[..i + 1] == notes[..i] + [notes[i]];
    AllNotesConcat(notes[..i], [notes[i]]);
    AllNotesOne(notes[i]);
  }

  /** The part of the size that does not depend on extra notes. */
  method EngineNotesSize(nThreads: nat, nAuxv: nat, mappings: seq<Mapping>, hasUser: bool) returns (sz: nat)
    ensures sz == SizeFrom(nThreads, nAuxv, mappings, [], hasUser)
  {
    sz := CoreNoteSize(136);
    if hasUser {
      sz := sz + CoreNoteSize(928);
    }
    assert CoreNoteSize(336) + CoreNoteSize(512) == THREAD_NOTES;
    sz := sz + nThreads * (CoreNoteSize(336) + CoreNoteSize(512));
    if nAuxv > 0 {
      sz := sz + CoreNoteSize(nAuxv * 16);
    }
    var count, descLen := NtFileSizes(mappings, 1);
    if count > 0 {
      sz := sz + CoreNoteSize(descLen);
    }
  }
}
