/** What the notes of a dump say to a reader that knows the ABI and not the writer. */
module DumpNotes {
  import opened Bytes
  import opened Inputs
  import opened Notes
  import opened NoteReader
  import opened Serialize
  import NoteWriter

  // ---- Threads ----

  /** The thread that notes `k` and `k + 1` describe. */
  function ThreadAt(notes: seq<Note>, k: nat): Option<ThreadState> {
    if k + 1 < |notes| && IsCore(notes[k], 1) && IsCore(notes[k + 1], 2)
    then ReadThread(notes[k].desc, notes[k + 1].desc)
    else None
  }

  /** From note `base` on, the notes describe exactly the threads `ts`, in this order. */
  ghost predicate ThreadsFrom(notes: seq<Note>, base: nat, ts: seq<ThreadState>) {
    forall i | 0 <= i < |ts| :: ThreadAt(notes, base + 2 * i) == Some(ts[i])
  }

  lemma {:induction false} ThreadNotesAt(ts: seq<ThreadState>, i: nat)
    requires i < |ts|
    ensures
      var ns := AllThreadNotes(ts);
      && |ns| == 2 * |ts| && ns[2 * i] == CoreNote(NT_PRSTATUS, Prstatus(ts[i]))
      && ns[2 * i + 1] == CoreNote(NT_PRFPREG, ts[i].fpregs)
  {
    var rest := AllThreadNotes(ts[1..]);
    if i > 0 {
      ThreadNotesAt(ts[1..], i - 1);
      assert AllThreadNotes(ts)[2 * i] == rest[2 * (i - 1)];
    } else if |ts| > 1 {
      ThreadNotesAt(ts[1..], 0);
    }
  }

  lemma ThreadInMiddle(front: seq<Note>, ts: seq<ThreadState>, tail: seq<Note>, i: nat)
    requires i < |ts|
    ensures ThreadAt(front + AllThreadNotes(ts) + tail, |front| + 2 * i) == Some(ts[i])
  {
    var ns := AllThreadNotes(ts);
    ThreadNotesAt(ts, i);
    ThreadReadsBack(ts[i]);
    assert (front + ns + tail)[|front| + 2 * i] == ns[2 * i];
    assert (front + ns + tail)[|front| + (2 * i + 1)] == ns[2 * i + 1];
  }

  lemma {:induction false} ThreadNotesCount(ts: seq<ThreadState>)
    ensures |AllThreadNotes(ts)| == 2 * |ts|
  {
    if ts != [] {
      ThreadNotesCount(ts[1..]);
    }
  }

  // ---- The notes one after another ----

  /** Where the thread notes begin, and what follows them. */
  function ThreadsAt(cap: Captured): nat {
    if cap.threads == [] then 1 else 2
  }

  function AuxvAt(cap: Captured): nat {
    ThreadsAt(cap) + 2 * |cap.threads|
  }

  function ExtraAt(cap: Captured): nat {
    if cap.auxv == [] then AuxvAt(cap) else AuxvAt(cap) + 1
  }

  function FilesAt(cap: Captured, extra: seq<Note>): nat {
    ExtraAt(cap) + |extra|
  }

  /** The second note is a user area with the main thread's registers. */
  ghost predicate ShowsUser(notes: seq<Note>, cap: Captured)
    requires cap.Valid()
  {
    cap.threads != [] ==>
      var t := cap.threads[cap.mainIdx];
      1 < |notes| && IsCore(notes[1], 4) && ReadUser(notes[1].desc) == Some((t.regs, 1, t.fpregs))
  }

  /** The note after the threads holds the auxiliary vector, if there is one. */
  ghost predicate ShowsAuxv(notes: seq<Note>, cap: Captured) {
    cap.auxv != [] ==>
      && AuxvAt(cap) < |notes| && IsCore(notes[AuxvAt(cap)], 6)
      && ReadAuxv(notes[AuxvAt(cap)].desc) == Some(cap.auxv)
  }

  /** The notes up to the table of files: process, user area, threads with the main one first, auxiliary vector, and
      the caller's own, in this order and with nothing in between. */
  ghost predicate ShowsNotes(notes: seq<Note>, cap: Captured, extra: seq<Note>)
    requires cap.Valid()
  {
    && FilesAt(cap, extra) <= |notes| && IsCore(notes[0], 3) && notes[0].desc == cap.prpsinfo
    && ShowsUser(notes, cap) && ThreadsFrom(notes, ThreadsAt(cap), Rotated(cap.threads, cap.mainIdx))
    && ShowsAuxv(notes, cap) && notes[ExtraAt(cap)..FilesAt(cap, extra)] == extra
  }

  /** Among the notes that are not the caller's own there is one with an auxiliary vector if and only if there is
      something in it, in its place. */
  lemma AuxvNoteIff(notes: seq<Note>, cap: Captured, extra: seq<Note>, k: nat)
    requires cap.Valid() && ShowsNotes(notes, cap, extra) && k < ExtraAt(cap)
    ensures IsCore(notes[k], 6) <==> cap.auxv != [] && k == AuxvAt(cap)
  {
    if ThreadsAt(cap) <= k < AuxvAt(cap) {
      ThreadNoteType(notes, ThreadsAt(cap), Rotated(cap.threads, cap.mainIdx), (k - ThreadsAt(cap)) / 2);
    }
  }

  /** The two notes of a thread have types of their own. */
  lemma ThreadNoteType(notes: seq<Note>, base: nat, ts: seq<ThreadState>, i: nat)
    requires ThreadsFrom(notes, base, ts) && i < |ts|
    ensures base + 2 * i + 1 < |notes| && IsCore(notes[base + 2 * i], 1) && IsCore(notes[base + 2 * i + 1], 2)
  {
    assert ThreadAt(notes, base + 2 * i) == Some(ts[i]);
  }

  /** The list of notes in four groups. */
  lemma NoteGroups(inp: CoreInputs)
    requires inp.pagesize > 0
    ensures NoteList(inp) == [CoreNote(NT_PRPSINFO, inp.prpsinfo)] + UserNotes(inp) + AllThreadNotes(MainFirst(inp))
      + (AuxvNotes(inp) + (inp.notes + FileNotes(inp)))
  {
  }

  lemma NotesShown(inp: CoreInputs, cap: Captured)
    requires cap.Valid() && inp.pagesize > 0 && inp.prpsinfo == cap.prpsinfo && inp.threads == cap.threads
    requires inp.mainThread == cap.mainIdx && inp.auxv == cap.auxv
    requires inp.user == if cap.threads == [] then None else Some(UserArea(cap.threads[cap.mainIdx]))
    ensures ShowsNotes(NoteList(inp), cap, inp.notes) && NoteList(inp)[FilesAt(cap, inp.notes)..] == FileNotes(inp)
  {
    NoteGroups(inp);
    MainFirstIsRotation(inp);
    var front := [CoreNote(NT_PRPSINFO, inp.prpsinfo)] + UserNotes(inp);
    FrontShown(inp, cap, front);
    AuxvFits(inp, cap);
    GroupsShown(NoteList(inp), cap, front, AuxvNotes(inp), inp.notes, FileNotes(inp));
  }

  /** The notes before the threads. */
  ghost predicate FrontOf(front: seq<Note>, cap: Captured)
    requires cap.Valid()
  {
    |front| == ThreadsAt(cap) && IsCore(front[0], 3) && front[0].desc == cap.prpsinfo && ShowsUser(front, cap)
  }

  lemma FrontShown(inp: CoreInputs, cap: Captured, front: seq<Note>)
    requires cap.Valid() && front == [CoreNote(NT_PRPSINFO, inp.prpsinfo)] + UserNotes(inp)
    requires inp.prpsinfo == cap.prpsinfo
    requires inp.user == if cap.threads == [] then None else Some(UserArea(cap.threads[cap.mainIdx]))
    ensures FrontOf(front, cap)
  {
    if cap.threads != [] {
      var t := cap.threads[cap.mainIdx];
      UserReadsBack(t.regs, t.fpregs);
    }
  }

  /** The note, or none, after the threads. */
  ghost predicate AuxvOf(auxv: seq<Note>, cap: Captured) {
    if cap.auxv == [] then auxv == []
    else |auxv| == 1 && IsCore(auxv[0], 6) && ReadAuxv(auxv[0].desc) == Some(cap.auxv)
  }

  lemma AuxvFits(inp: CoreInputs, cap: Captured)
    requires inp.auxv == cap.auxv
    ensures AuxvOf(AuxvNotes(inp), cap)
  {
    AuxvReadsBack(cap.auxv);
  }

  lemma GroupsShown(notes: seq<Note>, cap: Captured, front: seq<Note>, auxv: seq<Note>, extra: seq<Note>,
                    files: seq<Note>)
    requires cap.Valid() && FrontOf(front, cap) && AuxvOf(auxv, cap)
    requires notes == front + AllThreadNotes(Rotated(cap.threads, cap.mainIdx)) + (auxv + (extra + files))
    ensures ShowsNotes(notes, cap, extra) && notes[FilesAt(cap, extra)..] == files
  {
    var ts, tail := Rotated(cap.threads, cap.mainIdx), auxv + (extra + files);
    var tns := AllThreadNotes(ts);
    ThreadNotesCount(ts);
    assert front <= notes;
    FrontKept(front, notes, cap);
    ThreadsShown(front, ts, tail);
    TailShown(front + tns, auxv, extra, files);
    AuxvKept(notes, auxv, cap);
  }

  lemma FrontKept(front: seq<Note>, notes: seq<Note>, cap: Captured)
    requires cap.Valid() && FrontOf(front, cap) && front <= notes
    ensures notes != [] && IsCore(notes[0], 3) && notes[0].desc == cap.prpsinfo && ShowsUser(notes, cap)
  {
    assert forall k | 0 <= k < |front| :: notes[k] == front[k];
  }

  lemma AuxvKept(notes: seq<Note>, auxv: seq<Note>, cap: Captured)
    requires AuxvOf(auxv, cap) && AuxvAt(cap) + |auxv| <= |notes| && notes[AuxvAt(cap)..AuxvAt(cap) + |auxv|] == auxv
    ensures ShowsAuxv(notes, cap) && AuxvAt(cap) + |auxv| == ExtraAt(cap)
  {
    assert auxv != [] ==> notes[AuxvAt(cap)] == auxv[0];
  }

  lemma ThreadsShown(front: seq<Note>, ts: seq<ThreadState>, tail: seq<Note>)
    ensures ThreadsFrom(front + AllThreadNotes(ts) + tail, |front|, ts)
  {
    forall i | 0 <= i < |ts|
      ensures ThreadAt(front + AllThreadNotes(ts) + tail, |front| + 2 * i) == Some(ts[i])
    {
      ThreadInMiddle(front, ts, tail, i);
    }
  }

  lemma TailShown(front: seq<Note>, auxv: seq<Note>, extra: seq<Note>, files: seq<Note>)
    ensures
      var notes, at := front + (auxv + (extra + files)), |front| + |auxv|;
      && notes[|front|..at] == auxv && notes[at..at + |extra|] == extra && notes[at + |extra|..] == files
  {
  }

  /** A dump shows what was captured and the caller's notes, whatever became of the mappings. */
  lemma NotesOfDump(cap: Captured, opts: Options, fs: seq<Option<Mapping>>)
    requires cap.Valid()
    ensures
      var inp := DumpInputs(cap, opts, fs);
      ShowsNotes(NoteList(inp), cap, opts.notes) && NoteList(inp)[FilesAt(cap, opts.notes)..] == FileNotes(inp)
  {
    NotesShown(DumpInputs(cap, opts, fs), cap);
  }

  // ---- The table of files ----

  ghost predicate Increasing(ks: seq<nat>) {
    forall j, k | 0 <= j < k < |ks| :: ks[j] < ks[k]
  }

  /** The row says where mapping `m` lies, where in its file it begins, in pages, and which file that is. */
  ghost predicate RowIs(row: FileEntry, m: Mapping, pagesize: nat)
    requires pagesize > 0
  {
    row.start == m.start && row.end == m.end && row.pageOffset == Quot(m.offset, pagesize) && row.name == m.name
  }

  /** The rows are those of the mappings `ks`, which are file-backed. */
  ghost predicate RowsAt(t: seq<FileEntry>, ms: seq<Mapping>, pagesize: nat, ks: seq<nat>)
    requires pagesize > 0
  {
    |ks| == |t| && forall j | 0 <= j < |t| :: ks[j] < |ms| && !ms[ks[j]].isAnon && RowIs(t[j], ms[ks[j]], pagesize)
  }

  /** No file-backed mapping is missing. */
  ghost predicate HasFiles(ms: seq<Mapping>, ks: seq<nat>) {
    forall i | 0 <= i < |ms| && !ms[i].isAnon :: i in ks
  }

  /** The rows are the file-backed ones of `ms`, in order; `ks` are their indices. */
  ghost predicate RowsOf(t: seq<FileEntry>, ms: seq<Mapping>, pagesize: nat, ks: seq<nat>)
    requires pagesize > 0
  {
    Increasing(ks) && RowsAt(t, ms, pagesize, ks) && HasFiles(ms, ks)
  }

  lemma {:induction false} FileTableRows(ms: seq<Mapping>, pagesize: nat) returns (ks: seq<nat>)
    requires pagesize > 0
    ensures RowsOf(FileTable(ms, pagesize), ms, pagesize, ks)
  {
    if ms == [] {
      ks := [];
    } else {
      var n := |ms| - 1;
      var before, m := ms[..n], ms[n];
      ks := FileTableRows(before, pagesize);
      TableEnds(before, m, pagesize);
      RowsMore(FileTable(before, pagesize), before, pagesize, ks, m);
      assert before + [m] == ms;
      ks := if m.isAnon then ks else ks + [n];
    }
  }

  lemma TableEnds(ms: seq<Mapping>, m: Mapping, pagesize: nat)
    requires pagesize > 0
    ensures FileTable(ms + [m], pagesize)
      == FileTable(ms, pagesize) + (if m.isAnon then [] else [Entry(m, pagesize)])
  {
    NoteWriter.TableSnoc(ms + [m], |ms|, pagesize);
    assert (ms + [m])[..|ms| + 1] == ms + [m] && (ms + [m])[..|ms|] == ms;
  }

  lemma RowsMore(t: seq<FileEntry>, ms: seq<Mapping>, pagesize: nat, ks: seq<nat>, m: Mapping)
    requires pagesize > 0 && RowsOf(t, ms, pagesize, ks)
    ensures m.isAnon ==> RowsOf(t + [], ms + [m], pagesize, ks) && t + [] == t
    ensures !m.isAnon ==> RowsOf(t + [Entry(m, pagesize)], ms + [m], pagesize, ks + [|ms|])
  {
    RowsStay(t, ms, pagesize, ks, m);
    if m.isAnon {
      assert t + [] == t;
    } else {
      FilesMore(ms, ks, m);
      RowsThen(t, ms + [m], pagesize, ks, Entry(m, pagesize), |ms|);
    }
  }

  lemma RowsStay(t: seq<FileEntry>, ms: seq<Mapping>, pagesize: nat, ks: seq<nat>, m: Mapping)
    requires pagesize > 0 && RowsOf(t, ms, pagesize, ks)
    ensures RowsAt(t, ms + [m], pagesize, ks) && (m.isAnon ==> HasFiles(ms + [m], ks))
  {
  }

  lemma FilesMore(ms: seq<Mapping>, ks: seq<nat>, m: Mapping)
    requires HasFiles(ms, ks)
    ensures HasFiles(ms + [m], ks + [|ms|])
  {
    forall i | 0 <= i < |ms| + 1 && !(ms + [m])[i].isAnon
      ensures i in ks + [|ms|]
    {
      if i < |ms| {
        assert !ms[i].isAnon;
      }
    }
  }

  lemma RowsThen(t: seq<FileEntry>, ms: seq<Mapping>, pagesize: nat, ks: seq<nat>, row: FileEntry, k: nat)
    requires pagesize > 0 && RowsAt(t, ms, pagesize, ks) && Increasing(ks) && forall j | 0 <= j < |ks| :: ks[j] < k
    requires k < |ms| && !ms[k].isAnon && RowIs(row, ms[k], pagesize)
    ensures RowsAt(t + [row], ms, pagesize, ks + [k]) && Increasing(ks + [k])
  {
  }

  /** Reading the table back from the note that holds it, if there is one. */
  ghost predicate HoldsTable(files: seq<Note>, pagesize: nat, rows: seq<FileEntry>) {
    if rows == [] then files == []
    else |files| == 1 && IsCore(files[0], 0x46494c45) && ReadFileDesc(files[0].desc) == Some((pagesize, rows))
  }

  lemma FileNotesHold(inp: CoreInputs)
    requires 0 < inp.pagesize && |inp.mappings| < U64 && forall m | m in inp.mappings :: NulFree(m.name)
    ensures HoldsTable(FileNotes(inp), inp.pagesize, FileTable(inp.mappings, inp.pagesize))
  {
    var t := FileTable(inp.mappings, inp.pagesize);
    TableNames(inp.mappings, inp.pagesize);
    FileDescRoundTrip(t, inp.pagesize);
  }

  lemma {:induction false} TableNames(ms: seq<Mapping>, pagesize: nat)
    requires pagesize > 0 && forall m | m in ms :: NulFree(m.name)
    ensures |FileTable(ms, pagesize)| <= |ms|
    ensures forall e | e in FileTable(ms, pagesize) :: NulFree(e.name)
  {
    if ms != [] {
      TableNames(ms[1..], pagesize);
    }
  }

  // ---- The page size ----

  function Pow2(k: nat): nat {
    if k == 0 then 1 else 2 * Pow2(k - 1)
  }

  lemma {:induction false} PowerOfTwoIff(n: nat)
    ensures PowerOfTwo(n) <==> exists k :: n == Pow2(k)
  {
    if PowerOfTwo(n) {
      var k := Exponent(n);
    }
    if k :| n == Pow2(k) {
      PowersAre(k);
    }
  }

  lemma {:induction false} Exponent(n: nat) returns (k: nat)
    requires PowerOfTwo(n)
    ensures n == Pow2(k)
  {
    if n == 1 {
      k := 0;
    } else {
      k := Exponent(n / 2);
      k := k + 1;
    }
  }

  lemma {:induction false} PowersAre(k: nat)
    ensures PowerOfTwo(Pow2(k)) && Pow2(k) > 0
  {
    if k > 0 {
      PowersAre(k - 1);
      assert Pow2(k) / 2 == Pow2(k - 1);
    }
  }

  lemma {:induction false} FirstEntry(auxv: seq<Auxv>, i: nat)
    requires i < |auxv| && auxv[i].aType == 6 && forall j | 0 <= j < i :: auxv[j].aType != 6
    ensures AuxPageSize(auxv) == Some(auxv[i].aVal)
  {
    if i > 0 {
      assert auxv[0].aType != 6;
      FirstEntry(auxv[1..], i - 1);
    }
  }

  lemma {:induction false} NoEntry(auxv: seq<Auxv>)
    requires forall j | 0 <= j < |auxv| :: auxv[j].aType != 6
    ensures AuxPageSize(auxv) == None
  {
    if auxv != [] {
      assert auxv[0].aType != 6;
      NoEntry(auxv[1..]);
    }
  }

  /** The page size is the value of the first entry of type 6 if that is a power of two, and otherwise 4096. */
  lemma PageSizeIs(auxv: seq<Auxv>, i: nat)
    requires i < |auxv| && auxv[i].aType == 6 && forall j | 0 <= j < i :: auxv[j].aType != 6
    ensures PageSizeOf(auxv) == if (exists k :: auxv[i].aVal == Pow2(k)) then auxv[i].aVal else 4096
  {
    FirstEntry(auxv, i);
    PowerOfTwoIff(auxv[i].aVal);
  }

  lemma PageSizeWithoutEntry(auxv: seq<Auxv>)
    requires forall j | 0 <= j < |auxv| :: auxv[j].aType != 6
    ensures PageSizeOf(auxv) == 4096
  {
    NoEntry(auxv);
  }
}
