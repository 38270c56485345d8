/** Reading note payloads back: the thread notes and the NT_FILE table. */
module NoteReader {
  import opened Bytes
  import opened Inputs
  import opened Notes

  // The reader knows types, sizes and offsets by their numbers in the Linux ABI, not by the names the writer uses.

  /** A note of type `ntype` and name "CORE". */
  predicate IsCore(note: Note, ntype: nat) {
    note.name == [0x43, 0x4f, 0x52, 0x45] && note.ntype == ntype
  }

  // ---- Threads ----

  /** The thread described by a PRSTATUS and PRFPREG pair; all else in the first must be zero. */
  function ReadThread(status: seq<byte>, fp: seq<byte>): Option<ThreadState> {
    if |status| != 336 || |fp| != 512 then None else
    if !AllZero(status[..32]) || !AllZero(status[36..112]) || !AllZero(status[328..]) then None else
    var pid := Word(status, 32, 4);
    if pid >= U32 then None
    else Some(ThreadState(if pid < 0x8000_0000 then pid else pid - U32, status[112..328], fp))
  }

  lemma ThreadReadsBack(t: ThreadState)
    ensures ReadThread(Prstatus(t), t.fpregs) == Some(t)
  {
    var s := Prstatus(t);
    var pid := Le(Signed(t.pid), 4);
    assert s[32..36] == pid;
    assert s[112..328] == t.regs;
    assert s[..32] == Zeros(32) && s[36..112] == Zeros(76) && s[328..] == Zeros(8);
    WordSizes();
    WordAt(s, 32, Signed(t.pid), 4);
  }

  /** Integer registers, valid flag and FP registers of an NT_PRXREG payload that is zero otherwise. */
  function ReadUser(desc: seq<byte>): Option<(seq<byte>, nat, seq<byte>)> {
    if |desc| != 928 || !AllZero(desc[736..]) then None
    else Some((desc[..216], Word(desc, 216, 8), desc[224..736]))
  }

  lemma UserReadsBack(regs: Regs, fpregs: FpRegs)
    ensures ReadUser(regs + Le(1, 8) + fpregs + Zeros(192)) == Some((regs, 1, fpregs))
  {
    var s := regs + Le(1, 8) + fpregs + Zeros(192);
    FourFields(regs, Le(1, 8), fpregs, Zeros(192));
    WordSizes();
    WordRoundTrip(1, 8);
  }

  lemma FourFields(a: seq<byte>, b: seq<byte>, c: seq<byte>, d: seq<byte>)
    ensures
      var s, i, j, k := a + b + c + d, |a|, |a| + |b|, |a| + |b| + |c|;
      s[..i] == a && s[i..j] == b && s[j..k] == c && s[k..] == d
  {
  }

  // ---- The auxiliary vector ----

  /** The entries of an NT_AUXV payload, with nothing left over. */
  function ReadAuxv(desc: seq<byte>): Option<seq<Auxv>> {
    if desc == [] then Some([]) else
    if |desc| < 16 then None else
    var aType, aVal := Word(desc, 0, 8), Word(desc, 8, 8);
    if aType >= U64 || aVal >= U64 then None else
    var rest := ReadAuxv(desc[16..]);
    if rest.None? then None else Some([Auxv(aType, aVal)] + rest.value)
  }

  lemma EntryReadsBack(e: Auxv, rest: seq<byte>)
    ensures
      var s := Le(e.aType, 8) + Le(e.aVal, 8) + rest;
      Word(s, 0, 8) == e.aType && Word(s, 8, 8) == e.aVal && s[16..] == rest
  {
    var s := Le(e.aType, 8) + Le(e.aVal, 8) + rest;
    assert s[..8] == Le(e.aType, 8) && s[8..16] == Le(e.aVal, 8);
    WordSizes();
    WordAt(s, 0, e.aType, 8);
    WordAt(s, 8, e.aVal, 8);
  }

  /** The auxiliary vector is read back entry by entry: type, then value. */
  lemma {:induction false} AuxvReadsBack(auxv: seq<Auxv>)
    ensures ReadAuxv(AuxvBytes(auxv)) == Some(auxv)
  {
    if auxv != [] {
      EntryReadsBack(auxv[0], AuxvBytes(auxv[1..]));
      AuxvReadsBack(auxv[1..]);
      assert [auxv[0]] + auxv[1..] == auxv;
    }
  }

  /** Number `main` of the threads, then the others in order. */
  function Rotated(ts: seq<ThreadState>, main: nat): seq<ThreadState>
    requires ts != [] ==> main < |ts|
  {
    if ts == [] then [] else [ts[main]] + ts[..main] + ts[main + 1..]
  }

  /** Each captured thread is dumped exactly once, the main one first and the rest in capture order. */
  lemma MainFirstIsRotation(inp: CoreInputs)
    requires inp.threads != [] ==> inp.mainThread < |inp.threads|
    ensures MainFirst(inp) == Rotated(inp.threads, inp.mainThread)
    ensures multiset(MainFirst(inp)) == multiset(inp.threads)
  {
    var ts, main := inp.threads, inp.mainThread;
    assert ts != [] ==> ts == ts[..main] + [ts[main]] + ts[main + 1..];
  }

  // ---- NT_FILE ----

  /** The NUL-terminated string at the front of `s`, without its NUL. */
  function ReadName(s: seq<byte>): (r: Option<seq<byte>>)
    ensures r.Some? ==> |r.value| < |s|
  {
    if s == [] then None else
    if s[0] == 0 then Some([]) else
    var rest := ReadName(s[1..]);
    if rest.None? then None else Some([s[0]] + rest.value)
  }

  /** Rows `triples` and names `names`, `n` of each with nothing left over. */
  function ReadTable(triples: seq<byte>, names: seq<byte>, n: nat): Option<seq<FileEntry>> {
    if n == 0 then (if triples == [] && names == [] then Some([]) else None) else
    if |triples| < 24 then None else
    var a, b, c := Word(triples, 0, 8), Word(triples, 8, 8), Word(triples, 16, 8);
    var name := ReadName(names);
    if name.None? || a >= U64 || b >= U64
       || c >= U64 then None else
    var rest := ReadTable(triples[24..], names[|name.value| + 1..], n - 1);
    if rest.None? then None else Some([FileEntry(a, b, c, name.value)] + rest.value)
  }

  /** The page size and the rows of an NT_FILE descriptor. */
  function ReadFileDesc(desc: seq<byte>): Option<(nat, seq<FileEntry>)> {
    if |desc| < 16 then None else
    var n := Word(desc, 0, 8);
    if 16 + 24 * n > |desc| then None else
    var t := ReadTable(desc[16..16 + 24 * n], desc[16 + 24 * n..], n);
    if t.None? then None else Some((Word(desc, 8, 8), t.value))
  }

  predicate NulFree(name: seq<byte>) {
    0 !in name
  }

  lemma {:induction false} NameReadsBack(name: seq<byte>, rest: seq<byte>)
    requires NulFree(name)
    ensures ReadName(name + [0] + rest) == Some(name)
  {
    var s := name + [0] + rest;
    if name != [] {
      assert s[1..] == name[1..] + [0] + rest;
      NameReadsBack(name[1..], rest);
      assert [name[0]] + name[1..] == name;
    }
  }

  lemma TripleReadsBack(e: FileEntry, rest: seq<byte>)
    ensures
      var s := Triple(e) + rest;
      Word(s, 0, 8) == e.start && Word(s, 8, 8) == e.end && Word(s, 16, 8) == e.pageOffset
  {
    var s := Triple(e) + rest;
    var a, b, c := Le(e.start, 8), Le(e.end, 8), Le(e.pageOffset, 8);
    assert At(s, 0, a + b + c);
    AtPart(s, 0, a + b, c);
    AtPart(s, 0, a, b);
    WordSizes();
    WordAt(s, 0, e.start, 8);
    WordAt(s, 8, e.end, 8);
    WordAt(s, 16, e.pageOffset, 8);
  }

  lemma {:induction false} TableReadsBack(t: seq<FileEntry>)
    requires forall e | e in t :: NulFree(e.name)
    ensures ReadTable(Triples(t), Names(t), |t|) == Some(t)
  {
    if t != [] {
      var triples, names := Triples(t[1..]), Names(t[1..]);
      TripleReadsBack(t[0], triples);
      NameReadsBack(t[0].name, names);
      assert (Triple(t[0]) + triples)[24..] == triples;
      assert (t[0].name + [0] + names)[|t[0].name| + 1..] == names;
      TableReadsBack(t[1..]);
      assert [t[0]] + t[1..] == t;
    }
  }

  /** The NT_FILE descriptor decodes to the file-backed mappings it was built from. */
  lemma FileDescRoundTrip(t: seq<FileEntry>, pagesize: usize)
    requires |t| < U64 && forall e | e in t :: NulFree(e.name)
    ensures ReadFileDesc(FileDesc(t, pagesize)) == Some((pagesize as nat, t))
  {
    var desc := FileDesc(t, pagesize);
    var n, p, ts := Le(|t|, 8), Le(pagesize, 8), Triples(t);
    assert desc == n + p + (ts + Names(t));
    AtPart(desc, 0, n, p);
    WordSizes();
    WordAt(desc, 0, |t|, 8);
    WordAt(desc, 8, pagesize, 8);
    assert desc[16..16 + 24 * |t|] == ts;
    assert desc[16 + 24 * |t|..] == Names(t);
    TableReadsBack(t);
  }
}
