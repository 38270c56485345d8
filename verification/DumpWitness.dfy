/** The premises of the file-level theorems can be met, by both strategies at once. */
module DumpWitness {
  import opened Bytes
  import opened Inputs
  import opened Pages
  import opened Probe
  import opened Notes
  import opened CoreFile
  import opened RoundTrip
  import opened Mappings
  import opened Serialize
  import opened SnapshotFile
  import NoteWriter
  import L = Lister
  import S = Snapshot
  import W = ListerWitness

  const PAGE: usize := 4096

  /** One anonymous page, readable and writable. */
  function Page(): Mapping {
    Mapping(0x1000, 0x2000, 0, 15, true, 0, false, false, false, [])
  }

  function NoHints(): nat -> Hint {
    (a: nat) => Hint(false, false)
  }

  function AllOnes(): Memory {
    Memory(W.Ones(), (p: nat) => true)
  }

  function Plain(): Options {
    Options(None, false, [])
  }

  function Kept(): Mapping {
    Page().(flags := 7, writeSize := 0x1000)
  }

  /** The page is kept whole. */
  lemma OnePageKept()
    ensures WholePages(Page(), PAGE) && Finalized(Page(), AllOnes(), PAGE) == Some(Kept())
    ensures Lead(AllOnes(), 0x1000, 0x1000, PAGE) == 0 && Multiple(0, PAGE)
    ensures FinalizedBy(Page(), PAGE, 0, HasElfMagic(AllOnes(), 0x1000)) == Some(Kept())
  {
    var m, mem := Page(), AllOnes();
    RemPlus(0x1000, 0, PAGE);
    assert mem.AllReadable(0x1000, PAGE) && mem.content(0x1000) == 1;
    assert !Skippable(mem, 0x1000, PAGE);
    assert Lead(mem, 0x1000, 0x1000, PAGE) == 0;
    assert FinalizedBy(m, PAGE, 0, HasElfMagic(mem, 0x1000)) == Some(Kept());
    assert Multiple(0, PAGE);
  }

  function DumpOfPage(): Dump {
    Dump([Some(Kept())], [AllOnes().Image(0x1000, 0x1000)])
  }

  function CapturedOne(ts: seq<ThreadState>): Captured {
    Captured(Zeros(136), ts, 0, [])
  }

  lemma PageIsDumped(ts: seq<ThreadState>, owned: nat -> bool)
    requires |ts| == 1
    ensures CapturedOne(ts).Valid()
    ensures IsDump(CapturedOne(ts), Plain(), [Page()], DumpOfPage(), AllOnes(), owned, NoHints(), true)
    ensures DumpInputs(CapturedOne(ts), Plain(), DumpOfPage().fs).mappings == [Kept()]
  {
    var d, ms := DumpOfPage(), EnrichAll([Page()], NoHints());
    assert ms == [Page()];
    PageSettles(owned);
    PageStored(d, owned);
  }

  lemma PageSettles(owned: nat -> bool)
    ensures AllWhole([Page()], PAGE) && Outcomes([Page()], [Some(Kept())], AllOnes(), owned, PAGE, true)
  {
    OnePageKept();
    Settled(Page(), 0, HasElfMagic(AllOnes(), 0x1000), AllOnes(), owned, PAGE, true);
  }

  lemma PageStored(d: Dump, owned: nat -> bool)
    requires d == DumpOfPage()
    ensures Somes(d.fs) == [Kept()] && Fitting([Kept()], d.parts) && Depicts([Kept()], d.parts, AllOnes(), owned)
  {
    assert d.fs[..0] == [] && Somes(d.fs[..0]) == [];
  }

  /** Its notes and sizes fit. */
  lemma PageFits(ts: seq<ThreadState>)
    requires |ts| == 1
    ensures CapturedOne(ts).Valid() && DumpInputs(CapturedOne(ts), Plain(), DumpOfPage().fs).mappings == [Kept()]
    ensures Fits(DumpInputs(CapturedOne(ts), Plain(), DumpOfPage().fs))
  {
    PageIsDumped(ts, a => false);
    var inp := DumpInputs(CapturedOne(ts), Plain(), DumpOfPage().fs);
    NotesSmall(inp);
    assert TotalSize(inp.mappings) == 0x1000 by {
      assert inp.mappings[1..] == [];
    }
  }

  lemma NotesSmall(inp: CoreInputs)
    requires inp.pagesize == PAGE && |inp.threads| == 1 && inp.auxv == [] && inp.notes == [] && inp.mappings == [Kept()]
    ensures (forall note | note in NoteList(inp) :: NoteFits(note)) && FirstOffset(inp) < 0x1_0000
  {
    NoFileNotes(inp, PAGE);
    NoFileNotes(inp, 1);
    NoteWriter.SectionLength(inp);
    OneThread(MainFirst(inp));
  }

  lemma NoFileNotes(inp: CoreInputs, pagesize: usize)
    requires pagesize > 0 && inp.mappings == [Kept()]
    ensures FileTable(inp.mappings, pagesize) == []
  {
    var none: seq<Mapping> := [];
    assert inp.mappings[1..] == none;
  }

  lemma OneThread(ts: seq<ThreadState>)
    requires |ts| == 1
    ensures AllThreadNotes(ts) == ThreadNotes(ts[0])
  {
    var rest := ts[1..];
    assert AllThreadNotes(rest) == [] && AllThreadNotes(ts) == ThreadNotes(ts[0]) + AllThreadNotes(rest);
  }

  /** One process of one thread and one page, frozen once, dumped both ways. */
  lemma BothStrategiesHappen() returns (t1: L.State, t2: L.State, cap: Captured)
    ensures t1.me.pc.Inline? && t2.child.Child? && SameFrozen(W.Example(), t1, W.Example(), t2) && Whole(Plain())
    ensures DumpOf(W.Example(), t1, W.Ones(), AllOnes().readable, cap, Plain(), [Page()], NoHints(), DumpOfPage())
    ensures DumpOf(W.Example(), t2, W.Ones(), AllOnes().readable, cap, Plain(), [Page()], NoHints(), DumpOfPage())
  {
    t1, t2 := BothWays();
    cap := CapturedOne(t1.dump.captured);
    PageReadable(t1.dump.captured, W.Example().owned);
  }

  lemma PageReadable(ts: seq<ThreadState>, owned: nat -> bool)
    requires |ts| == 1
    ensures Readable(CapturedOne(ts), Plain(), [Page()], NoHints(), DumpOfPage(), AllOnes(), owned)
  {
    PageIsDumped(ts, owned);
    PageFits(ts);
  }

  /** One frozen process, being written in-line and by a child. */
  lemma BothWays() returns (t1: L.State, t2: L.State)
    ensures L.Reachable(W.Example(), t1) && t1.me.pc.Inline? && t1.os.mem == W.Ones()
    ensures L.Reachable(W.Example(), t2) && t2.child.Child? && t2.child.mem == W.Ones()
    ensures t1.dump == t2.dump && t1.me.pids == t2.me.pids
    ensures t1.dump.captureOk && t1.dump.allStopped && |t1.dump.captured| == 1
  {
    var c := W.Example();
    var s := W.AboutToFork(0);
    S.SnapshotParts(c, s);
    t1 := W.Reach(c, s, L.Callback(L.ForkFails));
    t2 := W.Reach(c, s, L.Callback(L.Fork(7)));
  }
}
