/** Where segments lie in the file, relative to where they lie in memory. */
module Alignment {
  import opened Bytes
  import opened Inputs
  import opened CoreFile
  import opened Limiter
  import opened Pages
  import opened Mappings
  import opened Serialize
  import CoreWriter

  /** gABI chapter 5, "Program Header": offset and address are congruent modulo the alignment. */
  predicate Congruent(p: Phdr)
    requires p.align > 0
  {
    Rem(p.offset, p.align) == Rem(p.vaddr, p.align)
  }

  predicate Aligned(ms: seq<Mapping>, pagesize: nat)
    requires pagesize > 0
  {
    forall i | 0 <= i < |ms| :: Multiple(ms[i].start, pagesize)
  }

  predicate AllMultiples(ws: seq<nat>, d: nat)
    requires d > 0
  {
    forall i | 0 <= i < |ws| :: Multiple(ws[i], d)
  }

  /** A segment starts where the ones before it end. */
  lemma LoadAt(ms: seq<Mapping>, offset: nat, pagesize: nat, i: nat)
    requires (forall m | m in ms :: m.start <= m.end) && i < |ms|
    ensures LoadPhdrs(ms, offset, pagesize)[i] == LoadPhdr(ms[i], offset + Sum(Sizes(ms)[..i]), pagesize)
  {
    CoreWriter.LoadPhdrAt(ms, offset, pagesize, i);
    TotalIsSum(ms[..i]);
    assert Sizes(ms[..i]) == Sizes(ms)[..i];
  }

  lemma SumOfMultiples(ws: seq<nat>, d: nat)
    requires d > 0 && AllMultiples(ws, d)
    ensures Multiple(Sum(ws), d)
  {
    if ws != [] {
      SumOfMultiples(ws[1..], d);
      RemPlus(ws[0], Sum(ws[1..]), d);
    }
  }

  /** If all sizes but the one at `k` are multiples, the total is off by what that one is off by. */
  lemma {:induction false} SumOffByOne(ws: seq<nat>, k: nat, d: nat)
    requires d > 0 && k < |ws| && forall i | 0 <= i < |ws| && i != k :: Multiple(ws[i], d)
    ensures Rem(Sum(ws), d) == Rem(ws[k], d)
  {
    if k == 0 {
      SumOfMultiples(ws[1..], d);
      RemPlus(Sum(ws[1..]), ws[0], d);
    } else {
      SumOffByOne(ws[1..], k - 1, d);
      RemPlus(ws[0], Sum(ws[1..]), d);
    }
  }

  /** The segments begin on a page of the file. */
  lemma FirstOffsetAligned(inp: CoreInputs)
    requires inp.pagesize > 0
    ensures Multiple(FirstOffset(inp), inp.pagesize)
  {
    GapFills(NotesEnd(inp), inp.pagesize);
  }

  lemma {:induction false} GapFills(n: nat, d: nat)
    requires d > 0
    ensures Multiple(n + PageGap(n, d), d)
  {
    if n >= d {
      GapFills(n - d, d);
    } else {
      assert Rem(d, d) == Rem(0, d) == 0;
    }
  }

  /** Segment `i` of the core is aligned to pages, and congruent. */
  predicate CongruentAt(inp: CoreInputs, i: nat)
    requires Valid(inp) && i < |inp.mappings|
  {
    var p := LoadPhdrs(inp.mappings, FirstOffset(inp), inp.pagesize)[i];
    p.align == inp.pagesize && Congruent(p)
  }

  /** A segment is congruent exactly when the sizes before it add up to whole pages. */
  lemma CongruentIff(inp: CoreInputs, i: nat)
    requires Valid(inp) && Aligned(inp.mappings, inp.pagesize) && i < |inp.mappings|
    ensures CongruentAt(inp, i) <==> Multiple(Sum(Sizes(inp.mappings)[..i]), inp.pagesize)
  {
    LoadAt(inp.mappings, FirstOffset(inp), inp.pagesize, i);
    FirstOffsetAligned(inp);
    RemPlus(FirstOffset(inp), Sum(Sizes(inp.mappings)[..i]), inp.pagesize);
  }

  /** Without trimming every segment is congruent. */
  lemma UntrimmedCongruent(inp: CoreInputs, i: nat)
    requires Valid(inp) && Aligned(inp.mappings, inp.pagesize) && i < |inp.mappings|
    requires AllMultiples(Sizes(inp.mappings), inp.pagesize)
    ensures CongruentAt(inp, i)
  {
    CongruentIff(inp, i);
    SumOfMultiples(Sizes(inp.mappings)[..i], inp.pagesize);
  }

  // ---- After priority limiting ----

  /** The sizes that go before segment `k`, and zero in place of the others. */
  function Earlier(ws: seq<nat>, k: nat): (r: seq<nat>)
    requires k < |ws|
    ensures |r| == |ws|
  {
    seq<nat>(|ws|, j requires 0 <= j < |ws| => if Before(ws, j, k) then ws[j] else 0)
  }

  /** Giving up `need` bytes largest first ends in segment `k`: all that go before it are not enough, and with it they
      are. */
  predicate EndsAt(ws: seq<nat>, need: nat, k: nat) {
    k < |ws| && Sum(Earlier(ws, k)) < need <= Sum(Earlier(ws, k)) + ws[k]
  }

  predicate EndsFrom(ws: seq<nat>, need: nat, i: nat) {
    exists k | i <= k < |ws| :: EndsAt(ws, need, k)
  }

  /** Segments that go before another take up their whole size before it. */
  lemma EarlierGrows(ws: seq<nat>, j: nat, k: nat)
    requires j < |ws| && k < |ws| && Before(ws, j, k)
    ensures Sum(Earlier(ws, j)) + ws[j] <= Sum(Earlier(ws, k))
  {
    var a := Earlier(ws, j);
    SumUpdate(a, j, ws[j]);
    SumLeq(a[j := ws[j]], Earlier(ws, k));
  }

  lemma EndsOnce(ws: seq<nat>, need: nat, j: nat, k: nat)
    requires EndsAt(ws, need, j) && EndsAt(ws, need, k)
    ensures j == k
  {
    if Before(ws, j, k) {
      EarlierGrows(ws, j, k);
    } else if Before(ws, k, j) {
      EarlierGrows(ws, k, j);
    }
  }

  lemma EndsFromIs(ws: seq<nat>, need: nat, k: nat, i: nat)
    requires EndsAt(ws, need, k)
    ensures EndsFrom(ws, need, i) <==> i <= k
  {
    forall j | i <= j < |ws| && EndsAt(ws, need, j)
      ensures j == k
    {
      EndsOnce(ws, need, j, k);
    }
  }

  /** The trimmed segment that goes last, if any is trimmed. */
  lemma {:induction false} LastTrimmed(ws: seq<nat>, r: seq<nat>, n: nat) returns (last: Option<nat>)
    requires |r| == |ws| && n <= |ws|
    ensures last.None? ==> forall j | 0 <= j < n :: r[j] >= ws[j]
    ensures last.Some? ==>
      && last.value < n && r[last.value] < ws[last.value]
      && forall j | 0 <= j < n && r[j] < ws[j] && j != last.value :: Before(ws, j, last.value)
  {
    last := None;
    if n > 0 {
      last := LastTrimmed(ws, r, n - 1);
      if r[n - 1] < ws[n - 1] && (last.None? || Before(ws, last.value, n - 1)) {
        last := Some(n - 1);
      }
    }
  }

  /** What a largest-first trim looks like: gone before `k`, whole after it. */
  ghost predicate TrimmedAt(ws: seq<nat>, r: seq<nat>, k: nat) {
    && |r| == |ws| && k < |ws| && r[k] < ws[k]
    && forall j | 0 <= j < |ws| && j != k :: r[j] == if Before(ws, j, k) then 0 else ws[j]
  }

  lemma {:induction false} LostBytes(ws: seq<nat>, e: seq<nat>, r: seq<nat>)
    requires |ws| == |e| == |r| && forall j | 0 <= j < |ws| :: e[j] + r[j] == ws[j]
    ensures Sum(e) + Sum(r) == Sum(ws)
  {
    if ws != [] {
      LostBytes(ws[1..], e[1..], r[1..]);
    }
  }

  lemma TrimmedAtEnds(ws: seq<nat>, r: seq<nat>, k: nat)
    requires TrimmedAt(ws, r, k)
    ensures Sum(r) < Sum(ws) && EndsAt(ws, Sum(ws) - Sum(r), k)
  {
    var e := Earlier(ws, k);
    var lost := e[k := ws[k] - r[k]];
    SumUpdate(e, k, ws[k] - r[k]);
    LostBytes(ws, lost, r);
  }

  /** Trimming to a limit between the headers and the whole ends in exactly one segment, which `ws` and the bytes to
      give up determine; those before it are gone, those after it whole, and the sum is what the limit leaves. */
  lemma TrimShape(ws: seq<nat>, limit: nat, header: nat) returns (k: nat)
    requires header < limit < header + Sum(ws)
    ensures EndsAt(ws, header + Sum(ws) - limit, k)
    ensures TrimmedAt(ws, Trim(ws, limit, header), k) && Sum(Trim(ws, limit, header)) == limit - header
  {
    var r := Trim(ws, limit, header);
    TrimTotal(ws, limit, header);
    TrimLargestFirst(ws, limit, header);
    var last := LastTrimmed(ws, r, |ws|);
    if last.None? {
      SumLeq(ws, r);
    }
    k := last.value;
    TrimmedAtEnds(ws, r, k);
  }

  /** The sizes before segment `i` add up to whole pages exactly when the trim ends at `i` or later, or by luck. */
  lemma TrimmedPrefix(ws: seq<nat>, r: seq<nat>, k: nat, d: nat, i: nat)
    requires d > 0 && TrimmedAt(ws, r, k) && AllMultiples(ws, d) && i <= |ws|
    ensures Multiple(Sum(r[..i]), d) <==> i <= k || Multiple(Sum(r), d)
  {
    forall j | 0 <= j < |ws| && j != k
      ensures Multiple(r[j], d)
    {
      assert Multiple(0, d) && Multiple(ws[j], d);
    }
    SumOffByOne(r, k, d);
    if i <= k {
      SumOfMultiples(r[..i], d);
    } else {
      SumOffByOne(r[..i], k, d);
    }
  }

  lemma AllGone(ws: seq<nat>, limit: nat, header: nat)
    requires limit <= header && limit < header + Sum(ws)
    ensures forall i | 0 <= i < |ws| :: |Trim(ws, limit, header)| == |ws| && Trim(ws, limit, header)[i] == 0
  {
    TrimTotal(ws, limit, header);
    SumZero(Trim(ws, limit, header));
  }

  lemma {:induction false} SumZero(ws: seq<nat>)
    requires Sum(ws) == 0
    ensures forall i | 0 <= i < |ws| :: ws[i] == 0
  {
    if ws != [] {
      SumZero(ws[1..]);
      forall i | 0 <= i < |ws|
        ensures ws[i] == 0
      {
        if i > 0 {
          assert ws[i] == ws[1..][i - 1];
        }
      }
    }
  }

  /** Trimming is harmless to alignment when nothing or everything has to go, or when the bytes the limit leaves for
      segments are whole pages. */
  predicate HarmlessLimit(ws: seq<nat>, limit: nat, header: nat, pagesize: nat)
    requires pagesize > 0
  {
    header + Sum(ws) <= limit || limit <= header || Multiple(limit - header, pagesize)
  }

  /** After priority limiting segment `i` is congruent if and only if the limit is harmless or the bytes to give up are
      used up at `i` or a later segment. The condition speaks of sizes, limit and header only. */
  lemma TrimmedCongruent(inp: CoreInputs, limit: nat, header: nat, i: nat)
    requires Valid(inp) && Aligned(inp.mappings, inp.pagesize) && i < |inp.mappings|
    requires AllMultiples(Sizes(inp.mappings), inp.pagesize)
    ensures
      var out := inp.(mappings := Limited(inp.mappings, limit, header));
      Valid(out) && (CongruentAt(out, i) <==> InStep(Sizes(inp.mappings), limit, header, inp.pagesize, i))
  {
    var ms := Limited(inp.mappings, limit, header);
    LimitedOffsets(inp, limit, header);
    LimitedAligned(inp.mappings, limit, header, inp.pagesize);
    CongruentIff(inp.(mappings := ms), i);
    TrimPrefix(Sizes(inp.mappings), limit, header, inp.pagesize, i);
  }

  predicate InStep(ws: seq<nat>, limit: nat, header: nat, pagesize: nat, i: nat)
    requires pagesize > 0
  {
    HarmlessLimit(ws, limit, header, pagesize) || EndsFrom(ws, header + Sum(ws) - limit, i)
  }

  lemma LimitedAligned(ms: seq<Mapping>, limit: nat, header: nat, pagesize: nat)
    requires pagesize > 0 && Aligned(ms, pagesize)
    ensures Aligned(Limited(ms, limit, header), pagesize)
    ensures Sizes(Limited(ms, limit, header)) == Trim(Sizes(ms), limit, header)
  {
    LimitedShape(ms, limit, header);
    var now := Limited(ms, limit, header);
    forall i | 0 <= i < |now|
      ensures Multiple(now[i].start, pagesize)
    {
      assert now[i] == ms[i].(writeSize := now[i].writeSize);
    }
  }

  lemma TrimPrefix(ws: seq<nat>, limit: nat, header: nat, d: nat, i: nat)
    requires d > 0 && AllMultiples(ws, d) && i <= |ws|
    ensures |Trim(ws, limit, header)| == |ws|
    ensures Multiple(Sum(Trim(ws, limit, header)[..i]), d) <==> InStep(ws, limit, header, d, i)
  {
    var r := Trim(ws, limit, header);
    TrimTotal(ws, limit, header);
    if header + Sum(ws) <= limit {
      SumOfMultiples(ws[..i], d);
    } else if limit <= header {
      AllGone(ws, limit, header);
      assert Multiple(0, d);
      SumOfMultiples(r[..i], d);
    } else {
      var need := header + Sum(ws) - limit;
      var k := TrimShape(ws, limit, header);
      TrimmedPrefix(ws, r, k, d, i);
      EndsFromIs(ws, need, k, i);
    }
  }

  /** Two pages and then one, with room for one page and one byte: the first segment keeps one byte, and the second is
      out of step. */
  lemma TrimmingMisaligns(header: nat)
    ensures exists inp: CoreInputs, limit: nat ::
      && Valid(inp) && Aligned(inp.mappings, inp.pagesize) && AllMultiples(Sizes(inp.mappings), inp.pagesize)
      && |inp.mappings| == 2
      && var out := inp.(mappings := Limited(inp.mappings, limit, header));
      && Valid(out) && !CongruentAt(out, 1)
  {
    var big := Mapping(0x1000, 0x3000, 0, 6, true, 0x2000, false, false, false, []);
    var small := Mapping(0x4000, 0x5000, 0, 6, true, 0x1000, false, false, false, []);
    var inp := CoreInputs(Zeros(136), [], 0, [], [big, small], 4096, [], None);
    var ws, limit := Sizes(inp.mappings), header + 4097;
    assert ws == [0x2000, 0x1000];
    SumOfTwo(ws);
    PageMultiples();
    assert Sum(Earlier(ws, 0)) == 0 by {
      AllZeroSum(Earlier(ws, 0));
    }
    TrimmedCongruent(inp, limit, header, 1);
    EndsFromIs(ws, header + Sum(ws) - limit, 0, 1);
  }

  lemma SumOfTwo(ws: seq<nat>)
    requires |ws| == 2
    ensures Sum(ws) == ws[0] + ws[1]
  {
    assert Sum(ws[1..]) == ws[1] + Sum(ws[1..][1..]);
  }

  lemma PageMultiples()
    ensures Multiple(0x1000, 4096) && Multiple(0x2000, 4096) && Multiple(0x4000, 4096) && !Multiple(4097, 4096)
  {
    RemPlus(0x1000, 0x1000, 4096);
    RemPlus(0x2000, 0x2000, 4096);
    RemPlus(0x1000, 1, 4096);
  }

  /** The mappings finalization keeps meet these premises whenever the kernel lists aligned whole pages. */
  lemma KeptAligned(ms: seq<Mapping>, fs: seq<Option<Mapping>>, mem: Memory, owned: nat -> bool, pagesize: usize,
                    exact: bool)
    requires pagesize > 0 && AllWhole(ms, pagesize) && Aligned(ms, pagesize)
    requires Outcomes(ms, fs, mem, owned, pagesize, exact)
    ensures Aligned(Somes(fs), pagesize) && AllMultiples(Sizes(Somes(fs)), pagesize)
  {
    KeptByIndex(fs);
    var r, ks := Somes(fs), KeptIndices(fs);
    forall j | 0 <= j < |r|
      ensures Multiple(r[j].start, pagesize) && Multiple(Sizes(r)[j], pagesize)
    {
      var m := ms[ks[j]];
      assert Settles(m, fs[ks[j]], mem, owned, pagesize, exact);
      KeptIsTail(m, fs[ks[j]], pagesize);
      RemPlus(m.start, r[j].start - m.start, pagesize);
    }
  }
}
