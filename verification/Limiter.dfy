/** Fitting a core into a byte limit by shrinking the largest segments first. */
module Limiter {
  import opened Bytes
  import opened Inputs

  function Sum(ws: seq<nat>): nat {
    if ws == [] then 0 else ws[0] + Sum(ws[1..])
  }

  /** The first index of a largest element among the first `i`. */
  function LargestTo(ws: seq<nat>, i: nat): (li: nat)
    requires 0 < i <= |ws|
    ensures li < i
    ensures forall j | 0 <= j < i :: ws[j] <= ws[li]
    ensures forall j | 0 <= j < li :: ws[j] < ws[li]
  {
    if i == 1 then 0 else
    var li := LargestTo(ws, i - 1);
    if ws[li] < ws[i - 1] then i - 1 else li
  }

  function Largest(ws: seq<nat>): (li: nat)
    requires ws != []
    ensures li < |ws|
    ensures forall j | 0 <= j < |ws| :: ws[j] <= ws[li]
    ensures forall j | 0 <= j < li :: ws[j] < ws[li]
  {
    LargestTo(ws, |ws|)
  }

  lemma SumUpdate(ws: seq<nat>, i: nat, v: nat)
    requires i < |ws|
    ensures Sum(ws[i := v]) == Sum(ws) - ws[i] + v && ws[i] <= Sum(ws)
  {
    if i > 0 {
      SumUpdate(ws[1..], i - 1, v);
      assert ws[i := v][1..] == ws[1..][i - 1 := v];
    } else {
      assert ws[i := v][1..] == ws[1..];
    }
  }

  /** One step of the limiter: the first largest segment gives up what is still needed, or everything. */
  function Shrink(ws: seq<nat>, need: nat): seq<nat>
    requires ws != []
  {
    var li := Largest(ws);
    ws[li := if need > ws[li] then 0 else ws[li] - need]
  }

  predicate Settled(ws: seq<nat>, limit: nat, header: nat) {
    ws == [] || header + Sum(ws) <= limit || ws[Largest(ws)] == 0
  }

  lemma ShrinkSum(ws: seq<nat>, need: nat)
    requires ws != [] && ws[Largest(ws)] > 0 && need > 0
    ensures Sum(Shrink(ws, need)) == Sum(ws) - Min(need, ws[Largest(ws)])
    ensures ws[Largest(ws)] <= Sum(ws)
  {
    var li := Largest(ws);
    SumUpdate(ws, li, if need > ws[li] then 0 else ws[li] - need);
  }

  /** The segment sizes after limiting. */
  function Trim(ws: seq<nat>, limit: nat, header: nat): seq<nat>
    decreases Sum(ws)
  {
    if Settled(ws, limit, header) then ws else
    ShrinkSum(ws, header + Sum(ws) - limit);
    Trim(Shrink(ws, header + Sum(ws) - limit), limit, header)
  }

  lemma AllZeroSum(ws: seq<nat>)
    requires forall i | 0 <= i < |ws| :: ws[i] == 0
    ensures Sum(ws) == 0
  {
  }

  /** The limited total is the old one if that fits, and otherwise exactly the limit, or the headers alone if even
      those do not fit. No size grows. */
  lemma {:induction false} TrimTotal(ws: seq<nat>, limit: nat, header: nat)
    ensures
      var r := Trim(ws, limit, header);
      && |r| == |ws| && (forall i | 0 <= i < |ws| :: r[i] <= ws[i])
      && header + Sum(r) == (if header + Sum(ws) <= limit then header + Sum(ws) else Max(limit, header))
      && (header + Sum(ws) <= limit ==> r == ws)
    decreases Sum(ws)
  {
    if Settled(ws, limit, header) {
      SettledTotal(ws, limit, header);
    } else {
      var need := header + Sum(ws) - limit;
      ShrinkSum(ws, need);
      ShrinkDown(ws, need);
      TrimTotal(Shrink(ws, need), limit, header);
    }
  }

  lemma SettledTotal(ws: seq<nat>, limit: nat, header: nat)
    requires Settled(ws, limit, header)
    ensures header + Sum(ws) <= limit || Sum(ws) == 0
  {
    if ws != [] && header + Sum(ws) > limit {
      AllZeroSum(ws);
    }
  }

  lemma ShrinkDown(ws: seq<nat>, need: nat)
    requires ws != []
    ensures |Shrink(ws, need)| == |ws| && forall i | 0 <= i < |ws| :: Shrink(ws, need)[i] <= ws[i]
  {
  }

  /** `j` goes before `i`: it is larger, or as large and earlier. */
  predicate Before(ws: seq<nat>, j: nat, i: nat)
    requires j < |ws| && i < |ws|
  {
    ws[j] > ws[i] || (ws[j] == ws[i] && j < i)
  }

  /** Nothing is trimmed until everything before it is gone. */
  ghost predicate LargestFirst(ws: seq<nat>, r: seq<nat>)
    requires |r| == |ws|
  {
    forall i, j | 0 <= i < |ws| && 0 <= j < |ws| && r[i] < ws[i] && Before(ws, j, i) :: r[j] == 0
  }

  lemma {:induction false} TrimLargestFirst(ws: seq<nat>, limit: nat, header: nat)
    ensures |Trim(ws, limit, header)| == |ws| && LargestFirst(ws, Trim(ws, limit, header))
    decreases Sum(ws)
  {
    if !Settled(ws, limit, header) {
      var need := header + Sum(ws) - limit;
      ShrinkSum(ws, need);
      var ws', r := Shrink(ws, need), Trim(ws, limit, header);
      TrimLargestFirst(ws', limit, header);
      TrimTotal(ws', limit, header);
      ShrinkKeepsOrder(ws, need, limit, header, r);
    }
  }

  lemma ShrinkKeepsOrder(ws: seq<nat>, need: nat, limit: nat, header: nat, r: seq<nat>)
    requires ws != [] && need == header + Sum(ws) - limit && need > 0 && ws[Largest(ws)] > 0
    requires r == Trim(Shrink(ws, need), limit, header)
    requires |r| == |ws| && LargestFirst(Shrink(ws, need), r)
    requires forall i | 0 <= i < |ws| :: r[i] <= Shrink(ws, need)[i]
    ensures LargestFirst(ws, r)
  {
    var li, ws' := Largest(ws), Shrink(ws, need);
    if need <= ws[li] {
      ShrinkSum(ws, need);
      TrimTotal(ws', limit, header);
      assert r == ws';
    }
    forall i, j | 0 <= i < |ws| && 0 <= j < |ws| && r[i] < ws[i] && Before(ws, j, i)
      ensures r[j] == 0
    {
      if i != li && j != li {
        assert ws'[i] == ws[i] && ws'[j] == ws[j];
        assert Before(ws', j, i);
      }
    }
  }

  /** At most one segment is partly trimmed. */
  lemma OnePartial(ws: seq<nat>, r: seq<nat>, i: nat, j: nat)
    requires |r| == |ws| && LargestFirst(ws, r) && i < |ws| && j < |ws|
    requires 0 < r[i] < ws[i] && 0 < r[j] < ws[j]
    ensures i == j
  {
  }

  /** The three properties leave no freedom: they determine the trimmed sizes. */
  lemma TrimIsOnlyAnswer(ws: seq<nat>, limit: nat, header: nat, r: seq<nat>)
    requires |r| == |ws| && LargestFirst(ws, r) && forall i | 0 <= i < |ws| :: r[i] <= ws[i]
    requires Sum(r) == Sum(Trim(ws, limit, header))
    ensures r == Trim(ws, limit, header)
  {
    var t := Trim(ws, limit, header);
    TrimTotal(ws, limit, header);
    TrimLargestFirst(ws, limit, header);
    if r != t {
      var i :| 0 <= i < |ws| && r[i] != t[i];
      if r[i] < t[i] {
        SameOrderSmaller(ws, r, t, i);
      } else {
        SameOrderSmaller(ws, t, r, i);
      }
    }
  }

  /** Of two largest-first trims, the one that is smaller somewhere is smaller in total. */
  lemma SameOrderSmaller(ws: seq<nat>, a: seq<nat>, b: seq<nat>, i: nat)
    requires |a| == |ws| == |b| && LargestFirst(ws, a) && LargestFirst(ws, b) && i < |ws|
    requires forall k | 0 <= k < |ws| :: a[k] <= ws[k] && b[k] <= ws[k]
    requires a[i] < b[i]
    ensures Sum(a) < Sum(b)
  {
    forall j | 0 <= j < |ws|
      ensures a[j] <= b[j]
    {
      assert j == i || Before(ws, i, j) || Before(ws, j, i);
    }
    SumLess(a, b, i);
  }

  lemma SumLess(a: seq<nat>, b: seq<nat>, i: nat)
    requires |a| == |b| && i < |a| && (forall k | 0 <= k < |a| :: a[k] <= b[k]) && a[i] < b[i]
    ensures Sum(a) < Sum(b)
  {
    if i == 0 {
      SumLeq(a[1..], b[1..]);
    } else {
      SumLess(a[1..], b[1..], i - 1);
    }
  }

  lemma SumLeq(a: seq<nat>, b: seq<nat>)
    requires |a| == |b| && forall k | 0 <= k < |a| :: a[k] <= b[k]
    ensures Sum(a) <= Sum(b)
  {
  }

  // ---- The array version ----

  function Sizes(ms: seq<Mapping>): (ws: seq<nat>)
    ensures |ws| == |ms|
  {
    seq<nat>(|ms|, i requires 0 <= i < |ms| => ms[i].writeSize)
  }

  /** `ms` with the sizes `ws`. */
  function Resized(ms: seq<Mapping>, ws: seq<nat>): (r: seq<Mapping>)
    requires |ws| == |ms| && forall i | 0 <= i < |ms| :: ws[i] <= ms[i].writeSize
    ensures |r| == |ms|
  {
    seq<Mapping>(|ms|, i requires 0 <= i < |ms| == |ws| && ws[i] <= ms[i].writeSize => ms[i].(writeSize := ws[i]))
  }

  /** `ms` after priority limiting. */
  function Limited(ms: seq<Mapping>, limit: nat, header: nat): (r: seq<Mapping>)
    ensures |r| == |ms|
  {
    TrimTotal(Sizes(ms), limit, header);
    Resized(ms, Trim(Sizes(ms), limit, header))
  }

  /** Limiting changes nothing but sizes, and those only downwards. */
  lemma LimitedShape(ms: seq<Mapping>, limit: nat, header: nat)
    ensures SizedAs(Limited(ms, limit, header), ms)
    ensures Sizes(Limited(ms, limit, header)) == Trim(Sizes(ms), limit, header)
  {
    TrimTotal(Sizes(ms), limit, header);
  }

  lemma SumSnoc(ws: seq<nat>, i: nat)
    requires i < |ws|
    ensures Sum(ws[..i + 1]) == Sum(ws[..i]) + ws[i]
  {
    if i > 0 {
      SumSnoc(ws[1..], i - 1);
      assert ws[..i + 1][1..] == ws[1..][..i] && ws[..i][1..] == ws[1..][..i - 1];
    } else {
      assert ws[..1] == [ws[0]];
    }
  }

  lemma LargestSnoc(ws: seq<nat>, i: nat)
    requires i < |ws|
    ensures LargestTo(ws, i + 1) == if i == 0 || ws[LargestTo(ws, i)] < ws[i] then i else LargestTo(ws, i)
  {
  }

  /** The scan of one round: the running total and the first largest segment. */
  method Scan(maps: array<Mapping>, kept: nat, headerOverhead: nat) returns (total: nat, largest: Option<nat>)
    requires kept <= maps.Length
    ensures
      var ws := Sizes(maps[..kept]);
      total == headerOverhead + Sum(ws) && largest == if ws == [] then None else Some(Largest(ws))
  {
    ghost var ws := Sizes(maps[..kept]);
    total, largest := headerOverhead, None;
    for i := 0 to kept
      invariant total == headerOverhead + Sum(ws[..i])
      invariant largest == if i == 0 then None else Some(LargestTo(ws, i))
    {
      SumSnoc(ws, i);
      LargestSnoc(ws, i);
      total := total + maps[i].writeSize;
      if largest.None? || maps[largest.value].writeSize < maps[i].writeSize {
        largest := Some(i);
      }
    }
    assert ws[..kept] == ws;
  }

  /** `now` is `ms` but for smaller sizes. */
  ghost predicate SizedAs(now: seq<Mapping>, ms: seq<Mapping>) {
    && |now| == |ms|
    && forall i | 0 <= i < |ms| ::
         now[i].writeSize <= ms[i].writeSize && now[i] == ms[i].(writeSize := now[i].writeSize)
  }

  /** One round: find the largest segment and shrink it, or find that there is nothing to do. */
  method Round(maps: array<Mapping>, kept: nat, limit: nat, headerOverhead: nat) returns (go: bool)
    requires kept <= maps.Length
    modifies maps
    ensures maps[kept..] == old(maps[kept..]) && SizedAs(maps[..kept], old(maps[..kept]))
    ensures
      var ws, ws' := Sizes(old(maps[..kept])), Sizes(maps[..kept]);
      && Trim(ws', limit, headerOverhead) == Trim(ws, limit, headerOverhead)
      && (if go then Sum(ws') < Sum(ws) else ws' == ws && Settled(ws, limit, headerOverhead))
  {
    ghost var ms, ws := maps[..kept], Sizes(maps[..kept]);
    var total, largest := Scan(maps, kept, headerOverhead);
    go := largest.Some? && total > limit && maps[largest.value].writeSize > 0;
    if go {
      var li, need := largest.value, total - limit;
      var size := if need > maps[li].writeSize then 0 else maps[li].writeSize - need;
      maps[li] := maps[li].(writeSize := size);
      assert maps[..kept] == ms[li := ms[li].(writeSize := size)];
      SmallerAt(ms, li, size);
      assert ws[li := size] == Shrink(ws, need);
      TrimStep(ws, limit, headerOverhead);
    }
  }

  lemma SmallerAt(ms: seq<Mapping>, li: nat, size: usize)
    requires li < |ms| && size <= ms[li].writeSize
    ensures
      var now := ms[li := ms[li].(writeSize := size)];
      SizedAs(now, ms) && Sizes(now) == Sizes(ms)[li := size]
  {
  }

  lemma SizedAsTrans(a: seq<Mapping>, b: seq<Mapping>, c: seq<Mapping>)
    requires SizedAs(a, b) && SizedAs(b, c)
    ensures SizedAs(a, c)
  {
    forall i | 0 <= i < |c|
      ensures a[i].writeSize <= c[i].writeSize && a[i] == c[i].(writeSize := a[i].writeSize)
    {
      assert a[i] == b[i].(writeSize := a[i].writeSize) && b[i] == c[i].(writeSize := b[i].writeSize);
    }
  }

  lemma TrimStep(ws: seq<nat>, limit: nat, header: nat)
    requires !Settled(ws, limit, header)
    ensures
      var next := Shrink(ws, header + Sum(ws) - limit);
      Trim(ws, limit, header) == Trim(next, limit, header) && Sum(next) < Sum(ws)
  {
    ShrinkSum(ws, header + Sum(ws) - limit);
  }

  lemma TrimDone(now: seq<Mapping>, ms: seq<Mapping>, limit: nat, header: nat)
    requires SizedAs(now, ms) && Settled(Sizes(now), limit, header)
    requires Trim(Sizes(now), limit, header) == Trim(Sizes(ms), limit, header)
    ensures now == Limited(ms, limit, header)
  {
  }

  /** `apply_priority_limit`, in place on the first `kept` mappings. */
  method ApplyPriorityLimit(maps: array<Mapping>, kept: nat, limit: nat, headerOverhead: nat)
    requires kept <= maps.Length
    modifies maps
    ensures maps[..kept] == Limited(old(maps[..kept]), limit, headerOverhead)
    ensures maps[kept..] == old(maps[kept..])
  {
    ghost var ms := maps[..kept];
    ghost var now := ms;
    var go := true;
    while go
      invariant maps[..kept] == now && SizedAs(now, ms) && maps[kept..] == old(maps[kept..])
      invariant Trim(Sizes(now), limit, headerOverhead) == Trim(Sizes(ms), limit, headerOverhead)
      invariant !go ==> Settled(Sizes(now), limit, headerOverhead)
      decreases Sum(Sizes(now)), go
    {
      ghost var before := now;
      go := Round(maps, kept, limit, headerOverhead);
      now := maps[..kept];
      SizedAsTrans(now, before, ms);
    }
    TrimDone(now, ms, limit, headerOverhead);
  }
}
