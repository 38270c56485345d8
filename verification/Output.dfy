/** Output to a file descriptor: the retrying write, the size-limited writer and what either leaves behind. */
module Output {
  import opened Bytes
  import opened Kernel

  /** The file behind a descriptor. Writes may be short, interrupted or fail. */
  class OutFd {
    /** Whether writes only ever succeed, possibly short, or get interrupted. */
    const reliable: bool
    var data: seq<byte>
    /** How many more calls a signal may interrupt. */
    var interrupts: nat

    constructor (reliable: bool, interrupts: nat)
      ensures this.reliable == reliable && data == [] && this.interrupts == interrupts
    {
      this.reliable, data, this.interrupts := reliable, [], interrupts;
    }

    method SysWrite(buf: seq<byte>) returns (r: SysResult)
      modifies this
      ensures interrupts <= old(interrupts)
      ensures r.Ok? ==> r.n <= |buf| && data == old(data) + buf[..r.n]
      ensures r.Err? ==> data == old(data)
      ensures r == Err(EINTR) ==> interrupts < old(interrupts)
      ensures reliable && buf != [] ==> r == Err(EINTR) || (r.Ok? && r.n > 0)
    {
      if {
        case interrupts > 0 =>
          interrupts := interrupts - 1;
          return Err(EINTR);
        case !reliable =>
          var e: int :| e != EINTR;
          return Err(e);
        case true =>
          var n: nat :| n <= |buf| && (reliable && buf != [] ==> n > 0);
          data := data + buf[..n];
          return Ok(n);
      }
    }
  }

  /** `c_write`: retry interrupted and short writes. After an error the file may hold any proper prefix. */
  method CWrite(fd: OutFd, buf: seq<byte>) returns (r: SysResult)
    modifies fd
    ensures r.Ok? ==> r.n <= |buf| && fd.data == old(fd.data) + buf[..r.n]
    ensures r.Err? ==> old(fd.data) <= fd.data < old(fd.data) + buf
    ensures fd.reliable ==> r == Ok(|buf|)
  {
    var remaining := |buf|;
    while remaining > 0
      invariant 0 <= remaining <= |buf|
      invariant fd.data == old(fd.data) + buf[..|buf| - remaining]
      decreases remaining, fd.interrupts
    {
      var done := |buf| - remaining;
      var rc := fd.SysWrite(buf[done..]);
      if rc == Err(EINTR) {
        continue;
      }
      if rc.Err? {
        return rc;
      }
      if rc.n == 0 {
        break;
      }
      assert buf[..done] + buf[done..][..rc.n] == buf[..done + rc.n];
      remaining := remaining - rc.n;
    }
    return Ok(|buf| - remaining);
  }

  datatype WriteError = Failed | ShortWrite(requested: nat, written: nat)

  /** What a writer has let through, and how much more it may (`None`: no limit). */
  datatype Sink = Sink(data: seq<byte>, room: Option<nat>)

  /** The output a group of writes is producing, and where it began; `low` bytes of it were there before the group. */
  datatype Goal = Goal(start: Sink, total: seq<byte>, low: nat)

  /** The part of `g` that consists of writing `piece` after `pre`. */
  function Part(g: Goal, pre: seq<byte>, piece: seq<byte>): Goal {
    Goal(g.start, pre + piece, |pre|)
  }

  /** `bs` were handed to the writer between `s0` and `s1`, and the last write of them succeeded iff `ok`.

      On success the file grew by exactly `bs`. On failure it grew by a prefix of `bs` that stays within
      the limit, and if the limit is now used up, by exactly that limit. */
  ghost predicate Emitted(s0: Sink, s1: Sink, bs: seq<byte>, ok: bool) {
    && (s0.room.Some? <==> s1.room.Some?)
    && s0.data <= s1.data <= s0.data + bs
    && (s0.room.Some? ==> |s1.data| - |s0.data| <= s0.room.value)
    && (ok ==> s1.data == s0.data + bs)
    && (ok && s0.room.Some? ==> s1.room.value == s0.room.value - |bs|)
    && (!ok && s0.room.Some? && s1.room.value == 0 ==> |s1.data| == |s0.data| + s0.room.value)
  }

  lemma EmittedThen(s0: Sink, s1: Sink, s2: Sink, a: seq<byte>, b: seq<byte>, ok: bool)
    requires Emitted(s0, s1, a, true) && Emitted(s1, s2, b, ok)
    ensures Emitted(s0, s2, a + b, ok)
  {
    assert s0.data + (a + b) == s1.data + b;
  }

  lemma EmittedStop(s0: Sink, s1: Sink, a: seq<byte>, b: seq<byte>)
    requires Emitted(s0, s1, a, false)
    ensures Emitted(s0, s1, a + b, false)
  {
    assert s0.data + (a + b) == s0.data + a + b;
  }

  lemma EmittedNothing(s: Sink)
    ensures Emitted(s, s, [], true)
  {
    assert s.data + [] == s.data;
  }

  /** Dump output is judged successful when the stream ended or the limit was reached; either way the file
      gained exactly the stream cut to the limit. */
  lemma SuccessIsExactPrefix(s0: Sink, s1: Sink, stream: seq<byte>, ok: bool)
    requires Emitted(s0, s1, stream, ok)
    requires ok || s1.room == Some(0)
    ensures s1.data == s0.data + Cut(stream, s0.room)
  {
    if ok {
      assert stream[..|stream|] == stream;
    } else {
      assert s1.data[|s0.data|..] == (s0.data + stream)[..|s1.data|][|s0.data|..];
      assert s1.data == s0.data + s1.data[|s0.data|..];
      assert s1.data[|s0.data|..] == stream[..s0.room.value];
    }
  }

  /** A fact about the writer's contract: a failed write may leave bytes in the file that were never counted, so the
      contract of a later write does not exclude an overrun. The limit holds because the engine stops at the first
      failure. */
  lemma ContractAllowsOverrun(data: seq<byte>)
    ensures
      exists s0, s1, s2 ::
        && s0 == Sink(data, Some(2))
        && Emitted(s0, s1, [1, 2], false) && Emitted(s1, s2, [3, 4], true)
        && |s2.data| - |data| > 2
  {
    var s0 := Sink(data, Some(2));
    var s1 := Sink(data + [1], Some(2));
    var s2 := Sink(data + [1] + [3, 4], Some(0));
    assert data + [1, 2] == data + [1] + [2];
    assert Emitted(s0, s1, [1, 2], false) && Emitted(s1, s2, [3, 4], true);
  }

  /** The first `limit` bytes of `stream`, or all of it. */
  function Cut(stream: seq<byte>, limit: Option<nat>): (s: seq<byte>)
    ensures |s| == if limit.Some? then Min(limit.value, |stream|) else |stream|
  {
    if limit.Some? then stream[..Min(limit.value, |stream|)] else stream
  }

  /** `SimpleWriter` (no limit) and `LimitWriter` (a remaining length). */
  class Writer {
    const fd: OutFd
    var maxLength: Option<nat>

    constructor (fd: OutFd, maxLength: Option<nat>)
      ensures this.fd == fd && this.maxLength == maxLength
    {
      this.fd, this.maxLength := fd, maxLength;
    }

    ghost function Out(): Sink
      reads this, fd
    {
      Sink(fd.data, maxLength)
    }

    /** `Writer::write`: the number of bytes taken, or -1. */
    method Write(buf: seq<byte>) returns (written: int)
      modifies this, fd
      ensures -1 <= written <= |buf|
      ensures Emitted(old(Out()), Out(), buf, written == |buf|)
      ensures fd.reliable ==> written == if old(maxLength).Some? then Min(|buf|, old(maxLength).value) else |buf|
      ensures fd.reliable && written < |buf| ==> maxLength == Some(0)
      ensures written < |buf| ==> |fd.data| < |old(fd.data)| + |buf|
      ensures written >= 0 ==> fd.data == old(fd.data) + buf[..written]
    {
      match maxLength
      case None =>
        var rc := CWrite(fd, buf);
        return if rc.Ok? then rc.n else -1;
      case Some(max) =>
        var bytes := Min(|buf|, max);
        if bytes == 0 {
          return 0;
        }
        var rc := CWrite(fd, buf[..bytes]);
        assert old(fd.data) + buf[..bytes] <= old(fd.data) + buf;
        if rc.Err? {
          return -1;
        }
        assert buf[..bytes][..rc.n] == buf[..rc.n];
        maxLength := Some(max - rc.n);
        return rc.n;
    }

    /** `Writer::write_full`. */
    method WriteFull(buf: seq<byte>) returns (r: Option<WriteError>)
      modifies this, fd
      ensures Emitted(old(Out()), Out(), buf, r.None?)
      ensures fd.reliable && r.Some? ==> maxLength == Some(0)
      ensures r.Some? ==> |fd.data| < |old(fd.data)| + |buf|
      ensures r.Some? && r.value.ShortWrite? ==>
        r.value.requested == |buf| > r.value.written && fd.data == old(fd.data) + buf[..r.value.written]
      ensures fd.reliable && r.Some? ==> r.value.ShortWrite?
    {
      var written := Write(buf);
      if written < 0 {
        return Some(Failed);
      }
      if written == |buf| {
        return None;
      }
      return Some(ShortWrite(|buf|, written));
    }

    /** Work towards a larger output `g.total`: `pre` of it has been written since `g.start`. */
    ghost predicate Sofar(g: Goal, pre: seq<byte>)
      reads this, fd
    {
      Emitted(g.start, Out(), pre, true) && pre <= g.total && g.low <= |pre|
    }

    /** A write failed while `g.total` was being produced, before it was complete. */
    ghost predicate Stopped(g: Goal)
      reads this, fd
    {
      Emitted(g.start, Out(), g.total, false) && g.low <= |fd.data| - |g.start.data| < |g.total|
    }

    /** `write_full` as the next piece of a larger output. */
    method Append(buf: seq<byte>, ghost g: Goal, ghost pre: seq<byte>) returns (r: Option<WriteError>)
      requires Sofar(g, pre) && pre + buf <= g.total
      modifies this, fd
      ensures r.None? ==> Sofar(g, pre + buf)
      ensures r.Some? ==> Stopped(g) && (fd.reliable ==> Done())
    {
      ghost var before := Out();
      r := WriteFull(buf);
      EmittedThen(g.start, before, Out(), pre, buf, r.None?);
      if r.Some? {
        StopEarly(g, pre + buf);
      }
    }

    /** `write_full` after `pre` has been written since `s0`. */
    method AppendTo(buf: seq<byte>, ghost s0: Sink, ghost pre: seq<byte>) returns (r: Option<WriteError>)
      requires Emitted(s0, Out(), pre, true)
      modifies this, fd
      ensures Emitted(s0, Out(), pre + buf, r.None?) && (fd.reliable && r.Some? ==> Done())
      ensures |old(fd.data)| <= |fd.data|
    {
      ghost var before := Out();
      r := WriteFull(buf);
      EmittedThen(s0, before, Out(), pre, buf, r.None?);
    }

    lemma StopEarly(g: Goal, bs: seq<byte>)
      requires Emitted(g.start, Out(), bs, false) && bs <= g.total
      requires g.low <= |fd.data| - |g.start.data| && |fd.data| - |g.start.data| < |bs|
      ensures Stopped(g)
    {
      assert g.total == bs + g.total[|bs|..];
      EmittedStop(g.start, Out(), bs, g.total[|bs|..]);
    }

    /** Beginning and ending a part of `g`. */
    lemma PartBegins(g: Goal, pre: seq<byte>, piece: seq<byte>)
      requires Sofar(g, pre)
      ensures Sofar(Part(g, pre, piece), pre)
    {
    }

    lemma PartEnds(g: Goal, pre: seq<byte>, piece: seq<byte>, ok: bool)
      requires pre + piece <= g.total && g.low <= |pre|
      requires if ok then Sofar(Part(g, pre, piece), pre + piece) else Stopped(Part(g, pre, piece))
      ensures if ok then Sofar(g, pre + piece) else Stopped(g)
    {
      if !ok {
        StopEarly(g, pre + piece);
      }
    }

    /** `Writer::done`. */
    predicate Done()
      reads this
    {
      maxLength == Some(0)
    }
  }
}
