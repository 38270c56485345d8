/** The address space as the serializer can observe it: bytes behind pages that may be unreadable. */
module Pages {
  import opened Bytes

  /** The smallest kernel page; readability never varies inside one. */
  const MIN_KERNEL_PAGE: nat := 4096

  datatype Memory = Memory(content: nat -> byte, readable: nat -> bool) {
    /** Readability of the page that holds address `a`. */
    predicate Readable(a: nat) {
      readable(a / MIN_KERNEL_PAGE)
    }

    predicate AllReadable(a: nat, len: nat) {
      forall x: nat | a <= x < a + len :: Readable(x)
    }

    /** The byte a dump must show for address `a`. */
    function View(a: nat): byte {
      if Readable(a) then content(a) else 0
    }

    /** The bytes a dump must show for `[a, a + len)`. */
    function Image(a: nat, len: nat): (s: seq<byte>)
      ensures |s| == len
    {
      seq<byte>(len, (i: nat) => View(a + i))
    }

    /** The raw bytes of `[a, a + len)`. */
    function Raw(a: nat, len: nat): (s: seq<byte>)
      ensures |s| == len
    {
      seq<byte>(len, (i: nat) => content(a + i))
    }
  }

  /** The two differ at most in the bytes at `owned` addresses. */
  ghost predicate Agree(owned: nat -> bool, a: Memory, b: Memory) {
    (forall p: nat :: a.readable(p) == b.readable(p)) && (forall x: nat | !owned(x) :: a.content(x) == b.content(x))
  }

  /** None of `[a, a + len)` is owned. */
  ghost predicate Avoids(owned: nat -> bool, a: nat, len: nat) {
    forall x: nat | a <= x < a + len :: !owned(x)
  }

  lemma AgreeReadable(owned: nat -> bool, a: Memory, b: Memory, at: nat, len: nat)
    requires Agree(owned, a, b)
    ensures a.AllReadable(at, len) <==> b.AllReadable(at, len)
  {
    forall x: nat
      ensures a.Readable(x) == b.Readable(x)
    {
      assert a.readable(x / MIN_KERNEL_PAGE) == b.readable(x / MIN_KERNEL_PAGE);
    }
  }

  /** What a dump shows of agreeing memories is the same outside `owned`. */
  lemma AgreeView(owned: nat -> bool, a: Memory, b: Memory, x: nat)
    requires Agree(owned, a, b) && !owned(x)
    ensures a.View(x) == b.View(x)
  {
    assert a.readable(x / MIN_KERNEL_PAGE) == b.readable(x / MIN_KERNEL_PAGE);
  }

  /** `content` after a write. */
  function Written(content: nat -> byte, x: nat, v: byte): nat -> byte {
    (y: nat) => if y == x then v else content(y)
  }

  /** An address space in use: its owner, who does the dumping, keeps changing the `owned` part, such as the stack and
      buffers the dump itself works with. */
  class Space {
    const owned: nat -> bool
    var mem: Memory

    constructor (owned: nat -> bool, mem: Memory)
      ensures this.owned == owned && this.mem == mem
    {
      this.owned, this.mem := owned, mem;
    }

    /** It is still `base` outside the owned part. */
    ghost predicate Near(base: Memory)
      reads this
    {
      Agree(owned, base, mem)
    }

    /** The owner goes about its work. */
    method Drift(ghost base: Memory)
      requires Near(base)
      modifies this
      ensures Near(base)
    {
      var writes: nat :| 0 <= writes;
      for i := 0 to writes
        invariant Near(base)
      {
        var x: nat, v: byte :| 0 <= x && 0 <= v;
        if owned(x) {
          mem := mem.(content := Written(mem.content, x, v));
        }
      }
    }
  }
}
