/** Bytes, little-endian words and zero runs: the vocabulary of every record the engine writes. */
module Bytes {
  type byte = x: int | 0 <= x < 256

  const U16: nat := 0x1_0000
  const U32: nat := 0x1_0000_0000
  const U64: nat := 0x1_0000_0000_0000_0000

  datatype Option<+T> = None | Some(value: T)

  function Min(a: nat, b: nat): nat {
    if a < b then a else b
  }

  function Max(a: nat, b: nat): nat {
    if a < b then b else a
  }

  /** The number of values a `width`-byte word can hold. */
  function Pow256(width: nat): (p: nat)
    ensures p > 0
  {
    if width == 0 then 1 else 256 * Pow256(width - 1)
  }

  /** The low `width` bytes of `n`, least significant first: exactly a truncating `as` cast
      followed by a native little-endian store. */
  function Le(n: nat, width: nat): (s: seq<byte>)
    ensures |s| == width
  {
    if width == 0 then [] else [n % 256] + Le(n / 256, width - 1)
  }

  function Value(s: seq<byte>): nat {
    if s == [] then 0 else s[0] + 256 * Value(s[1..])
  }

  function Zeros(n: nat): (s: seq<byte>)
    ensures |s| == n
  {
    seq(n, i => 0)
  }

  predicate AllZero(s: seq<byte>) {
    forall i | 0 <= i < |s| :: s[i] == 0
  }

  /** What a reader gets back from a stored word: the number modulo the word size. */
  lemma {:induction false} StoredWord(n: nat, width: nat)
    ensures Value(Le(n, width)) == n % Pow256(width)
  {
    if width == 0 {
      assert n % 1 == 0;
    } else {
      StoredWord(n / 256, width - 1);
      var p := Pow256(width - 1);
      var q := n / 256;
      assert Le(n, width)[1..] == Le(q, width - 1);
      ModSplit(n, q, n % 256, p);
    }
  }

  lemma ModSplit(n: nat, q: nat, r: nat, p: nat)
    requires n == 256 * q + r && r < 256 && p > 0
    ensures n % (256 * p) == r + 256 * (q % p)
  {
    var k, m := q / p, q % p;
    assert q == p * k + m;
    assert 256 * q == (256 * p) * k + 256 * m by {
      assert 256 * (p * k) == (256 * p) * k;
    }
    assert m <= p - 1;
    var rest := r + 256 * m;
    assert 0 <= rest < 256 * p;
    UniqueRemainder(n, 256 * p, k, rest);
  }

  lemma UniqueRemainder(n: nat, d: nat, k: nat, r: nat)
    requires d > 0 && r < d && n == d * k + r
    ensures n % d == r && n / d == k
  {
    var k', r' := n / d, n % d;
    assert n == d * k' + r' && r' < d;
    if k' > k {
      MulStep(d, k, k');
    } else if k' < k {
      MulStep(d, k', k);
    }
  }

  lemma MulStep(d: nat, a: nat, b: nat)
    requires a < b
    ensures d * a + d <= d * b
  {
    if b == a + 1 {
      assert d * (a + 1) == d * a + d;
    } else {
      MulStep(d, a, b - 1);
      assert d * b == d * (b - 1) + d;
    }
  }

  /** A word survives the store exactly when it fits. */
  lemma WordRoundTrip(n: nat, width: nat)
    ensures Value(Le(n, width)) == n <==> n < Pow256(width)
  {
    StoredWord(n, width);
    if n < Pow256(width) {
      UniqueRemainder(n, Pow256(width), 0, n);
    }
  }

  lemma WordSizes()
    ensures Pow256(2) == U16 && Pow256(4) == U32 && Pow256(8) == U64
  {
    assert Pow256(4) == 256 * 256 * Pow256(2);
    assert Pow256(6) == 256 * 256 * Pow256(4);
    assert Pow256(8) == 256 * 256 * Pow256(6);
  }

  /** The remainder by repeated subtraction: `n % d` without division, which keeps proofs linear. */
  function Rem(n: nat, d: nat): (r: nat)
    requires d > 0
    ensures r < d && r <= n
    decreases n
  {
    if n < d then n else Rem(n - d, d)
  }

  /** The quotient by repeated subtraction. */
  function Quot(n: nat, d: nat): (q: nat)
    requires d > 0
    ensures q <= n
    decreases n
  {
    if n < d then 0 else 1 + Quot(n - d, d)
  }

  predicate Multiple(n: nat, d: nat)
    requires d > 0
  {
    Rem(n, d) == 0
  }

  lemma {:induction false} QuotRem(n: nat, d: nat)
    requires d > 0
    ensures n == d * Quot(n, d) + Rem(n, d)
  {
    if n >= d {
      QuotRem(n - d, d);
      assert d * (Quot(n - d, d) + 1) == d * Quot(n - d, d) + d;
    }
  }

  /** `Quot` and `Rem` are division and remainder. */
  lemma QuotRemIsDivMod(n: nat, d: nat)
    requires d > 0
    ensures Quot(n, d) == n / d && Rem(n, d) == n % d
  {
    QuotRem(n, d);
    UniqueRemainder(n, d, Quot(n, d), Rem(n, d));
  }

  /** Adding a multiple does not change a remainder. */
  lemma {:induction false} RemPlus(a: nat, b: nat, d: nat)
    requires d > 0 && Multiple(a, d)
    ensures Rem(a + b, d) == Rem(b, d)
  {
    if a >= d {
      RemPlus(a - d, b, d);
    }
  }

  /** Two multiples of `d` are at least `d` apart. */
  lemma {:induction false} NextMultiple(a: nat, b: nat, d: nat)
    requires d > 0 && Multiple(a, d) && Multiple(b, d) && a < b
    ensures a + d <= b && Multiple(b - a, d)
  {
    RemPlus(a, b - a, d);
  }

  /** `bs` is stored in `file` at offset `off`. */
  predicate At(file: seq<byte>, off: nat, bs: seq<byte>) {
    off + |bs| <= |file| && file[off..off + |bs|] == bs
  }

  /** The unsigned word of `width` bytes at `off`. */
  function Word(file: seq<byte>, off: nat, width: nat): nat
    requires off + width <= |file|
  {
    Value(file[off..off + width])
  }

  lemma AtPart(file: seq<byte>, off: nat, a: seq<byte>, b: seq<byte>)
    requires At(file, off, a + b)
    ensures At(file, off, a) && At(file, off + |a|, b)
  {
    assert file[off..off + |a|] == (a + b)[..|a|] by {
      assert file[off..off + |a|] == file[off..off + |a + b|][..|a|];
    }
    assert file[off + |a|..off + |a| + |b|] == (a + b)[|a|..] by {
      assert file[off + |a|..off + |a| + |b|] == file[off..off + |a + b|][|a|..];
    }
  }

  lemma AtWhole(a: seq<byte>, b: seq<byte>, c: seq<byte>)
    ensures At(a + b + c, |a|, b)
  {
  }

  lemma WordAt(file: seq<byte>, off: nat, n: nat, width: nat)
    requires At(file, off, Le(n, width)) && n < Pow256(width)
    ensures Word(file, off, width) == n
  {
    WordRoundTrip(n, width);
  }
}
