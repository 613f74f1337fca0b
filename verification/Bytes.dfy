/** Bytes, machine words as naturals, and the fixed-width little-endian form. */
module Bytes {

  type byte = x: int | 0 <= x < 256

  type Bytes = seq<byte>

  const MAX_U16 := 0xFFFF
  const MAX_U32 := 0xFFFF_FFFF
  const MAX_U64 := 0xFFFF_FFFF_FFFF_FFFF

  type u16 = v: nat | v <= MAX_U16
  type u32 = v: nat | v <= MAX_U32
  type u64 = v: nat | v <= MAX_U64

  /** Go's `int` bound: no slice or string is longer than this. */
  const MAX_LEN := 0x7FFF_FFFF_FFFF_FFFF

  function Pow2(n: nat): (p: nat)
    ensures p > 0
  {
    if n == 0 then 1 else 2 * Pow2(n - 1)
  }

  /** Bitwise OR of two naturals, bit by bit. */
  function Or(x: nat, y: nat): nat
    decreases x + y
  {
    if x == 0 && y == 0 then 0
    else (if x % 2 == 1 || y % 2 == 1 then 1 else 0) + 2 * Or(x / 2, y / 2)
  }

  /** `c << s` on a 64-bit word: bits shifted past the top are lost. */
  function Shl64(c: nat, s: nat): nat {
    (c * Pow2(s)) % 0x1_0000_0000_0000_0000
  }

  lemma {:induction false} OrZero(y: nat)
    ensures Or(0, y) == y
  {
    if y > 0 { OrZero(y / 2); }
  }

  /** OR is addition when the operands share no bit position. */
  lemma {:induction false} OrDisjoint(x: nat, c: nat, s: nat)
    requires x < Pow2(s)
    ensures Or(x, c * Pow2(s)) == x + c * Pow2(s)
    decreases s
  {
    if s == 0 {
      OrZero(c);
    } else {
      var p := Pow2(s - 1);
      assert c * Pow2(s) == 2 * (c * p) by { assert Pow2(s) == 2 * p; }
      assert (c * Pow2(s)) / 2 == c * p && (c * Pow2(s)) % 2 == 0;
      OrDisjoint(x / 2, c, s - 1);
    }
  }

  lemma {:induction false} Pow2Add(m: nat, n: nat)
    ensures Pow2(m + n) == Pow2(m) * Pow2(n)
  {
    if m > 0 {
      Pow2Add(m - 1, n);
      assert Pow2(m + n) == 2 * Pow2(m - 1 + n);
      assert 2 * (Pow2(m - 1) * Pow2(n)) == Pow2(m) * Pow2(n);
    }
  }

  lemma {:induction false} Pow2Monotone(m: nat, n: nat)
    requires m <= n
    ensures Pow2(m) <= Pow2(n)
  {
    Pow2Add(m, n - m);
    assert Pow2(m) * Pow2(n - m) >= Pow2(m) by { MulGrows(Pow2(m), Pow2(n - m)); }
  }

  lemma Pow2Zero()
    ensures Pow2(0) == 1
  {}

  lemma MulAcross(m: nat, x: nat, p: nat)
    ensures m * (x * p) == x * (m * p)
  {}

  lemma Pow2Double(n: nat)
    ensures Pow2(n + 1) == 2 * Pow2(n)
  {}

  lemma MulGrows(a: nat, b: nat)
    requires b > 0
    ensures a * b >= a
  {}

  /** Values of the powers that bound a word of 1, 2, 4 and 8 bytes. */
  lemma WordPowers()
    ensures Pow2(7) == 0x80 && Pow2(8) == 0x100 && Pow2(16) == 0x1_0000 && Pow2(32) == 0x1_0000_0000
    ensures Pow2(63) == 0x8000_0000_0000_0000 && Pow2(64) == 0x1_0000_0000_0000_0000
  {
    assert Pow2(4) == 16;
    Pow2Add(4, 3); Pow2Add(4, 4); Pow2Add(8, 8); Pow2Add(16, 16); Pow2Add(32, 32);
    assert Pow2(64) == 2 * Pow2(63);
  }

  /** The low `w` bytes of `u`, least significant first. */
  function LE(u: nat, w: nat): (s: Bytes)
    ensures |s| == w
  {
    if w == 0 then [] else [u % 256] + LE(u / 256, w - 1)
  }

  function FromLE(s: Bytes): nat {
    if s == [] then 0 else s[0] + 256 * FromLE(s[1..])
  }

  lemma {:induction false} FromLEBound(s: Bytes)
    ensures FromLE(s) < Pow2(8 * |s|)
  {
    if s != [] {
      FromLEBound(s[1..]);
      Pow2Add(8, 8 * |s[1..]|);
      WordPowers();
    }
  }

  lemma {:induction false} LERoundTrip(u: nat, w: nat)
    requires u < Pow2(8 * w)
    ensures FromLE(LE(u, w)) == u
  {
    if w > 0 {
      WordPowers();
      Pow2Add(8, 8 * (w - 1));
      assert u < 256 * Pow2(8 * (w - 1));
      LERoundTrip(u / 256, w - 1);
      assert LE(u, w)[1..] == LE(u / 256, w - 1);
    }
  }

  lemma {:induction false} LEOfFrom(s: Bytes)
    ensures LE(FromLE(s), |s|) == s
  {
    if s != [] {
      var u, x := FromLE(s), FromLE(s[1..]);
      LEOfFrom(s[1..]);
      LowByte(s[0], x);
      assert LE(u, |s|) == [u % 256] + LE(u / 256, |s| - 1);
      hide LE, FromLE;
    }
  }

  lemma LowByte(c: byte, x: nat)
    ensures (c + 256 * x) % 256 == c && (c + 256 * x) / 256 == x
  {}

  /** Dropping within the first part keeps the suffix. */
  lemma DropExtended(b: Bytes, s: Bytes, n: nat)
    requires n <= |b|
    ensures (b + s)[n..] == b[n..] + s
  {}

  /** `b` with the bytes at `off` overwritten by `w`. */
  function Splice(b: Bytes, off: nat, w: Bytes): (r: Bytes)
    requires off + |w| <= |b|
    ensures |r| == |b|
  {
    b[..off] + w + b[off + |w|..]
  }

  lemma SpliceConcat(b: Bytes, off: nat, u: Bytes, w: Bytes)
    requires off + |u| + |w| <= |b|
    ensures Splice(Splice(b, off, u), off + |u|, w) == Splice(b, off, u + w)
  {}

  lemma SpliceStep(b: Bytes, off: nat, u: Bytes, c: byte)
    requires off + |u| < |b|
    ensures Splice(b, off, u)[off + |u| := c] == Splice(b, off, u + [c])
  {}
}
