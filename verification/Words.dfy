/** The fixed-width readers and writers the generated code calls. */
module Words {
  import opened Bytes

  /** `v >> s` */
  function Shr(v: nat, s: nat): nat {
    if s == 0 then v else Shr(v / 2, s - 1)
  }

  lemma {:induction false} ShrAdd(v: nat, s: nat, t: nat)
    ensures Shr(Shr(v, s), t) == Shr(v, s + t)
  {
    if s > 0 { ShrAdd(v / 2, s - 1, t); }
  }

  lemma ShrTwo(v: nat)
    ensures Shr(v, 2) == v / 4
  {
    assert Shr(v, 2) == Shr(v / 2, 1) == Shr(v / 2 / 2, 0);
  }

  lemma ShrByte(v: nat)
    ensures Shr(v, 8) == v / 256
  {
    ShrTwo(v); ShrTwo(v / 4); ShrTwo(v / 16); ShrTwo(v / 64);
    ShrAdd(v, 2, 2); ShrAdd(v, 4, 2); ShrAdd(v, 6, 2);
  }

  /** `byte(v >> s)` */
  function ByteAt(v: nat, s: nat): byte { Shr(v, s) % 256 }

  /** Byte `k` of the little-endian form is the word shifted down by `8 * k` bits. */
  lemma {:induction false} ByteOfLE(v: nat, w: nat, k: nat)
    requires k < w
    ensures LE(v, w)[k] == ByteAt(v, 8 * k)
  {
    if k > 0 {
      ByteOfLE(v / 256, w - 1, k - 1);
      ShrByte(v);
      ShrAdd(v, 8, 8 * (k - 1));
    }
  }

  method PutU16(b: array<byte>, off: nat, v: u16)
    requires off + 2 <= b.Length
    modifies b
    ensures b[..] == Splice(old(b[..]), off, LE(v, 2))
  {
    hide LE, ByteAt;
    ByteOfLE(v, 2, 0); ByteOfLE(v, 2, 1);
    b[off] := ByteAt(v, 0);
    b[off + 1] := ByteAt(v, 8);
  }

  method PutU32(b: array<byte>, off: nat, v: u32)
    requires off + 4 <= b.Length
    modifies b
    ensures b[..] == Splice(old(b[..]), off, LE(v, 4))
  {
    hide LE, ByteAt;
    ByteOfLE(v, 4, 0); ByteOfLE(v, 4, 1); ByteOfLE(v, 4, 2); ByteOfLE(v, 4, 3);
    b[off] := ByteAt(v, 0);
    b[off + 1] := ByteAt(v, 8);
    b[off + 2] := ByteAt(v, 16);
    b[off + 3] := ByteAt(v, 24);
  }

  method PutU64(b: array<byte>, off: nat, v: u64)
    requires off + 8 <= b.Length
    modifies b
    ensures b[..] == Splice(old(b[..]), off, LE(v, 8))
  {
    hide LE, ByteAt;
    ByteOfLE(v, 8, 0); ByteOfLE(v, 8, 1); ByteOfLE(v, 8, 2); ByteOfLE(v, 8, 3);
    ByteOfLE(v, 8, 4); ByteOfLE(v, 8, 5); ByteOfLE(v, 8, 6); ByteOfLE(v, 8, 7);
    b[off] := ByteAt(v, 0);
    b[off + 1] := ByteAt(v, 8);
    b[off + 2] := ByteAt(v, 16);
    b[off + 3] := ByteAt(v, 24);
    b[off + 4] := ByteAt(v, 32);
    b[off + 5] := ByteAt(v, 40);
    b[off + 6] := ByteAt(v, 48);
    b[off + 7] := ByteAt(v, 56);
  }

  function AppendU16(b: Bytes, v: u16): (r: Bytes) { b + [ByteAt(v, 0), ByteAt(v, 8)] }

  function AppendU32(b: Bytes, v: u32): (r: Bytes) {
    b + [ByteAt(v, 0), ByteAt(v, 8), ByteAt(v, 16), ByteAt(v, 24)]
  }

  function AppendU64(b: Bytes, v: u64): (r: Bytes) {
    b + [ByteAt(v, 0), ByteAt(v, 8), ByteAt(v, 16), ByteAt(v, 24),
         ByteAt(v, 32), ByteAt(v, 40), ByteAt(v, 48), ByteAt(v, 56)]
  }

  /** The appended words are the little-endian forms. */
  lemma AppendsLE(b: Bytes, v: u16, w: u32, x: u64)
    ensures AppendU16(b, v) == b + LE(v, 2) && AppendU32(b, w) == b + LE(w, 4) && AppendU64(b, x) == b + LE(x, 8)
  {
    hide LE, ByteAt;
    ByteOfLE(v, 2, 0); ByteOfLE(v, 2, 1);
    ByteOfLE(w, 4, 0); ByteOfLE(w, 4, 1); ByteOfLE(w, 4, 2); ByteOfLE(w, 4, 3);
    ByteOfLE(x, 8, 0); ByteOfLE(x, 8, 1); ByteOfLE(x, 8, 2); ByteOfLE(x, 8, 3);
    ByteOfLE(x, 8, 4); ByteOfLE(x, 8, 5); ByteOfLE(x, 8, 6); ByteOfLE(x, 8, 7);
  }

  /** `uint(b[0]) | uint(b[1])<<8 | ...`, over the first `w` bytes. */
  function OrBytes(b: Bytes, w: nat): nat
    requires w <= |b|
  {
    if w == 0 then 0
    else if w == 1 then b[0]
    else Or(OrBytes(b, w - 1), b[w - 1] * Pow2(8 * (w - 1)))
  }

  function U16(b: Bytes): nat requires |b| >= 2 { Or(b[0], b[1] * Pow2(8)) }

  function U32(b: Bytes): nat
    requires |b| >= 4
  {
    Or(Or(Or(b[0], b[1] * Pow2(8)), b[2] * Pow2(16)), b[3] * Pow2(24))
  }

  function U64(b: Bytes): nat
    requires |b| >= 8
  {
    Or(Or(Or(Or(Or(Or(Or(b[0], b[1] * Pow2(8)), b[2] * Pow2(16)), b[3] * Pow2(24)),
      b[4] * Pow2(32)), b[5] * Pow2(40)), b[6] * Pow2(48)), b[7] * Pow2(56))
  }

  lemma {:induction false} FromLESnoc(s: Bytes, c: byte)
    ensures FromLE(s + [c]) == FromLE(s) + c * Pow2(8 * |s|)
  {
    hide Pow2;
    if s != [] {
      assert (s + [c])[1..] == s[1..] + [c];
      FromLESnoc(s[1..], c);
      Pow2Add(8, 8 * |s[1..]|);
      WordPowers();
      assert 8 + 8 * |s[1..]| == 8 * |s|;
      MulAcross(256, c as nat, Pow2(8 * |s[1..]|));
    } else {
      assert s + [c] == [c] && [c][1..] == [];
      Pow2Zero();
    }
  }

  /** ORing in shifted bytes, which share no bit, adds them up. */
  lemma {:induction false} OrBytesIsLE(b: Bytes, w: nat)
    requires w <= |b|
    ensures OrBytes(b, w) == FromLE(b[..w])
  {
    if w == 1 {
      assert b[..1][1..] == [];
    } else if w > 1 {
      OrBytesIsLE(b, w - 1);
      FromLEBound(b[..w - 1]);
      OrDisjoint(FromLE(b[..w - 1]), b[w - 1], 8 * (w - 1));
      assert b[..w] == b[..w - 1] + [b[w - 1]];
      FromLESnoc(b[..w - 1], b[w - 1]);
    }
  }

  /** The readers take the little-endian forms apart again. */
  lemma ReadsLE(b: Bytes)
    ensures |b| >= 2 ==> U16(b) == FromLE(b[..2]) <= MAX_U16
    ensures |b| >= 4 ==> U32(b) == FromLE(b[..4]) <= MAX_U32
    ensures |b| >= 8 ==> U64(b) == FromLE(b[..8]) <= MAX_U64
  {
    hide Pow2, FromLE, Or;
    WordPowers();
    if |b| >= 2 { FromLEBound(b[..2]); OrBytesIsLE(b, 2); assert OrBytes(b, 1) == b[0]; assert OrBytes(b, 2) == U16(b); }
    if |b| >= 4 {
      FromLEBound(b[..4]);
      OrBytesIsLE(b, 4);
      assert OrBytes(b, 3) == Or(U16(b), b[2] * Pow2(16));
      assert OrBytes(b, 4) == U32(b);
    }
    if |b| >= 8 {
      FromLEBound(b[..8]);
      OrBytesIsLE(b, 8);
      assert OrBytes(b, 5) == Or(U32(b), b[4] * Pow2(32));
      assert OrBytes(b, 6) == Or(OrBytes(b, 5), b[5] * Pow2(40));
      assert OrBytes(b, 7) == Or(OrBytes(b, 6), b[6] * Pow2(48));
    }
  }
}
