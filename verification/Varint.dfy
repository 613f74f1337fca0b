/** Unsigned LEB128 (section 7.6 of DWARF Version 5): the code's loops, proved
    against a declarative reading of the format. */
module Varint {
  import opened Bytes

  // ---------------------------------------------------------------------
  // The format
  // ---------------------------------------------------------------------

  /** The minimal LEB128 form of `v`. */
  function Leb(v: nat): (s: Bytes)
    ensures |s| >= 1
  {
    if v < 0x80 then [v] else [0x80 + v % 0x80] + Leb(v / 0x80)
  }

  /** Index of the first byte below 0x80, or |b| when there is none. */
  function FirstLow(b: Bytes): (t: nat)
    ensures t <= |b|
    ensures t < |b| ==> b[t] < 0x80
    ensures forall k :: 0 <= k < t ==> b[k] >= 0x80
  {
    if b == [] || b[0] < 0x80 then 0 else 1 + FirstLow(b[1..])
  }

  /** The sum of the 7-bit groups of `b`, least significant group first. */
  function Groups(b: Bytes): nat {
    if b == [] then 0 else b[0] % 0x80 + 0x80 * Groups(b[1..])
  }

  /** What decoding the front of `b` must give: value and signed byte count. */
  function Uvarint(b: Bytes): (r: (nat, int))
    ensures r.1 <= |b|
  {
    var t := FirstLow(b);
    if t == |b| then (0, 0)
    else if t > 9 || (t == 9 && b[t] > 1) then (0, -(t + 1))
    else (Groups(b[..t + 1]), t + 1)
  }

  // ---------------------------------------------------------------------
  // Facts about the format
  // ---------------------------------------------------------------------

  lemma {:induction false} GroupsSnoc(b: Bytes, c: byte)
    ensures Groups(b + [c]) == Groups(b) + (c % 0x80) * Pow2(7 * |b|)
  {
    hide Pow2;
    if b == [] {
      WordPowers();
      assert [] + [c] == [c] && [c][1..] == [] && Pow2(0) == 1 by { Pow2Zero(); }
    } else {
      var x, p := c % 0x80, Pow2(7 * |b[1..]|);
      GroupsSnoc(b[1..], c);
      assert (b + [c])[1..] == b[1..] + [c];
      Pow2Add(7, 7 * |b[1..]|);
      WordPowers();
      assert 7 + 7 * |b[1..]| == 7 * |b|;
      MulAcross(0x80, x, p);
    }
  }

  lemma {:induction false} GroupsBound(b: Bytes)
    ensures Groups(b) < Pow2(7 * |b|)
  {
    if b != [] {
      GroupsBound(b[1..]);
      Pow2Add(7, 7 * |b[1..]|);
      WordPowers();
    }
  }

  /** A count is positive exactly when the terminator comes in time; the value
      then fits 64 bits; zero means no terminator, negative means overflow. */
  lemma UvarintExact(b: Bytes)
    ensures Uvarint(b).1 > 0 <==>
            exists t :: 0 <= t < |b| && t <= 9 && b[t] < 0x80 && (t == 9 ==> b[t] <= 1)
                        && forall k :: 0 <= k < t ==> b[k] >= 0x80
    ensures Uvarint(b).1 == 0 <==> forall k :: 0 <= k < |b| ==> b[k] >= 0x80
    ensures Uvarint(b).1 > 0 ==>
              Uvarint(b).0 == Groups(b[..Uvarint(b).1]) <= MAX_U64
    ensures Uvarint(b).1 <= 0 ==> Uvarint(b).0 == 0
  {
    var t := FirstLow(b);
    if t < |b| && t <= 9 && (t == 9 ==> b[t] <= 1) {
      var p := b[..t];
      assert b[..t + 1] == p + [b[t]];
      GroupsSnoc(p, b[t]);
      GroupsBound(p);
      WordPowers();
      if t == 9 {
        assert Groups(b[..t + 1]) <= Pow2(63) - 1 + Pow2(63);
      } else {
        GroupsBound(b[..t + 1]);
        Pow2Monotone(7 * (t + 1), 63);
      }
    }
  }

  lemma {:induction false} LebShape(v: nat)
    ensures FirstLow(Leb(v)) == |Leb(v)| - 1
    ensures Groups(Leb(v)) == v
  {
    if v >= 0x80 {
      LebShape(v / 0x80);
      assert Leb(v)[1..] == Leb(v / 0x80);
    }
  }

  /** `7 * |Leb(v)|` bits suffice for `v` and one group fewer does not. */
  lemma {:induction false} LebLength(v: nat)
    ensures v < Pow2(7 * |Leb(v)|)
    ensures |Leb(v)| > 1 ==> v >= Pow2(7 * (|Leb(v)| - 1))
  {
    WordPowers();
    if v >= 0x80 {
      LebLength(v / 0x80);
      Pow2Add(7, 7 * |Leb(v / 0x80)|);
      if |Leb(v)| > 2 {
        Pow2Add(7, 7 * (|Leb(v / 0x80)| - 1));
      } else {
        assert |Leb(v)| == 2;
      }
    }
  }

  lemma LebFits64(v: u64)
    ensures |Leb(v)| <= 10
    ensures |Leb(v)| == 10 ==> Leb(v)[9] <= 1
  {
    LebLength(v);
    WordPowers();
    if |Leb(v)| > 10 {
      Pow2Monotone(64, 7 * (|Leb(v)| - 1));
      assert false;
    }
    if |Leb(v)| == 10 {
      LebShape(v);
      var s := Leb(v);
      assert s == s[..9] + [s[9]];
      GroupsSnoc(s[..9], s[9]);
      LebLast(v);
      MulBound(s[9], Pow2(63));
    }
  }

  lemma {:induction false} LebLast(v: nat)
    ensures Leb(v)[|Leb(v)| - 1] < 0x80
  {
    if v >= 0x80 { LebLast(v / 0x80); }
  }

  lemma MulBound(g: nat, p: nat)
    requires p > 0
    ensures g * p < 2 * p ==> g <= 1
  {
    if g >= 2 { assert g * p == 2 * p + (g - 2) * p; }
  }

  lemma {:induction false} FirstLowPrefix(a: Bytes, b: Bytes)
    requires FirstLow(a) < |a|
    ensures FirstLow(a + b) == FirstLow(a)
  {
    if a[0] >= 0x80 {
      FirstLowPrefix(a[1..], b);
      assert (a + b)[1..] == a[1..] + b;
    }
  }

  /** Decoding undoes encoding, whatever bytes follow. */
  lemma UvarintInvertsLeb(v: u64, s: Bytes)
    ensures Uvarint(Leb(v) + s) == (v, |Leb(v)|)
  {
    LebShape(v);
    LebFits64(v);
    FirstLowPrefix(Leb(v), s);
    assert (Leb(v) + s)[..|Leb(v)|] == Leb(v);
  }

  /** A settled read does not look past the bytes it counts. */
  lemma UvarintExtends(b: Bytes, s: Bytes)
    requires Uvarint(b).1 != 0
    ensures Uvarint(b + s) == Uvarint(b)
  {
    FirstLowPrefix(b, s);
    var t := FirstLow(b);
    assert (b + s)[..t + 1] == b[..t + 1];
  }

  /** No byte string shorter than `Leb(v)` decodes to `v`. */
  lemma LebIsMinimal(b: Bytes)
    requires Uvarint(b).1 > 0
    ensures |Leb(Uvarint(b).0)| <= Uvarint(b).1
  {
    var (v, c) := Uvarint(b);
    GroupsBound(b[..c]);
    LebLength(v);
    if |Leb(v)| > c {
      Pow2Monotone(7 * c, 7 * (|Leb(v)| - 1));
      assert false;
    }
  }

  // ---------------------------------------------------------------------
  // The loops of the support library
  // ---------------------------------------------------------------------

  /** Writes `v` at `b[off:]`. */
  method PutUvarint(b: array<byte>, off: nat, v: u64) returns (n: nat)
    requires off + |Leb(v)| <= b.Length
    modifies b
    ensures n == |Leb(v)|
    ensures b[..] == Splice(old(b[..]), off, Leb(v))
  {
    var i, x := 0, v;
    ghost var before: Bytes, done: Bytes := b[..], [];
    while x >= 0x80
      invariant i == |done| && done + Leb(x) == Leb(v)
      invariant b[..] == Splice(before, off, done)
      decreases x
    {
      SpliceStep(before, off, done, 0x80 + x % 0x80);
      assert done + Leb(x) == (done + [0x80 + x % 0x80]) + Leb(x / 0x80);
      b[off + i] := 0x80 + x % 0x80;
      done := done + [0x80 + x % 0x80];
      x := x / 0x80;
      i := i + 1;
    }
    SpliceStep(before, off, done, x);
    b[off + i] := x;
    n := i + 1;
  }

  /** Reads a varint from `b[off:]`. The loop goes on past ten bytes, where the
      shift count exceeds the word and, in the end, wraps itself. */
  method ReadUvarint(b: array<byte>, off: nat) returns (v: nat, n: int)
    requires off <= b.Length
    ensures (v, n) == Uvarint(b[off..])
  {
    hide Or, Shl64, Groups, FirstLow;
    var x: nat, s: nat, i: nat := 0, 0, 0;
    ghost var t := b[off..];
    GroupsNil();
    while i < b.Length - off
      invariant 0 <= i <= |t|
      invariant forall k :: 0 <= k < i ==> t[k] >= 0x80
      invariant i <= 9 ==> s == 7 * i && x == Groups(t[..i])
    {
      var c := b[off + i];
      assert c == t[i];
      if i <= 9 { ReadStep(t, i); }
      if c < 0x80 {
        FirstLowIs(t, i);
        if i > 9 || (i == 9 && c > 1) {
          return 0, -(i + 1);
        }
        return Or(x, Shl64(c, s)), i + 1;
      }
      x := Or(x, Shl64(c % 0x80, s));
      s := (s + 7) % 0x1_0000_0000_0000_0000;
      i := i + 1;
    }
    FirstLowNone(t);
    return 0, 0;
  }

  lemma GroupsNil()
    ensures Groups([]) == 0
  {}

  lemma {:induction false} FirstLowIs(b: Bytes, i: nat)
    requires i < |b| && b[i] < 0x80
    requires forall k :: 0 <= k < i ==> b[k] >= 0x80
    ensures FirstLow(b) == i
  {
    var t := FirstLow(b);
    assert !(t < i) && !(t > i);
  }

  lemma FirstLowNone(b: Bytes)
    requires forall k :: 0 <= k < |b| ==> b[k] >= 0x80
    ensures FirstLow(b) == |b|
  {}

  /** One loop step: the OR adds a group, with nothing shifted out below index 9
      nor, at index 9, when the group is at most 1. */
  lemma ReadStep(t: Bytes, i: nat)
    requires i < |t| && i <= 9
    ensures t[i] < 0x80 && (i == 9 ==> t[i] <= 1)
            ==> Or(Groups(t[..i]), Shl64(t[i], 7 * i)) == Groups(t[..i + 1])
    ensures i < 9 ==> Or(Groups(t[..i]), Shl64(t[i] % 0x80, 7 * i)) == Groups(t[..i + 1])
  {
    var g := t[i] % 0x80;
    assert t[..i + 1] == t[..i] + [t[i]];
    GroupsSnoc(t[..i], t[i]);
    GroupsBound(t[..i]);
    OrDisjoint(Groups(t[..i]), g, 7 * i);
    if i < 9 || t[i] <= 1 { ShiftKeeps(g, i); }
  }

  /** A group below index 9, or a last group of at most 1, loses no bit. */
  lemma ShiftKeeps(g: nat, i: nat)
    requires g < 0x80 && i <= 9 && (i == 9 ==> g <= 1)
    ensures Shl64(g, 7 * i) == g * Pow2(7 * i)
  {
    GroupBelow(g, i);
    assert 0 <= g * Pow2(7 * i) < 0x1_0000_0000_0000_0000;
  }

  lemma GroupBelow(g: nat, i: nat)
    requires g < 0x80 && i <= 9 && (i == 9 ==> g <= 1)
    ensures 0 <= g * Pow2(7 * i) < 0x1_0000_0000_0000_0000
  {
    hide Pow2;
    WordPowers();
    if i < 9 {
      Pow2Add(7, 7 * i);
      Pow2Monotone(7 + 7 * i, 63);
      MulStrict(g, 0x80, Pow2(7 * i));
    } else {
      Pow2Double(63);
      MulStrict(g, 2, Pow2(63));
    }
  }

  lemma MulStrict(g: nat, h: nat, p: nat)
    requires g < h && p > 0
    ensures g * p < h * p
  {
    assert h * p == g * p + (h - g) * p;
    MulGrows(p, h - g);
  }

  method AppendUvarint(b: Bytes, v: u64) returns (r: Bytes)
    ensures r == b + Leb(v)
  {
    var x := v;
    r := b;
    while x >= 0x80
      invariant r + Leb(x) == b + Leb(v)
      decreases x
    {
      assert r + Leb(x) == (r + [0x80 + x % 0x80]) + Leb(x / 0x80);
      r := r + [0x80 + x % 0x80];
      x := x / 0x80;
    }
    r := r + [x];
  }

  /** Number of significant bits, as `bits.Len64`. */
  function Len64(x: nat): nat {
    if x == 0 then 0 else 1 + Len64(x / 2)
  }

  lemma {:induction false} Len64Bounds(x: nat)
    requires x > 0
    ensures Len64(x) >= 1 && Pow2(Len64(x) - 1) <= x < Pow2(Len64(x))
  {
    if x > 1 { Len64Bounds(x / 2); }
  }

  lemma OrOne(v: nat)
    ensures Or(v, 1) == v - v % 2 + 1
  {
    OrWithZero(v / 2);
  }

  lemma {:induction false} OrWithZero(x: nat)
    ensures Or(x, 0) == x
  {
    if x > 0 { OrWithZero(x / 2); }
  }

  /** The branch-free size: one division of a bit length. */
  function UvarintSize(v: nat): nat {
    (Len64(Or(v, 1)) + 6) / 7
  }

  /** The bit-length formula counts the bytes `PutUvarint` writes. */
  lemma UvarintSizeIsLength(v: nat)
    ensures UvarintSize(v) == |Leb(v)|
  {
    var n, l := |Leb(v)|, Len64(Or(v, 1));
    SizeBits(v);
    assert 7 * (n - 1) < l <= 7 * n;
  }

  lemma SizeBits(v: nat)
    ensures 7 * (|Leb(v)| - 1) < Len64(Or(v, 1)) <= 7 * |Leb(v)|
  {
    hide Leb, Or, Len64, Pow2;
    var x, n := Or(v, 1), |Leb(v)|;
    var l := Len64(x);
    OrOne(v);
    Len64Bounds(x);
    LebLength(v);
    Pow2Double(7 * n - 1);
    if l > 7 * n { Pow2Monotone(7 * n, l - 1); }
    if n > 1 && l <= 7 * (n - 1) { Pow2Monotone(l, 7 * (n - 1)); }
  }

  /** The generator's own length loop, used for a union's constant tag width. */
  method UvarintLen(x: u64) returns (n: nat)
    ensures n == |Leb(x)|
    ensures 1 <= n <= 10
  {
    var y := x;
    n := 1;
    while y >= 0x80
      invariant n - 1 + |Leb(y)| == |Leb(x)|
      decreases y
    {
      y := y / 0x80;
      n := n + 1;
    }
    LebFits64(x);
  }
}
