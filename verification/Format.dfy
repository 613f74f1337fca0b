/** The wire format against facts of Go and of the format that the codec's own definitions
    do not enter: the ranges of the basic kinds, and bytes written out. */
module Format {
  import opened Bytes
  import opened Varint
  import opened Schema
  import opened Codec

  // ---------------------------------------------------------------------
  // Basic kinds
  // ---------------------------------------------------------------------

  /** Go's ranges. Floats are bit patterns, bools 0 or 1. */
  function Low(k: Kind): int {
    match k
    case KInt8 => -128
    case KInt16 => -32768
    case KInt32 => -2147483648
    case KInt64 | KInt | KTime => -9223372036854775808
    case _ => 0
  }

  function High(k: Kind): int {
    match k
    case KBool => 1
    case KUint8 => 255
    case KInt8 => 127
    case KUint16 => 65535
    case KInt16 => 32767
    case KUint32 | KFloat32 => 4294967295
    case KInt32 => 2147483647
    case KUint64 | KUint | KFloat64 => 18446744073709551615
    case KInt64 | KInt | KTime => 9223372036854775807
  }

  lemma KindRange(k: Kind, n: int)
    ensures InRange(k, n) <==> Low(k) <= n <= High(k)
  {}

  /** A kind has as many values as there are strings of the length it is written in, and
      the bytes are the value modulo that number, the least significant first. */
  lemma KindOnWire(g: Gen, k: Kind, d: Decl, n: int)
    requires Low(k) <= n <= High(k)
    ensures var w := Enc(g, TScalar(k, d), VNum(n));
            if k == KBool then w == (if n == 0 then [0] else [1])
            else High(k) - Low(k) + 1 == Pow2(8 * |w|) && FromLE(w) == n % (High(k) - Low(k) + 1)
  {
    hide Low, High, Patterns, Pow2, LE, FromLE;
    KindRange(k, n);
    PatternsAreWords(k);
    if k == KBool {
      BoolToByte(n);
    } else {
      KindCount(k);
      LERoundTrip(Wire(k, n), Width(k));
    }
  }

  lemma KindCount(k: Kind)
    requires k != KBool
    ensures High(k) - Low(k) + 1 == Patterns(k)
  {}

  lemma BoolToByte(n: int)
    requires InRange(KBool, n)
    ensures ScalarBytes(KBool, n) == if n == 0 then [0] else [1]
  {
    assert LE(n, 1) == [n % 256] + LE(n / 256, 0);
  }

  /** Reading takes that many bytes. A bool is true for any byte but 0; for the other kinds
      the value read is the one written in those bytes. */
  lemma KindFromWire(g: Gen, k: Kind, d: Decl, b: Bytes)
    ensures var r := Dec(g, TScalar(k, d), b);
            if |b| < |Enc(g, TScalar(k, d), VNum(0))| then r == Fail(ShortBuffer, 0)
            else
              && r.Ok? && r.n == |Enc(g, TScalar(k, d), VNum(0))| && r.v.VNum? && Low(k) <= r.v.n <= High(k)
              && (if k == KBool then r.v.n == (if b[0] == 0 then 0 else 1) else Enc(g, TScalar(k, d), r.v) == b[..r.n])
  {
    hide Low, High, ScalarOf, ScalarBytes, InRange;
    if |b| >= Width(k) {
      var s := b[..Width(k)];
      ScalarInRange(k, s);
      KindRange(k, ScalarOf(k, s));
      if k == KBool { BoolFromByte(b[0], s); } else { ScalarOfBytes(k, s); }
    }
  }

  lemma BoolFromByte(c: byte, s: Bytes)
    requires s == [c]
    ensures ScalarOf(KBool, s) == if c == 0 then 0 else 1
  {
    assert [c][1..] == [];
    assert FromLE(s) == c + 256 * FromLE([]);
  }

  // ---------------------------------------------------------------------
  // Bytes written out
  // ---------------------------------------------------------------------

  const U8 := TScalar(KUint8, Builtin)
  const U16 := TScalar(KUint16, Builtin)

  lemma ByteIs(g: Gen, c: byte)
    ensures Enc(g, U8, VNum(c)) == [c]
  {
    assert LE(c, 1) == [c % 256] + LE(c / 256, 0);
  }

  /** 0x0102 is written 02 01. */
  lemma WordIs(g: Gen)
    ensures Enc(g, U16, VNum(0x0102)) == [0x02, 0x01]
  {
    assert LE(0x0102, 2) == [0x02] + LE(0x01, 1) && LE(0x01, 1) == [0x01] + LE(0, 0);
  }

  lemma TwoLeb()
    ensures Leb(0) == [0] && Leb(1) == [1] && Leb(2) == [2] && Leb(300) == [0xAC, 0x02]
  {
    assert Leb(300) == [0xAC] + Leb(2);
  }

  /** A string or collection is a count and what it holds, an array only that; a pointer is
      a flag and the pointee; nil is a 0. */
  lemma CollectionsWritten(g: Gen)
    requires g.mode.Safe?
    ensures Enc(g, TStr(Builtin), VStr([0x68, 0x69])) == [2, 0x68, 0x69]
    ensures Enc(g, TSlice(U8), VSlice(false, [VNum(7), VNum(8)], [VNum(9)])) == [2, 7, 8]
    ensures Enc(g, TArray(2, U8), VArr([VNum(7), VNum(8)])) == [7, 8]
    ensures Enc(g, TMap(U8, U16), VMap(false, [Entry(VNum(7), VNum(0x0102))])) == [1, 7, 0x02, 0x01]
    ensures Enc(g, TPtr(U8), VRef(VNum(7))) == [1, 7] && Enc(g, TPtr(U8), VNil) == [0]
    ensures Enc(g, TSlice(U8), NIL_SLICE) == [0] && Enc(g, TMap(U8, U16), NIL_MAP) == [0]
  {
    hide Enc, Leb;
    TwoLeb();
    ByteIs(g, 7);
    ByteIs(g, 8);
    WordIs(g);
    var vs := [VNum(7), VNum(8)];
    assert EncSeq(g, U8, vs) == [7, 8] by {
      assert vs[1..] == [VNum(8)] && vs[1..][1..] == [];
      assert EncSeq(g, U8, vs[1..]) == [8] + EncSeq(g, U8, []);
    }
    var es := [Entry(VNum(7), VNum(0x0102))];
    assert EncEntries(g, U8, U16, es) == [7, 0x02, 0x01] by {
      assert es[1..] == [];
      assert EncEntry(g, U8, U16, es[0]) == [7] + [0x02, 0x01];
    }
    Written(g, vs, es);
  }

  lemma Written(g: Gen, vs: seq<Val>, es: seq<Entry>)
    requires g.mode.Safe?
    ensures Enc(g, TStr(Builtin), VStr([0x68, 0x69])) == Leb(2) + [0x68, 0x69]
    ensures Enc(g, TSlice(U8), VSlice(false, vs, [VNum(9)])) == Leb(|vs|) + EncSeq(g, U8, vs)
    ensures Enc(g, TArray(2, U8), VArr(vs)) == EncSeq(g, U8, vs)
    ensures Enc(g, TMap(U8, U16), VMap(false, es)) == Leb(|es|) + EncEntries(g, U8, U16, es)
    ensures Enc(g, TPtr(U8), VRef(VNum(7))) == [1] + Enc(g, U8, VNum(7)) && Enc(g, TPtr(U8), VNil) == [0]
    ensures Enc(g, TSlice(U8), NIL_SLICE) == Leb(0) && Enc(g, TMap(U8, U16), NIL_MAP) == Leb(0)
  {}

  /** A struct is its serialized fields in order; a union is the member's place counted from
      1 and the member, and nil is a 0. */
  lemma MembersWritten(g: Gen, m: Name, n: Name)
    requires g.mode.Safe? && FieldsOf(g, n) == [U8, TSkip, U16]
    ensures var v := VStruct([VNum(7), VOpaque(9), VNum(0x0102)], []);
            && Enc(g, TStruct(n), v) == [7, 0x02, 0x01]
            && Enc(g, TUnion([m, n]), VMem(1, v)) == [2, 7, 0x02, 0x01] && Enc(g, TUnion([m, n]), VNil) == [0]
  {
    hide Leb, Enc;
    TwoLeb();
    ByteIs(g, 7);
    WordIs(g);
    var tys, vs := [U8, TSkip, U16], [VNum(7), VOpaque(9), VNum(0x0102)];
    assert EncFields(g, tys, vs) == [7, 0x02, 0x01] by {
      assert tys[1..] == [TSkip, U16] && tys[1..][1..] == [U16];
      assert vs[1..] == [VOpaque(9), VNum(0x0102)] && vs[1..][1..] == [VNum(0x0102)];
      assert EncFields(g, [U16], [VNum(0x0102)]) == [0x02, 0x01] + EncFields(g, [], []) by {
        assert [U16][1..] == [] && [VNum(0x0102)][1..] == [];
      }
      SkipIs(g);
    }
    MemberIs(g, m, n, VStruct(vs, []));
  }

  lemma SkipIs(g: Gen)
    ensures Enc(g, TSkip, VOpaque(9)) == []
  {}

  lemma MemberIs(g: Gen, m: Name, n: Name, v: Val)
    requires g.mode.Safe? && v.VStruct? && |v.fields| == |FieldsOf(g, n)|
    ensures Enc(g, TStruct(n), v) == EncFields(g, FieldsOf(g, n), v.fields)
    ensures Enc(g, TUnion([m, n]), VMem(1, v)) == Leb(2) + EncFields(g, FieldsOf(g, n), v.fields)
    ensures Enc(g, TUnion([m, n]), VNil) == Leb(0)
  {}

  /** A pointer's flag may be any byte but 0. */
  lemma AnyFlag(g: Gen, e: Ty, c: byte, w: Bytes)
    ensures var r := Dec(g, TPtr(e), [c] + w);
            if c == 0 then r == Ok(VNil, 1)
            else match Dec(g, e, w)
                 case Ok(v, n) => r == Ok(VRef(v), 1 + n)
                 case Fail(x, n) => r == Fail(x, 1 + n)
  {
    hide Dec;
    assert ([c] + w)[1..] == w;
    PtrIs(g, e, [c] + w);
  }

  lemma PtrIs(g: Gen, e: Ty, b: Bytes)
    ensures Dec(g, TPtr(e), b) == DecPtr(g, e, b)
  {}

  // ---------------------------------------------------------------------
  // Zero values
  // ---------------------------------------------------------------------

  ghost predicate AllNull(s: Bytes) { forall i :: 0 <= i < |s| ==> s[i] == 0 }

  /** Go's zero value of a type is the one written as nothing but null bytes. */
  lemma {:induction false} ZeroIsNull(g: Gen, ty: Ty)
    requires g.mode.Safe?
    ensures AllNull(Enc(g, ty, Zero(g, ty)))
    decreases TyRank(g, ty), ty
  {
    hide EncSeq, EncFields, ZeroFields;
    TwoLeb();
    match ty
    case TScalar(k, _) => NullWord(Width(k));
    case TSlice(e, _) => assert EncSeq(g, e, []) == [] by { NoElems(g, e); }
    case TArray(m, e, _) =>
      ZeroIsNull(g, e);
      ZerosAreNull(g, e, m, Zero(g, e));
    case TStruct(n) => ZeroFieldsAreNull(g, FieldsOf(g, n));
    case _ =>
  }

  lemma {:induction false} NullWord(w: nat)
    ensures AllNull(LE(0, w))
  {
    if w > 0 { NullWord(w - 1); }
  }

  lemma NoElems(g: Gen, e: Ty)
    ensures EncSeq(g, e, []) == []
  {}

  lemma {:induction false} ZerosAreNull(g: Gen, e: Ty, m: nat, z: Val)
    requires AllNull(Enc(g, e, z))
    ensures AllNull(EncSeq(g, e, Zeros(m, z)))
  {
    hide Enc;
    if m > 0 {
      ZerosAreNull(g, e, m - 1, z);
      assert Zeros(m, z)[1..] == Zeros(m - 1, z);
    }
  }

  lemma {:induction false} ZeroFieldsAreNull(g: Gen, tys: seq<Ty>)
    requires g.mode.Safe?
    ensures AllNull(EncFields(g, tys, ZeroFields(g, tys)))
    decreases FieldsRank(g, tys), tys
  {
    hide Enc, Zero;
    if tys != [] {
      ZeroIsNull(g, tys[0]);
      ZeroFieldsAreNull(g, tys[1..]);
    }
  }

  /** And it has nothing that the wire does not see. */
  lemma {:induction false} ZeroIsClean(g: Gen, ty: Ty, collapse: bool)
    ensures Clean(Zero(g, ty), collapse) == Zero(g, ty)
    decreases TyRank(g, ty), ty
  {
    hide ZeroFields, CleanSeq;
    NothingToClean(collapse);
    match ty
    case TArray(m, e, _) =>
      ZeroIsClean(g, e, collapse);
      assert CleanSeq(Zeros(m, Zero(g, e)), collapse) == Zeros(m, Zero(g, e));
    case TStruct(n) => ZeroFieldsAreClean(g, FieldsOf(g, n), collapse);
    case _ =>
  }

  lemma NothingToClean(collapse: bool)
    ensures CleanSeq([], collapse) == [] && CleanEntries([], collapse) == []
  {}

  lemma {:induction false} ZeroFieldsAreClean(g: Gen, tys: seq<Ty>, collapse: bool)
    ensures CleanSeq(ZeroFields(g, tys), collapse) == ZeroFields(g, tys)
    decreases FieldsRank(g, tys), tys
  {
    hide Clean, Zero;
    if tys != [] {
      ZeroIsClean(g, tys[0], collapse);
      ZeroFieldsAreClean(g, tys[1..], collapse);
    }
  }
}
