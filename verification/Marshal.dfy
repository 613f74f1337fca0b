/** The encoding side: the code Size, Marshal and Append are generated to, with the
    same branches, against the wire format. */
module Marshal {
  import opened Bytes
  import opened Varint
  import opened Words
  import opened Schema
  import opened Memory
  import opened Codec

  // ---------------------------------------------------------------------
  // Generator-time sizes
  // ---------------------------------------------------------------------

  datatype FixedSize = Constant(n: nat) | Variable

  /** The encoded size of a type that has one. */
  function SizeConst(ty: Ty): FixedSize {
    match ty
    case TScalar(k, _) => Constant(Width(k))
    case TArray(m, e, _) => (
        match SizeConst(e)
        case Constant(w) => Constant(m * w)
        case Variable => Variable
      )
    case _ => Variable
  }

  lemma {:induction false} SizeConstIsRaw(ty: Ty)
    requires MemCopyable(ty)
    ensures SizeConst(ty) == Constant(RawWidth(ty))
  {
    if ty.TArray? { SizeConstIsRaw(ty.elem); }
  }

  /** Every value of a type with a constant size takes that many wire bytes, in both
      modes, whether it is written field by field or as raw memory. */
  lemma {:induction false} SizeConstIsExact(g: Gen, ty: Ty, v: Val)
    requires SizeConst(ty).Constant? && HasTy(g, ty, v)
    ensures |Enc(g, ty, v)| == SizeConst(ty).n
    decreases v, 0
  {
    if ty.TArray? {
      SizeConstOfElems(g, ty.elem, v.elems);
    }
  }

  lemma {:induction false} SizeConstOfElems(g: Gen, e: Ty, vs: seq<Val>)
    requires SizeConst(e).Constant? && AllHaveTy(g, e, vs)
    ensures |EncElems(g, e, vs)| == |vs| * SizeConst(e).n
    decreases vs, 1
  {
    if RawElems(g, e) { SizeConstIsRaw(e); } else { SizeConstOfSeq(g, e, vs); }
  }

  lemma {:induction false} SizeConstOfSeq(g: Gen, e: Ty, vs: seq<Val>)
    requires SizeConst(e).Constant? && AllHaveTy(g, e, vs)
    ensures |EncSeq(g, e, vs)| == |vs| * SizeConst(e).n
    decreases vs, 0
  {
    hide Enc, HasTy;
    if vs != [] {
      SizeConstIsExact(g, e, vs[0]);
      SizeConstOfSeq(g, e, vs[1..]);
      MulStep(|vs|, SizeConst(e).n);
    }
  }

  /** The raw memory of such elements side by side. */
  function StructImages(g: Gen, n: Name, vs: seq<Val>): (m: Bytes)
    requires Blittable(g, n)
  {
    if vs == [] then [] else StructImage(g, n, vs[0]) + StructImages(g, n, vs[1..])
  }

  function StructImage(g: Gen, n: Name, v: Val): Bytes
    requires Blittable(g, n)
  {
    if v.VStruct? && |v.fields| == |FieldsOf(g, n)| then Image(g, n, v.fields, v.pad) else []
  }

  /** One copy of the backing array writes what the Marshal loop would. */
  lemma {:induction false} StructImagesAreLoop(g: Gen, n: Name, vs: seq<Val>)
    requires Blittable(g, n) && AllHaveTy(g, TStruct(n), vs)
    ensures StructImages(g, n, vs) == EncSeq(g, TStruct(n), vs)
    ensures |StructImages(g, n, vs)| == |vs| * Sizeof(g, n)
  {
    hide Image, Sizeof, HasTy;
    if vs != [] {
      FieldsOfTyped(g, n, vs[0]);
      assert Enc(g, TStruct(n), vs[0]) == StructImage(g, n, vs[0]);
      StructImagesAreLoop(g, n, vs[1..]);
      MulStep(|vs|, Sizeof(g, n));
    }
  }

  /** Elements without a constant size are never one raw block of basics. */
  lemma ElemsAreLoop(g: Gen, e: Ty, vs: seq<Val>)
    requires SizeConst(e).Variable? || !RawElems(g, e) || vs == []
    ensures EncElems(g, e, vs) == EncSeq(g, e, vs)
  {
    if RawElems(g, e) { SizeConstIsRaw(e); }
  }

  // ---------------------------------------------------------------------
  // Size
  // ---------------------------------------------------------------------

  /** What `s` grows by for one value. */
  method SizeExpr(g: Gen, ty: Ty, v: Val) returns (s: nat)
    requires WfTy(ty) && HasTy(g, ty, v)
    ensures s == |Enc(g, ty, v)|
    decreases v, 2
  {
    hide AllHaveTy, EntriesHaveTy, FieldsHaveTy, EncStruct, EncElems, EncEntries, DistinctKeys;
    match ty {
      case TScalar(k, _) => s := Width(k);
      case TStr(_) =>
        UvarintSizeIsLength(|v.s|);
        s := UvarintSize(|v.s|) + |v.s|;
      case TSlice(e, _) =>
        UvarintSizeIsLength(|v.elems|);
        var n := SizeElems(g, e, v.elems);
        s := UvarintSize(|v.elems|) + n;
      case TArray(m, e, _) => s := SizeElems(g, e, v.elems);
      case TPtr(e, _) =>
        s := 1;
        if v.VRef? {
          var n := SizeExpr(g, e, v.v);
          s := s + n;
        }
      case TMap(kt, vt, _) =>
        UvarintSizeIsLength(|v.entries|);
        var n := SizeEntries(g, kt, vt, v.entries);
        s := UvarintSize(|v.entries|) + n;
      case TStruct(n) => s := Size(g, n, v);
      case TUnion(ms) =>
        if v.VNil? {
          s := UvarintLen(0);
        } else {
          var n := Size(g, ms[v.tag], v.v);
          var t := UvarintLen(v.tag + 1);
          s := t + n;
        }
      case TSkip => s := 0;
    }
  }

  method SizeEntries(g: Gen, kt: Ty, vt: Ty, es: seq<Entry>) returns (s: nat)
    requires WfTy(kt) && WfTy(vt) && EntriesHaveTy(g, kt, vt, es)
    ensures s == |EncEntries(g, kt, vt, es)|
    decreases es, 3
  {
    hide HasTy, Enc;
    s := 0;
    var i := 0;
    assert es[0..] == es;
    while i < |es|
      invariant 0 <= i <= |es|
      invariant EntriesHaveTy(g, kt, vt, es[i..])
      invariant s + |EncEntries(g, kt, vt, es[i..])| == |EncEntries(g, kt, vt, es)|
    {
      var n := SizeEntry(g, kt, vt, es[i]);
      assert es[i..][1..] == es[i + 1..];
      s := s + n;
      i := i + 1;
    }
  }

  method SizeEntry(g: Gen, kt: Ty, vt: Ty, e: Entry) returns (s: nat)
    requires WfTy(kt) && WfTy(vt) && EntryHasTy(g, kt, vt, e)
    ensures s == |EncEntry(g, kt, vt, e)|
    decreases e, 3
  {
    hide HasTy, Enc;
    var x := SizeExpr(g, kt, e.k);
    var y := SizeExpr(g, vt, e.v);
    s := x + y;
  }

  /** Elements: a constant each, raw memory, or one by one. */
  method SizeElems(g: Gen, e: Ty, vs: seq<Val>) returns (s: nat)
    requires WfTy(e) && AllHaveTy(g, e, vs)
    ensures s == |EncElems(g, e, vs)|
    decreases vs, 3
  {
    hide HasTy, AllHaveTy, Enc, EncSeq, EncElems, StructImages, Image, Sizeof, SizeConst, WfTy;
    var esz := SizeConst(e);
    if esz.Constant? {
      SizeConstOfElems(g, e, vs);
      s := esz.n * |vs|;
    } else if BlitElem(g, e) {
      ElemsAreLoop(g, e, vs);
      StructImagesAreLoop(g, e.name, vs);
      s := Sizeof(g, e.name) * |vs|;
    } else {
      ElemsAreLoop(g, e, vs);
      s := SizeLoop(g, e, vs);
    }
  }

  method SizeLoop(g: Gen, e: Ty, vs: seq<Val>) returns (s: nat)
    requires WfTy(e) && AllHaveTy(g, e, vs)
    ensures s == |EncSeq(g, e, vs)|
    decreases vs, 2
  {
    hide HasTy, Enc;
    s := 0;
    var i := 0;
    assert vs[0..] == vs;
    while i < |vs|
      invariant 0 <= i <= |vs|
      invariant AllHaveTy(g, e, vs[i..])
      invariant s + |EncSeq(g, e, vs[i..])| == |EncSeq(g, e, vs)|
    {
      var n := SizeExpr(g, e, vs[i]);
      assert vs[i..][1..] == vs[i + 1..];
      s := s + n;
      i := i + 1;
    }
  }

  /** The Size method of a target. */
  method Size(g: Gen, n: Name, v: Val) returns (s: nat)
    requires HasTy(g, TStruct(n), v)
    ensures s == |EncStruct(g, n, v)|
    decreases v, 1
  {
    hide HasTy, Enc, Image;
    FieldsOfTyped(g, n, v);
    StructWf(g, n);
    if Blittable(g, n) {
      s := Sizeof(g, n);
    } else {
      var tys := FieldsOf(g, n);
      s := 0;
      var k := 0;
      assert tys[0..] == tys && v.fields[0..] == v.fields;
      while k < |tys|
        invariant 0 <= k <= |tys|
        invariant FieldsHaveTy(g, tys[k..], v.fields[k..])
        invariant s + |EncFields(g, tys[k..], v.fields[k..])| == |EncFields(g, tys, v.fields)|
      {
        var x := SizeExpr(g, tys[k], v.fields[k]);
        assert tys[k..][1..] == tys[k + 1..] && v.fields[k..][1..] == v.fields[k + 1..];
        s := s + x;
        k := k + 1;
      }
    }
  }

  // ---------------------------------------------------------------------
  // Marshal
  // ---------------------------------------------------------------------

  /** Go's `copy(b[i:], w)`. */
  method Copy(b: array<byte>, i: nat, w: Bytes) returns (n: nat)
    requires i <= b.Length
    modifies b
    ensures n == if |w| <= b.Length - i then |w| else b.Length - i
    ensures b[..] == Splice(old(b[..]), i, w[..n])
  {
    n := 0;
    while n < |w| && i + n < b.Length
      invariant n <= |w| && i + n <= b.Length
      invariant b[..] == Splice(old(b[..]), i, w[..n])
    {
      assert w[..n + 1] == w[..n] + [w[n]];
      SpliceStep(old(b[..]), i, w[..n], w[n]);
      b[i + n] := w[n];
      n := n + 1;
    }
  }

  /** The bytes a []byte or [n]byte holds. */
  function BytesOf(vs: seq<Val>): (s: Bytes)
    ensures |s| == |vs|
  {
    if vs == [] then [] else [if vs[0].VNum? then vs[0].n % 256 else 0] + BytesOf(vs[1..])
  }

  /** Copying a []byte writes its elements, in either mode and byte order. */
  lemma {:induction false} BytesAreElems(g: Gen, e: Ty, vs: seq<Val>)
    requires IsByte(e) && AllHaveTy(g, e, vs)
    ensures EncElems(g, e, vs) == BytesOf(vs)
  {
    if vs != [] {
      BytesAreElems(g, e, vs[1..]);
      var n := vs[0].n;
      assert LE(n, 1) == [n];
      assert Reverse([n]) == [n];
      assert Raw(true, e, vs[0]) == Raw(false, e, vs[0]) == [n] == Enc(g, e, vs[0]);
    }
  }

  method PutScalar(b: array<byte>, i: nat, k: Kind, n: int)
    requires InRange(k, n) && i + Width(k) <= b.Length
    modifies b
    ensures b[..] == Splice(old(b[..]), i, ScalarBytes(k, n))
  {
    hide LE;
    match Width(k) {
      case 1 =>
        OneByte(Wire(k, n));
        b[i] := if k == KBool then (if n == 1 then 1 else 0) else Wire(k, n);
      case 2 => PutU16(b, i, Wire(k, n));
      case 4 => PutU32(b, i, Wire(k, n));
      case _ => PutU64(b, i, Wire(k, n));
    }
  }

  lemma OneByte(n: byte)
    ensures LE(n, 1) == [n]
  {}

  lemma SpliceNothing(b: Bytes, i: nat)
    requires i <= |b|
    ensures Splice(b, i, []) == b
  {}

  /** Writes one value at `i`; returns the offset after it. */
  method MarshalExpr(g: Gen, ty: Ty, v: Val, b: array<byte>, i: nat) returns (j: nat)
    requires WfTy(ty) && HasTy(g, ty, v) && i + |Enc(g, ty, v)| <= b.Length
    modifies b
    ensures j == i + |Enc(g, ty, v)|
    ensures b[..] == Splice(old(b[..]), i, Enc(g, ty, v))
    decreases v, 2
  {
    hide AllHaveTy, EntriesHaveTy, FieldsHaveTy, EncStruct, EncElems, EncEntries, DistinctKeys, Splice, ScalarBytes, Leb;
    match ty {
      case TScalar(k, _) =>
        PutScalar(b, i, k, v.n);
        j := i + Width(k);
      case TStr(_) =>
        var n := PutUvarint(b, i, |v.s|);
        SpliceConcat(old(b[..]), i, Leb(|v.s|), v.s);
        var m := Copy(b, i + n, v.s);
        assert v.s[..m] == v.s;
        j := i + n + m;
      case TSlice(e, _) =>
        var n := PutUvarint(b, i, |v.elems|);
        SpliceConcat(old(b[..]), i, Leb(|v.elems|), EncElems(g, e, v.elems));
        j := MarshalElems(g, e, v.elems, b, i + n);
      case TArray(m, e, _) => j := MarshalElems(g, e, v.elems, b, i);
      case TPtr(e, _) =>
        PutByte(b, i, if v.VRef? then 1 else 0);
        j := i + 1;
        if v.VRef? {
          SpliceConcat(old(b[..]), i, [1], Enc(g, e, v.v));
          j := MarshalExpr(g, e, v.v, b, i + 1);
        }
      case TMap(kt, vt, _) =>
        var n := PutUvarint(b, i, |v.entries|);
        SpliceConcat(old(b[..]), i, Leb(|v.entries|), EncEntries(g, kt, vt, v.entries));
        j := MarshalEntries(g, kt, vt, v.entries, b, i + n);
      case TStruct(n) =>
        var m := Marshal(g, n, v, b, i);
        j := i + m;
      case TUnion(ms) =>
        if v.VNil? {
          var n := PutUvarint(b, i, 0);
          j := i + n;
        } else {
          var n := PutUvarint(b, i, v.tag + 1);
          SpliceConcat(old(b[..]), i, Leb(v.tag + 1), EncStruct(g, ms[v.tag], v.v));
          var m := Marshal(g, ms[v.tag], v.v, b, i + n);
          j := i + n + m;
        }
      case TSkip =>
        SpliceNothing(b[..], i);
        j := i;
    }
  }

  method PutByte(b: array<byte>, i: nat, c: byte)
    requires i < b.Length
    modifies b
    ensures b[..] == Splice(old(b[..]), i, [c])
  {
    b[i] := c;
  }

  /** The elements of a slice or array: one copy where the branches allow, else a loop. */
  method MarshalElems(g: Gen, e: Ty, vs: seq<Val>, b: array<byte>, i: nat) returns (j: nat)
    requires WfTy(e) && AllHaveTy(g, e, vs) && i + |EncElems(g, e, vs)| <= b.Length
    modifies b
    ensures j == i + |EncElems(g, e, vs)|
    ensures b[..] == Splice(old(b[..]), i, EncElems(g, e, vs))
    decreases vs, 3
  {
    hide HasTy, AllHaveTy, Enc, EncSeq, EncElems, StructImages, RawSeq, WfTy, Splice, BytesOf;
    if IsByte(e) {
      BytesAreElems(g, e, vs);
      var n := Copy(b, i, BytesOf(vs));
      assert BytesOf(vs)[..n] == BytesOf(vs);
      j := i + n;
    } else if RawElems(g, e) && |vs| > 0 {
      RawBlock(g, e, vs);
      var w := RawSeq(g.mode.lay.big, e, |vs|, vs);
      var n := Copy(b, i, w);
      assert w[..n] == w;
      j := i + n;
    } else {
      ElemsAreLoop(g, e, vs);
      if BlitElem(g, e) && |vs| > 0 {
        StructImagesAreLoop(g, e.name, vs);
        var w := StructImages(g, e.name, vs);
        var n := Copy(b, i, w);
        assert w[..n] == w;
        j := i + n;
      } else {
        j := MarshalLoop(g, e, vs, b, i);
      }
    }
  }

  lemma RawBlock(g: Gen, e: Ty, vs: seq<Val>)
    requires RawElems(g, e)
    ensures EncElems(g, e, vs) == RawSeq(g.mode.lay.big, e, |vs|, vs)
  {}

  method MarshalLoop(g: Gen, e: Ty, vs: seq<Val>, b: array<byte>, i: nat) returns (j: nat)
    requires WfTy(e) && AllHaveTy(g, e, vs) && i + |EncSeq(g, e, vs)| <= b.Length
    modifies b
    ensures j == i + |EncSeq(g, e, vs)|
    ensures b[..] == Splice(old(b[..]), i, EncSeq(g, e, vs))
    decreases vs, 2
  {
    hide HasTy, Enc, Splice;
    j := i;
    var k := 0;
    assert vs[0..] == vs;
    while k < |vs|
      invariant 0 <= k <= |vs|
      invariant AllHaveTy(g, e, vs[k..])
      invariant j + |EncSeq(g, e, vs[k..])| == i + |EncSeq(g, e, vs)|
      invariant Splice(b[..], j, EncSeq(g, e, vs[k..])) == Splice(old(b[..]), i, EncSeq(g, e, vs))
    {
      assert vs[k..][1..] == vs[k + 1..];
      SpliceConcat(b[..], j, Enc(g, e, vs[k]), EncSeq(g, e, vs[k + 1..]));
      j := MarshalExpr(g, e, vs[k], b, j);
      k := k + 1;
    }
    SpliceNothing(b[..], j);
  }

  method MarshalEntries(g: Gen, kt: Ty, vt: Ty, es: seq<Entry>, b: array<byte>, i: nat) returns (j: nat)
    requires WfTy(kt) && WfTy(vt) && EntriesHaveTy(g, kt, vt, es) && i + |EncEntries(g, kt, vt, es)| <= b.Length
    modifies b
    ensures j == i + |EncEntries(g, kt, vt, es)|
    ensures b[..] == Splice(old(b[..]), i, EncEntries(g, kt, vt, es))
    decreases es, 3
  {
    hide EntryHasTy, EncEntry, Splice;
    j := i;
    var k := 0;
    assert es[0..] == es;
    while k < |es|
      invariant 0 <= k <= |es|
      invariant EntriesHaveTy(g, kt, vt, es[k..])
      invariant j + |EncEntries(g, kt, vt, es[k..])| == i + |EncEntries(g, kt, vt, es)|
      invariant Splice(b[..], j, EncEntries(g, kt, vt, es[k..])) == Splice(old(b[..]), i, EncEntries(g, kt, vt, es))
    {
      assert es[k..][1..] == es[k + 1..];
      SpliceConcat(b[..], j, EncEntry(g, kt, vt, es[k]), EncEntries(g, kt, vt, es[k + 1..]));
      j := MarshalEntry(g, kt, vt, es[k], b, j);
      k := k + 1;
    }
    SpliceNothing(b[..], j);
  }

  method MarshalEntry(g: Gen, kt: Ty, vt: Ty, e: Entry, b: array<byte>, i: nat) returns (j: nat)
    requires WfTy(kt) && WfTy(vt) && EntryHasTy(g, kt, vt, e) && i + |EncEntry(g, kt, vt, e)| <= b.Length
    modifies b
    ensures j == i + |EncEntry(g, kt, vt, e)|
    ensures b[..] == Splice(old(b[..]), i, EncEntry(g, kt, vt, e))
    decreases e, 3
  {
    hide HasTy, Enc, Splice;
    SpliceConcat(b[..], i, Enc(g, kt, e.k), Enc(g, vt, e.v));
    j := MarshalExpr(g, kt, e.k, b, i);
    j := MarshalExpr(g, vt, e.v, b, j);
  }

  /** A target's Marshal, at `b[i:]`: on any buffer with room for Size bytes it writes
      exactly those, and nothing else. */
  method Marshal(g: Gen, n: Name, v: Val, b: array<byte>, i: nat) returns (m: nat)
    requires HasTy(g, TStruct(n), v) && i + |EncStruct(g, n, v)| <= b.Length
    modifies b
    ensures m == |EncStruct(g, n, v)|
    ensures b[..] == Splice(old(b[..]), i, EncStruct(g, n, v))
    decreases v, 1
  {
    hide HasTy, Enc, Splice, Image;
    FieldsOfTyped(g, n, v);
    StructWf(g, n);
    if Blittable(g, n) {
      var w := Image(g, n, v.fields, v.pad);
      m := Copy(b, i, w);
      assert w[..m] == w;
    } else {
      var tys, fs := FieldsOf(g, n), v.fields;
      var j: nat, k: nat := i, 0;
      assert tys[0..] == tys && fs[0..] == fs;
      while k < |tys|
        invariant 0 <= k <= |tys|
        invariant FieldsHaveTy(g, tys[k..], fs[k..])
        invariant j + |EncFields(g, tys[k..], fs[k..])| == i + |EncFields(g, tys, fs)|
        invariant Splice(b[..], j, EncFields(g, tys[k..], fs[k..])) == Splice(old(b[..]), i, EncFields(g, tys, fs))
      {
        assert tys[k..][1..] == tys[k + 1..] && fs[k..][1..] == fs[k + 1..];
        SpliceConcat(b[..], j, Enc(g, tys[k], fs[k]), EncFields(g, tys[k + 1..], fs[k + 1..]));
        j := MarshalExpr(g, tys[k], fs[k], b, j);
        k := k + 1;
      }
      SpliceNothing(b[..], j);
      m := j - i;
    }
  }

  // ---------------------------------------------------------------------
  // Append
  // ---------------------------------------------------------------------

  method AppendScalar(b: Bytes, k: Kind, n: int) returns (r: Bytes)
    requires InRange(k, n)
    ensures r == b + ScalarBytes(k, n)
  {
    hide LE;
    match Width(k) {
      case 1 =>
        OneByte(Wire(k, n));
        r := b + [if k == KBool then (if n == 1 then 1 else 0) else Wire(k, n)];
      case 2 => AppendsLE(b, Wire(k, n), 0, 0); r := AppendU16(b, Wire(k, n));
      case 4 => AppendsLE(b, 0, Wire(k, n), 0); r := AppendU32(b, Wire(k, n));
      case _ => AppendsLE(b, 0, 0, Wire(k, n)); r := AppendU64(b, Wire(k, n));
    }
  }

  lemma AppendAssoc(b: Bytes, u: Bytes, w: Bytes)
    ensures (b + u) + w == b + (u + w)
  {}

  /** Extends `b` with one value. */
  method AppendExpr(g: Gen, ty: Ty, v: Val, b: Bytes) returns (r: Bytes)
    requires WfTy(ty) && HasTy(g, ty, v)
    ensures r == b + Enc(g, ty, v)
    decreases v, 2
  {
    hide AllHaveTy, EntriesHaveTy, FieldsHaveTy, EncStruct, EncElems, EncEntries, DistinctKeys, ScalarBytes, Leb, Distinct;
    match ty {
      case TScalar(k, _) => r := AppendScalar(b, k, v.n);
      case TStr(_) =>
        r := AppendUvarint(b, |v.s|);
        r := r + v.s;
        AppendAssoc(b, Leb(|v.s|), v.s);
      case TSlice(e, _) =>
        r := AppendUvarint(b, |v.elems|);
        r := AppendElems(g, e, v.elems, r);
        AppendAssoc(b, Leb(|v.elems|), EncElems(g, e, v.elems));
      case TArray(m, e, _) => r := AppendElems(g, e, v.elems, b);
      case TPtr(e, _) =>
        r := b + [if v.VRef? then 1 else 0];
        if v.VRef? {
          r := AppendExpr(g, e, v.v, r);
          AppendAssoc(b, [1], Enc(g, e, v.v));
        }
      case TMap(kt, vt, _) =>
        r := AppendUvarint(b, |v.entries|);
        r := AppendEntries(g, kt, vt, v.entries, r);
        AppendAssoc(b, Leb(|v.entries|), EncEntries(g, kt, vt, v.entries));
      case TStruct(n) => r := Append(g, n, v, b);
      case TUnion(ms) =>
        if v.VNil? {
          r := AppendUvarint(b, 0);
        } else {
          r := AppendUvarint(b, v.tag + 1);
          r := Append(g, ms[v.tag], v.v, r);
          AppendAssoc(b, Leb(v.tag + 1), EncStruct(g, ms[v.tag], v.v));
        }
      case TSkip => r := b;
    }
  }

  method AppendElems(g: Gen, e: Ty, vs: seq<Val>, b: Bytes) returns (r: Bytes)
    requires WfTy(e) && AllHaveTy(g, e, vs)
    ensures r == b + EncElems(g, e, vs)
    decreases vs, 3
  {
    hide HasTy, AllHaveTy, Enc, EncSeq, EncElems, StructImages, RawSeq, WfTy, BytesOf;
    if IsByte(e) {
      BytesAreElems(g, e, vs);
      r := b + BytesOf(vs);
    } else if RawElems(g, e) && |vs| > 0 {
      RawBlock(g, e, vs);
      r := b + RawSeq(g.mode.lay.big, e, |vs|, vs);
    } else {
      ElemsAreLoop(g, e, vs);
      if BlitElem(g, e) && |vs| > 0 {
        StructImagesAreLoop(g, e.name, vs);
        r := b + StructImages(g, e.name, vs);
      } else {
        r := AppendLoop(g, e, vs, b);
      }
    }
  }

  method AppendLoop(g: Gen, e: Ty, vs: seq<Val>, b: Bytes) returns (r: Bytes)
    requires WfTy(e) && AllHaveTy(g, e, vs)
    ensures r == b + EncSeq(g, e, vs)
    decreases vs, 2
  {
    hide HasTy, Enc;
    r := b;
    var k := 0;
    assert vs[0..] == vs;
    while k < |vs|
      invariant 0 <= k <= |vs|
      invariant AllHaveTy(g, e, vs[k..])
      invariant r + EncSeq(g, e, vs[k..]) == b + EncSeq(g, e, vs)
    {
      assert vs[k..][1..] == vs[k + 1..];
      r := AppendExpr(g, e, vs[k], r);
      k := k + 1;
    }
  }

  method AppendEntries(g: Gen, kt: Ty, vt: Ty, es: seq<Entry>, b: Bytes) returns (r: Bytes)
    requires WfTy(kt) && WfTy(vt) && EntriesHaveTy(g, kt, vt, es)
    ensures r == b + EncEntries(g, kt, vt, es)
    decreases es, 3
  {
    hide EntryHasTy, EncEntry;
    r := b;
    var k := 0;
    assert es[0..] == es;
    while k < |es|
      invariant 0 <= k <= |es|
      invariant EntriesHaveTy(g, kt, vt, es[k..])
      invariant r + EncEntries(g, kt, vt, es[k..]) == b + EncEntries(g, kt, vt, es)
    {
      assert es[k..][1..] == es[k + 1..];
      r := AppendEntry(g, kt, vt, es[k], r);
      k := k + 1;
    }
  }

  method AppendEntry(g: Gen, kt: Ty, vt: Ty, e: Entry, b: Bytes) returns (r: Bytes)
    requires WfTy(kt) && WfTy(vt) && EntryHasTy(g, kt, vt, e)
    ensures r == b + EncEntry(g, kt, vt, e)
    decreases e, 3
  {
    hide HasTy, Enc;
    r := AppendExpr(g, kt, e.k, b);
    r := AppendExpr(g, vt, e.v, r);
  }

  /** A target's Append: `b` followed by the bytes Marshal writes. */
  method Append(g: Gen, n: Name, v: Val, b: Bytes) returns (r: Bytes)
    requires HasTy(g, TStruct(n), v)
    ensures r == b + EncStruct(g, n, v)
    decreases v, 1
  {
    hide HasTy, Enc, Image;
    FieldsOfTyped(g, n, v);
    StructWf(g, n);
    if Blittable(g, n) {
      r := b + Image(g, n, v.fields, v.pad);
    } else {
      var tys, fs := FieldsOf(g, n), v.fields;
      r := b;
      var k := 0;
      assert tys[0..] == tys && fs[0..] == fs;
      while k < |tys|
        invariant 0 <= k <= |tys|
        invariant FieldsHaveTy(g, tys[k..], fs[k..])
        invariant r + EncFields(g, tys[k..], fs[k..]) == b + EncFields(g, tys, fs)
      {
        assert tys[k..][1..] == tys[k + 1..] && fs[k..][1..] == fs[k + 1..];
        r := AppendExpr(g, tys[k], fs[k], r);
        k := k + 1;
      }
    }
  }
}
