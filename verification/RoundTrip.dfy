/** Decoding what was encoded: in both modes, into any destination, before any
    trailing bytes. */
module RoundTrip {
  import opened Bytes
  import opened Varint
  import opened Schema
  import opened Memory
  import opened Codec
  import opened Reuse

  // ---------------------------------------------------------------------
  // Bulk copies
  // ---------------------------------------------------------------------

  /** Memory order is wire order. */
  ghost predicate WireOrder(g: Gen) { g.mode.Fast? ==> !g.mode.lay.big }

  /** On a little-endian machine the raw memory of a value is its encoding. */
  lemma {:induction false} RawIsEnc(g: Gen, ty: Ty, v: Val)
    requires WireOrder(g) && MemCopyable(ty) && HasTy(g, ty, v)
    ensures Raw(false, ty, v) == Enc(g, ty, v)
    decreases v
  {
    if ty.TArray? && !RawElems(g, ty.elem) { RawIsLoop(g, ty.elem, v.elems); }
  }

  /** One raw copy of the elements is the element loop. */
  lemma {:induction false} RawIsLoop(g: Gen, e: Ty, vs: seq<Val>)
    requires WireOrder(g) && MemCopyable(e) && AllHaveTy(g, e, vs)
    ensures RawSeq(false, e, |vs|, vs) == EncSeq(g, e, vs)
    decreases vs
  {
    if vs != [] {
      RawIsEnc(g, e, vs[0]);
      RawIsLoop(g, e, vs[1..]);
    }
  }

  /** Fixed-width values have nothing to clean. */
  lemma {:induction false} FixedClean(g: Gen, ty: Ty, v: Val, collapse: bool)
    requires IsFixedWidth(ty) && HasTy(g, ty, v)
    ensures Clean(v, collapse) == v
    decreases v, 0
  {
    if ty.TArray? { FixedCleanSeq(g, ty.elem, v.elems, collapse); }
  }

  lemma {:induction false} FixedCleanSeq(g: Gen, e: Ty, vs: seq<Val>, collapse: bool)
    requires IsFixedWidth(e) && AllHaveTy(g, e, vs)
    ensures CleanSeq(vs, collapse) == vs
    decreases vs
  {
    if vs != [] {
      FixedClean(g, e, vs[0], collapse);
      FixedCleanSeq(g, e, vs[1..], collapse);
    }
  }

  lemma {:induction false} FixedFieldsClean(g: Gen, tys: seq<Ty>, vs: seq<Val>, collapse: bool)
    requires FieldsHaveTy(g, tys, vs) && forall i :: 0 <= i < |tys| ==> IsFixedWidth(tys[i])
    ensures CleanSeq(vs, collapse) == vs
  {
    if vs != [] {
      FixedClean(g, tys[0], vs[0], collapse);
      FixedFieldsClean(g, tys[1..], vs[1..], collapse);
    }
  }

  // ---------------------------------------------------------------------
  // When the length guard lets an encoding through
  // ---------------------------------------------------------------------

  /** No collection announces more elements than bytes follow its prefix, with `k`
      bytes after the value itself. */
  ghost predicate Fits(g: Gen, ty: Ty, v: Val, k: nat)
    decreases v, 1
  {
    match ty
    case TSlice(e, _) =>
      v.VSlice? ==> |v.elems| <= |EncElems(g, e, v.elems)| + k && FitsSeq(g, e, v.elems, k)
    case TArray(_, e, _) => v.VArr? ==> FitsSeq(g, e, v.elems, k)
    case TPtr(e, _) => v.VRef? ==> Fits(g, e, v.v, k)
    case TMap(kt, vt, _) =>
      v.VMap? ==> |v.entries| <= |EncEntries(g, kt, vt, v.entries)| + k && FitsEntries(g, kt, vt, v.entries, k)
    case TStruct(n) => FitsStruct(g, n, v, k)
    case TUnion(ms) => v.VMem? && v.tag < |ms| ==> FitsStruct(g, ms[v.tag], v.v, k)
    case _ => true
  }

  ghost predicate FitsStruct(g: Gen, n: Name, v: Val, k: nat)
    decreases v, 0
  {
    v.VStruct? && |v.fields| == |FieldsOf(g, n)| ==> FitsFields(g, FieldsOf(g, n), v.fields, k)
  }

  ghost predicate FitsSeq(g: Gen, e: Ty, vs: seq<Val>, k: nat)
    decreases vs, 0
  {
    vs == [] || (Fits(g, e, vs[0], |EncSeq(g, e, vs[1..])| + k) && FitsSeq(g, e, vs[1..], k))
  }

  ghost predicate FitsFields(g: Gen, tys: seq<Ty>, vs: seq<Val>, k: nat)
    requires |tys| == |vs|
    decreases vs, 0
  {
    vs == [] || (Fits(g, tys[0], vs[0], |EncFields(g, tys[1..], vs[1..])| + k) && FitsFields(g, tys[1..], vs[1..], k))
  }

  ghost predicate FitsEntry(g: Gen, kt: Ty, vt: Ty, e: Entry, k: nat)
    decreases e, 0
  {
    Fits(g, kt, e.k, |Enc(g, vt, e.v)| + k) && Fits(g, vt, e.v, k)
  }

  ghost predicate FitsEntries(g: Gen, kt: Ty, vt: Ty, es: seq<Entry>, k: nat)
    decreases es, 0
  {
    es == [] || (FitsEntry(g, kt, vt, es[0], |EncEntries(g, kt, vt, es[1..])| + k) && FitsEntries(g, kt, vt, es[1..], k))
  }

  lemma {:induction false} FixedFits(g: Gen, ty: Ty, v: Val, k: nat)
    requires IsFixedWidth(ty)
    ensures Fits(g, ty, v, k)
    decreases v, 1
  {
    if ty.TArray? && v.VArr? { FixedFitsSeq(g, ty.elem, v.elems, k); }
  }

  lemma {:induction false} FixedFitsSeq(g: Gen, e: Ty, vs: seq<Val>, k: nat)
    requires IsFixedWidth(e)
    ensures FitsSeq(g, e, vs, k)
    decreases vs, 0
  {
    if vs != [] {
      FixedFits(g, e, vs[0], |EncSeq(g, e, vs[1..])| + k);
      FixedFitsSeq(g, e, vs[1..], k);
    }
  }

  lemma {:induction false} FixedFieldsFit(g: Gen, tys: seq<Ty>, vs: seq<Val>, k: nat)
    requires |tys| == |vs| && forall i :: 0 <= i < |tys| ==> IsFixedWidth(tys[i])
    ensures FitsFields(g, tys, vs, k)
    decreases vs, 0
  {
    if vs != [] {
      FixedFits(g, tys[0], vs[0], |EncFields(g, tys[1..], vs[1..])| + k);
      FixedFieldsFit(g, tys[1..], vs[1..], k);
    }
  }

  // ---------------------------------------------------------------------
  // The round trip
  // ---------------------------------------------------------------------

  /** A decode that had `n` bytes of `v` to read: it gives `v` back with empty
      collections nil, unless safe mode's length guard stops it. */
  ghost predicate Restores(g: Gen, fits: bool, r: Out<Val>, v: Val, n: nat) {
    if g.mode.Safe? && !fits then r.e == ShortBuffer
    else r.e == NoErr && r.n == n && View(r.v) == Norm(v)
  }

  ghost predicate RestoresSeq(g: Gen, fits: bool, r: Out<seq<Val>>, vs: seq<Val>, n: nat) {
    if g.mode.Safe? && !fits then r.e == ShortBuffer
    else r.e == NoErr && r.n == n && CleanSeq(r.v, false) == CleanSeq(vs, true)
  }

  lemma {:induction false} RoundTrips(g: Gen, ty: Ty, d: Val, v: Val, s: Bytes)
    requires WfTy(ty) && HasTy(g, ty, v)
    ensures Restores(g, Fits(g, ty, v, |s|), DecInto(g, ty, d, Enc(g, ty, v) + s), v, |Enc(g, ty, v)|)
    decreases v, 1
  {
    hide DecSliceInto, DecArrayInto, DecPtrInto, DecMapInto, DecStructInto, DecUnionInto;
    hide EncElems, EncEntries, EncStruct, FitsSeq, FitsEntries, FitsStruct;
    match ty
    case TScalar(_, _) => LeafRoundTrips(g, ty, d, v, s);
    case TStr(_) => LeafRoundTrips(g, ty, d, v, s);
    case TSlice(e, _) => SliceRoundTrips(g, e, d, v, s);
    case TArray(m, e, _) => ArrayRoundTrips(g, m, e, d, v, s);
    case TPtr(e, _) => PtrRoundTrips(g, e, d, v, s);
    case TMap(kt, vt, _) => MapRoundTrips(g, kt, vt, d, v, s);
    case TStruct(n) => StructRoundTrips(g, n, d, v, s);
    case TUnion(ms) => UnionRoundTrips(g, ms, d, v, s);
    case TSkip => LeafRoundTrips(g, ty, d, v, s);
  }

  lemma LeafRoundTrips(g: Gen, ty: Ty, d: Val, v: Val, s: Bytes)
    requires (ty.TScalar? || ty.TStr? || ty.TSkip?) && HasTy(g, ty, v)
    ensures Restores(g, Fits(g, ty, v, |s|), DecInto(g, ty, d, Enc(g, ty, v) + s), v, |Enc(g, ty, v)|)
  {
    hide ScalarBytes, ScalarOf, InRange;
    if ty.TScalar? {
      ScalarRoundTrip(ty.kind, v.n);
      assert (Enc(g, ty, v) + s)[..Width(ty.kind)] == ScalarBytes(ty.kind, v.n);
    }
    if ty.TStr? { StrRoundTrips(g, d, v, s); }
  }

  lemma {:induction false} PtrRoundTrips(g: Gen, e: Ty, d: Val, v: Val, s: Bytes)
    requires WfTy(e) && HasTy(g, TPtr(e), v)
    ensures v.VNil? ==> Restores(g, true, DecPtrInto(g, e, d, [0] + s), v, 1)
    ensures v.VRef? ==>
              Restores(g, Fits(g, e, v.v, |s|), DecPtrInto(g, e, d, [1] + Enc(g, e, v.v) + s), v, 1 + |Enc(g, e, v.v)|)
    decreases v, 0
  {
    hide DecInto, Enc, Fits;
    if v.VRef? {
      var x := Enc(g, e, v.v);
      assert ([1] + x + s)[1..] == x + s;
      RoundTrips(g, e, Pointee(d, Zero(g, e)), v.v, s);
    }
  }

  lemma StrRoundTrips(g: Gen, d: Val, v: Val, s: Bytes)
    requires HasTy(g, TStr(Builtin), v)
    ensures DecInto(g, TStr(Builtin), d, Enc(g, TStr(Builtin), v) + s) == Out(v, |Enc(g, TStr(Builtin), v)|, NoErr)
  {
    var p := Leb(|v.s|);
    var b := Enc(g, TStr(Builtin), v) + s;
    assert b == p + (v.s + s);
    UvarintInvertsLeb(|v.s|, v.s + s);
    assert b[|p|..|p| + |v.s|] == v.s;
  }

  /** The announced count, and what follows it. */
  lemma ReadCount(n: nat, x: Bytes, s: Bytes)
    requires n <= MAX_LEN
    ensures Uvarint(Leb(n) + x + s) == (n, |Leb(n)|)
    ensures (Leb(n) + x + s)[|Leb(n)|..] == x + s
  {
    assert Leb(n) + x + s == Leb(n) + (x + s);
    UvarintInvertsLeb(n, x + s);
  }

  /** The bytes of a []byte or [N]byte. */
  lemma BytesRoundTrip(g: Gen, vs: seq<Val>, s: Bytes)
    requires AllHaveTy(g, BYTE, vs)
    ensures |EncElems(g, BYTE, vs)| == |vs|
    ensures ByteVals((EncElems(g, BYTE, vs) + s)[..|vs|]) == vs
    ensures CleanSeq(vs, true) == vs && CleanSeq(vs, false) == vs
  {
    ByteRaw(g, false, vs);
    ByteRaw(g, g.mode.Fast? && g.mode.lay.big, vs);
    LoadRawSeq(g, false, BYTE, vs);
    FixedCleanSeq(g, BYTE, vs, true);
    FixedCleanSeq(g, BYTE, vs, false);
    assert (EncElems(g, BYTE, vs) + s)[..|vs|] == EncElems(g, BYTE, vs);
  }

  lemma ByteOrder(x: Bytes)
    requires |x| == 1
    ensures Reverse(x) == x
  {
    assert Reverse(x[1..]) == [];
  }

  /** Single bytes have no byte order. */
  lemma {:induction false} ByteRaw(g: Gen, big: bool, vs: seq<Val>)
    requires AllHaveTy(g, BYTE, vs)
    ensures RawSeq(big, BYTE, |vs|, vs) == EncSeq(g, BYTE, vs)
    decreases |vs|
  {
    if vs != [] {
      ByteRaw(g, big, vs[1..]);
      ByteOrder(ScalarBytes(KUint8, vs[0].n));
    }
  }

  lemma {:induction false} SliceRoundTrips(g: Gen, e: Ty, d: Val, v: Val, s: Bytes)
    requires WfTy(e) && HasTy(g, TSlice(e), v)
    ensures var x := EncElems(g, e, v.elems);
            Restores(g, |v.elems| <= |x| + |s| && FitsSeq(g, e, v.elems, |s|),
                     DecSliceInto(g, e, d, Leb(|v.elems|) + x + s), v, |Leb(|v.elems|)| + |x|)
    decreases v, 0
  {
    hide DecSliceInto, EncElems, FitsSeq, AllHaveTy, Restores, Leb;
    if v.elems == [] {
      EmptySlice(g, e, d, v, s);
    } else if IsByte(e) {
      BytesSlice(g, d, v, s);
    } else {
      var base := Grow(d, |v.elems|, Zero(g, e));
      ElemsRoundTrip(g, e, base.elems, v.elems, s);
      ElemsSlice(g, e, d, v, s);
    }
  }

  lemma EmptySlice(g: Gen, e: Ty, d: Val, v: Val, s: Bytes)
    requires v.VSlice? && v.elems == []
    ensures var x := EncElems(g, e, []);
            Restores(g, FitsSeq(g, e, [], |s|), DecSliceInto(g, e, d, Leb(0) + x + s), v, |Leb(0)| + |x|)
  {
    hide EncElems, FitsSeq, Uvarint, Leb;
    ElemsNil(g, e, |s|);
    ReadCount(0, [], s);
  }

  lemma BytesSlice(g: Gen, d: Val, v: Val, s: Bytes)
    requires HasTy(g, TSlice(BYTE), v) && v.elems != []
    ensures var x := EncElems(g, BYTE, v.elems);
            |v.elems| <= |x| + |s| && FitsSeq(g, BYTE, v.elems, |s|) &&
            Restores(g, true, DecSliceInto(g, BYTE, d, Leb(|v.elems|) + x + s), v, |Leb(|v.elems|)| + |x|)
  {
    hide EncElems, LoadSeq, ByteVals, Uvarint, FitsSeq, Leb, AllHaveTy;
    var n, x := |v.elems|, EncElems(g, BYTE, v.elems);
    ReadCount(n, x, s);
    BytesRoundTrip(g, v.elems, s);
    FixedFitsSeq(g, BYTE, v.elems, |s|);
    assert (Leb(n) + x + s)[|Leb(n)|..|Leb(n)| + n] == (x + s)[..n];
  }

  lemma ElemsSlice(g: Gen, e: Ty, d: Val, v: Val, s: Bytes)
    requires v.VSlice? && !v.isNil && 0 < |v.elems| <= MAX_LEN && !IsByte(e)
    requires var x := EncElems(g, e, v.elems);
             RestoresSeq(g, FitsSeq(g, e, v.elems, |s|), DecElemsInto(g, e, Grow(d, |v.elems|, Zero(g, e)).elems, x + s), v.elems, |x|)
    ensures var x := EncElems(g, e, v.elems);
            Restores(g, |v.elems| <= |x| + |s| && FitsSeq(g, e, v.elems, |s|),
                     DecSliceInto(g, e, d, Leb(|v.elems|) + x + s), v, |Leb(|v.elems|)| + |x|)
  {
    hide DecElemsInto, EncElems, Grow, Uvarint, FitsSeq, Leb;
    ReadCount(|v.elems|, EncElems(g, e, v.elems), s);
  }

  lemma ElemsNil(g: Gen, e: Ty, k: nat)
    ensures EncElems(g, e, []) == [] && FitsSeq(g, e, [], k)
  {}

  lemma {:induction false} ArrayRoundTrips(g: Gen, m: nat, e: Ty, d: Val, v: Val, s: Bytes)
    requires WfTy(e) && HasTy(g, TArray(m, e), v)
    ensures var x := EncElems(g, e, v.elems);
            Restores(g, FitsSeq(g, e, v.elems, |s|), DecArrayInto(g, m, e, d, x + s), v, |x|)
    decreases v, 0
  {
    hide DecElemsInto, EncElems, LoadSeq, FitsSeq;
    if IsByte(e) {
      BytesRoundTrip(g, v.elems, s);
      FixedFitsSeq(g, e, v.elems, |s|);
    } else {
      ElemsRoundTrip(g, e, ArrElems(d, m, Zero(g, e)), v.elems, s);
    }
  }

  lemma {:induction false} ElemsRoundTrip(g: Gen, e: Ty, ds: seq<Val>, vs: seq<Val>, s: Bytes)
    requires WfTy(e) && AllHaveTy(g, e, vs) && |ds| == |vs|
    ensures RestoresSeq(g, FitsSeq(g, e, vs, |s|), DecElemsInto(g, e, ds, EncElems(g, e, vs) + s), vs, |EncElems(g, e, vs)|)
    decreases vs, 1
  {
    hide DecNInto, EncSeq, Enc;
    if RawElems(g, e) {
      MemCopyableIsFixed(e);
      LoadRawSeq(g, g.mode.lay.big, e, vs);
      FixedCleanSeq(g, e, vs, true);
      FixedCleanSeq(g, e, vs, false);
      var x := EncElems(g, e, vs);
      assert (x + s)[..|x|] == x;
      FixedFitsSeq(g, e, vs, |s|);
    } else {
      NRoundTrip(g, e, ds, vs, s);
    }
  }

  lemma {:induction false} KeyFits(g: Gen, ty: Ty, v: Val, k: nat)
    requires KeyTy(ty)
    ensures Fits(g, ty, v, k)
    decreases v, 1
  {
    if ty.TArray? && v.VArr? { KeysFit(g, ty.elem, v.elems, k); }
  }

  lemma {:induction false} KeysFit(g: Gen, e: Ty, vs: seq<Val>, k: nat)
    requires KeyTy(e)
    ensures FitsSeq(g, e, vs, k)
    decreases vs, 0
  {
    if vs != [] {
      KeyFits(g, e, vs[0], |EncSeq(g, e, vs[1..])| + k);
      KeysFit(g, e, vs[1..], k);
    }
  }

  lemma {:induction false} NRoundTrip(g: Gen, e: Ty, ds: seq<Val>, vs: seq<Val>, s: Bytes)
    requires WfTy(e) && AllHaveTy(g, e, vs) && |ds| == |vs|
    ensures RestoresSeq(g, FitsSeq(g, e, vs, |s|), DecNInto(g, e, ds, EncSeq(g, e, vs) + s), vs, |EncSeq(g, e, vs)|)
    decreases vs, 0
  {
    hide DecNInto, DecInto, Enc, Fits, Restores, Clean, HasTy;
    NIntoNil(g, e, EncSeq(g, e, []) + s);
    if vs != [] {
      var x, t := Enc(g, e, vs[0]), EncSeq(g, e, vs[1..]) + s;
      SplitFront(EncSeq(g, e, vs), x, EncSeq(g, e, vs[1..]), s);
      RoundTrips(g, e, ds[0], vs[0], t);
      NRoundTrip(g, e, ds[1..], vs[1..], s);
      var r, q := DecInto(g, e, ds[0], x + t), DecNInto(g, e, ds[1..], t);
      RestoresCons(g, Fits(g, e, vs[0], |t|), FitsSeq(g, e, vs[1..], |s|), r, q, vs, |x|, |EncSeq(g, e, vs[1..])|);
      NIntoStep(g, e, ds, x + t);
    }
  }

  /** One more value in front of values that restore. */
  lemma RestoresCons(g: Gen, fits: bool, fits': bool, r: Out<Val>, q: Out<seq<Val>>, vs: seq<Val>, n: nat, n': nat)
    requires vs != [] && Restores(g, fits, r, vs[0], n) && RestoresSeq(g, fits', q, vs[1..], n')
    ensures r.e == NoErr ==> r.n == n
    ensures r.e == NoErr ==> RestoresSeq(g, fits && fits', Out([r.v] + q.v, r.n + q.n, q.e), vs, n + n')
    ensures r.e != NoErr ==> g.mode.Safe? && !fits && r.e == ShortBuffer
  {}

  /** A concatenation taken apart after its first part. */
  lemma SplitFront(w: Bytes, x: Bytes, y: Bytes, s: Bytes)
    requires w == x + y
    ensures w + s == x + (y + s)
    ensures (x + (y + s))[|x|..] == y + s
  {}

  lemma {:induction false} FieldsRoundTrip(g: Gen, tys: seq<Ty>, ds: seq<Val>, vs: seq<Val>, s: Bytes)
    requires WfFields(tys) && FieldsHaveTy(g, tys, vs) && |ds| == |vs|
    ensures RestoresSeq(g, FitsFields(g, tys, vs, |s|), DecFieldsInto(g, tys, ds, EncFields(g, tys, vs) + s), vs, |EncFields(g, tys, vs)|)
    decreases vs, 0
  {
    hide DecFieldsInto, DecInto, Enc, Fits, Restores, Clean, HasTy;
    FieldsIntoNil(g, EncFields(g, [], []) + s);
    if vs != [] {
      var x, t := Enc(g, tys[0], vs[0]), EncFields(g, tys[1..], vs[1..]) + s;
      SplitFront(EncFields(g, tys, vs), x, EncFields(g, tys[1..], vs[1..]), s);
      RoundTrips(g, tys[0], ds[0], vs[0], t);
      FieldsRoundTrip(g, tys[1..], ds[1..], vs[1..], s);
      var r, q := DecInto(g, tys[0], ds[0], x + t), DecFieldsInto(g, tys[1..], ds[1..], t);
      RestoresCons(g, Fits(g, tys[0], vs[0], |t|), FitsFields(g, tys[1..], vs[1..], |s|), r, q, vs, |x|, |EncFields(g, tys[1..], vs[1..])|);
      FieldsIntoStep(g, tys, ds, x + t);
    }
  }

  lemma {:induction false} StructRoundTrips(g: Gen, n: Name, d: Val, v: Val, s: Bytes)
    requires HasTy(g, TStruct(n), v)
    ensures Restores(g, FitsStruct(g, n, v, |s|), DecStructInto(g, n, d, EncStruct(g, n, v) + s), v, |EncStruct(g, n, v)|)
    decreases v, 0
  {
    hide DecFieldsInto, EncFields, FitsFields, LoadFields, Image;
    StructWf(g, n);
    if Blittable(g, n) {
      MemmoveRestores(g, n, v.fields, v.pad);
      assert (EncStruct(g, n, v) + s)[..Sizeof(g, n)] == EncStruct(g, n, v);
      FixedFieldsClean(g, FieldsOf(g, n), v.fields, true);
      FixedFieldsClean(g, FieldsOf(g, n), v.fields, false);
      FixedFieldsFit(g, FieldsOf(g, n), v.fields, |s|);
    } else {
      FieldsRoundTrip(g, FieldsOf(g, n), FieldVals(g, d, n), v.fields, s);
    }
  }

  lemma {:induction false} UnionRoundTrips(g: Gen, ms: seq<Name>, d: Val, v: Val, s: Bytes)
    requires WfTy(TUnion(ms)) && HasTy(g, TUnion(ms), v)
    ensures v.VNil? ==> Restores(g, true, DecUnionInto(g, ms, d, Leb(0) + s), v, 1)
    ensures v.VMem? ==>
              var x := EncStruct(g, ms[v.tag], v.v);
              Restores(g, FitsStruct(g, ms[v.tag], v.v, |s|), DecUnionInto(g, ms, d, Leb(v.tag + 1) + x + s), v, |Leb(v.tag + 1)| + |x|)
    decreases v, 0
  {
    hide DecUnionInto, DecStructInto, EncStruct, FitsStruct, Restores, Zero;
    if v.VMem? {
      var m := ms[v.tag];
      StructRoundTrips(g, m, Member(d, v.tag, Zero(g, TStruct(m))), v.v, s);
      MemberRoundTrips(g, ms, d, v.tag, v.v, s);
    } else {
      NilRoundTrips(g, ms, d, s);
    }
  }

  lemma NilRoundTrips(g: Gen, ms: seq<Name>, d: Val, s: Bytes)
    ensures Restores(g, true, DecUnionInto(g, ms, d, Leb(0) + s), VNil, 1)
  {
    hide Uvarint;
    LebZero();
    ReadCount(0, [], s);
    assert Leb(0) + [] + s == Leb(0) + s;
  }

  lemma MemberRoundTrips(g: Gen, ms: seq<Name>, d: Val, t: nat, v: Val, s: Bytes)
    requires t < |ms| <= MAX_LEN
    requires var x := EncStruct(g, ms[t], v);
             Restores(g, FitsStruct(g, ms[t], v, |s|),
                      DecStructInto(g, ms[t], Member(d, t, Zero(g, TStruct(ms[t]))), x + s), v, |x|)
    ensures var x := EncStruct(g, ms[t], v);
            Restores(g, FitsStruct(g, ms[t], v, |s|), DecUnionInto(g, ms, d, Leb(t + 1) + x + s), VMem(t, v), |Leb(t + 1)| + |x|)
  {
    hide DecStructInto, EncStruct, FitsStruct, Uvarint, Leb, Zero;
    ReadCount(t + 1, EncStruct(g, ms[t], v), s);
  }

  lemma LebZero()
    ensures Leb(0) == [0]
  {}

  // ---------------------------------------------------------------------
  // Maps
  // ---------------------------------------------------------------------

  /** `r` is `acc` followed by the entries `es`, cleaned values, same keys. */
  ghost predicate Extends(acc: seq<Entry>, es: seq<Entry>, r: seq<Entry>) {
    && |r| == |acc| + |es|
    && r[..|acc|] == acc
    && forall i :: 0 <= i < |es| ==> CleanEntry(r[|acc| + i], false) == CleanEntry(es[i], true)
  }

  ghost predicate RestoresPair(g: Gen, fits: bool, r: Out<Entry>, e: Entry, n: nat) {
    if g.mode.Safe? && !fits then r.e == ShortBuffer
    else r.e == NoErr && r.n == n && r.v.k == e.k && CleanEntry(r.v, false) == CleanEntry(e, true)
  }

  lemma {:induction false} PairRoundTrip(g: Gen, kt: Ty, vt: Ty, e: Entry, s: Bytes)
    requires KeyTy(kt) && WfTy(kt) && WfTy(vt) && HasTy(g, kt, e.k) && HasTy(g, vt, e.v)
    ensures var r := DecPairInto(g, kt, vt, EncEntry(g, kt, vt, e) + s);
            RestoresPair(g, FitsEntry(g, kt, vt, e, |s|), r, e, |EncEntry(g, kt, vt, e)|)
    decreases e, 0
  {
    hide DecInto, Enc, Fits;
    var x, y := Enc(g, kt, e.k), Enc(g, vt, e.v);
    assert EncEntry(g, kt, vt, e) + s == x + (y + s);
    assert (x + (y + s))[|x|..] == y + s;
    RoundTrips(g, kt, Zero(g, kt), e.k, y + s);
    RoundTrips(g, vt, Zero(g, vt), e.v, s);
    KeyFits(g, kt, e.k, |y| + |s|);
    KeyIsClean(g, kt, Zero(g, kt), x + (y + s));
    KeyClean(g, kt, e.k, true);
    KeyClean(g, kt, e.k, false);
  }

  ghost predicate RestoresEntries(g: Gen, fits: bool, acc: seq<Entry>, es: seq<Entry>, r: Out<seq<Entry>>, n: nat) {
    if g.mode.Safe? && !fits then r.e == ShortBuffer
    else r.e == NoErr && r.n == n && Extends(acc, es, r.v)
  }

  /** The keys of `es` are distinct and none is in `acc` yet. */
  ghost predicate FreshKeys(acc: seq<Entry>, es: seq<Entry>) {
    DistinctKeys(es) && forall i :: 0 <= i < |es| ==> !HasKey(acc, es[i].k)
  }

  lemma FreshKeysNext(acc: seq<Entry>, e: Entry, es: seq<Entry>)
    requires es != [] && FreshKeys(acc, es) && e.k == es[0].k
    ensures MapSet(acc, e.k, e.v) == acc + [e] && FreshKeys(acc + [e], es[1..])
  {
    assert es[0].k == e.k;
    MapSetNew(acc, e.k, e.v);
    MapSetKeys(acc, e.k, e.v);
    forall i | 0 <= i < |es| - 1 ensures !HasKey(acc + [e], es[1..][i].k) {
      assert es[1..][i] == es[i + 1];
    }
  }

  lemma {:induction false} EntriesRoundTrip(g: Gen, kt: Ty, vt: Ty, acc: seq<Entry>, es: seq<Entry>, s: Bytes)
    requires KeyTy(kt) && WfTy(kt) && WfTy(vt) && EntriesHaveTy(g, kt, vt, es) && FreshKeys(acc, es)
    ensures RestoresEntries(g, FitsEntries(g, kt, vt, es, |s|), acc, es,
                            DecEntriesInto(g, kt, vt, |es|, acc, EncEntries(g, kt, vt, es) + s), |EncEntries(g, kt, vt, es)|)
    decreases es, 0
  {
    hide DecEntriesInto, DecPairInto, EncEntry, FitsEntry, MapSet, FreshKeys, Extends, CleanEntry, HasTy;
    EntriesIntoNil(g, kt, vt, acc, s);
    assert [] + s == s;
    ExtendsNil(acc);
    if es != [] {
      var x, t := EncEntry(g, kt, vt, es[0]), EncEntries(g, kt, vt, es[1..]) + s;
      PairRoundTrip(g, kt, vt, es[0], t);
      var p := DecPairInto(g, kt, vt, x + t);
      if p.e == NoErr {
        FreshKeysNext(acc, p.v, es);
        EntriesRoundTrip(g, kt, vt, acc + [p.v], es[1..], s);
      }
      EntriesCons(g, kt, vt, acc, es, s);
    }
  }

  /** One more pair in front of entries that restore. */
  lemma EntriesCons(g: Gen, kt: Ty, vt: Ty, acc: seq<Entry>, es: seq<Entry>, s: Bytes)
    requires es != []
    requires var x, t := EncEntry(g, kt, vt, es[0]), EncEntries(g, kt, vt, es[1..]) + s;
             var p := DecPairInto(g, kt, vt, x + t);
             && RestoresPair(g, FitsEntry(g, kt, vt, es[0], |t|), p, es[0], |x|)
             && (p.e == NoErr ==>
                   && MapSet(acc, p.v.k, p.v.v) == acc + [p.v]
                   && RestoresEntries(g, FitsEntries(g, kt, vt, es[1..], |s|), acc + [p.v], es[1..],
                                      DecEntriesInto(g, kt, vt, |es| - 1, acc + [p.v], t), |EncEntries(g, kt, vt, es[1..])|))
    ensures RestoresEntries(g, FitsEntries(g, kt, vt, es, |s|), acc, es,
                            DecEntriesInto(g, kt, vt, |es|, acc, EncEntries(g, kt, vt, es) + s), |EncEntries(g, kt, vt, es)|)
  {
    hide DecPairInto, EncEntry, FitsEntry, MapSet, Extends, CleanEntry;
    var x, t := EncEntry(g, kt, vt, es[0]), EncEntries(g, kt, vt, es[1..]) + s;
    SplitFront(EncEntries(g, kt, vt, es), x, EncEntries(g, kt, vt, es[1..]), s);
    var p := DecPairInto(g, kt, vt, x + t);
    EntriesIntoStep(g, kt, vt, |es|, acc, x + t);
    if p.e == NoErr {
      var r := DecEntriesInto(g, kt, vt, |es| - 1, acc + [p.v], t);
      if r.e == NoErr { ExtendsCons(acc, p.v, es, r.v); }
    }
  }

  lemma ExtendsNil(acc: seq<Entry>)
    ensures Extends(acc, [], acc)
  {}

  lemma ExtendsCons(acc: seq<Entry>, e: Entry, es: seq<Entry>, r: seq<Entry>)
    requires es != [] && Extends(acc + [e], es[1..], r) && CleanEntry(e, false) == CleanEntry(es[0], true)
    ensures Extends(acc, es, r)
  {
    assert r[..|acc|] == r[..|acc| + 1][..|acc|];
    forall i | 0 <= i < |es| ensures CleanEntry(r[|acc| + i], false) == CleanEntry(es[i], true) {
      if i == 0 {
        assert r[|acc|] == r[..|acc| + 1][|acc|];
      } else {
        assert es[i] == es[1..][i - 1];
        assert r[|acc| + i] == r[|acc + [e]| + (i - 1)];
      }
    }
  }

  lemma {:induction false} MapRoundTrips(g: Gen, kt: Ty, vt: Ty, d: Val, v: Val, s: Bytes)
    requires WfTy(TMap(kt, vt)) && HasTy(g, TMap(kt, vt), v)
    ensures var x := EncEntries(g, kt, vt, v.entries);
            Restores(g, |v.entries| <= |x| + |s| && FitsEntries(g, kt, vt, v.entries, |s|),
                     DecMapInto(g, kt, vt, d, Leb(|v.entries|) + x + s), v, |Leb(|v.entries|)| + |x|)
    decreases v, 0
  {
    hide DecEntriesInto, EncEntries, FitsEntries, Uvarint;
    var es := v.entries;
    var x := EncEntries(g, kt, vt, es);
    ReadCount(|es|, x, s);
    if es == [] {
      EntriesNil(g, kt, vt, |s|);
    } else {
      EntriesRoundTrip(g, kt, vt, [], es, s);
      var r := DecEntriesInto(g, kt, vt, |es|, [], x + s);
      if r.e == NoErr { assert CleanEntries(r.v, false) == CleanEntries(es, true); }
    }
  }

  lemma EntriesNil(g: Gen, kt: Ty, vt: Ty, k: nat)
    ensures EncEntries(g, kt, vt, []) == [] && FitsEntries(g, kt, vt, [], k)
  {}
}
