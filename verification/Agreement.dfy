/** The two modes write and read the same bytes wherever no reachable struct is copied
    as raw memory. */
module Agreement {
  import opened Bytes
  import opened Schema
  import opened Memory
  import opened Codec
  import opened Reuse
  import opened RoundTrip

  /** The same schema generated with -safe. */
  function WithSafe(g: Gen): (h: Gen) {
    RanksSame(g);
    Gen(g.structs, g.rank, g.height, Safe)
  }

  lemma RanksSame(g: RawGen)
    ensures forall tys :: FieldsRank(Gen(g.structs, g.rank, g.height, Safe), tys) == FieldsRank(g, tys)
  {
    forall tys ensures FieldsRank(Gen(g.structs, g.rank, g.height, Safe), tys) == FieldsRank(g, tys) { FieldsRankSame(g, tys); }
  }

  lemma {:induction false} FieldsRankSame(g: RawGen, tys: seq<Ty>)
    ensures FieldsRank(Gen(g.structs, g.rank, g.height, Safe), tys) == FieldsRank(g, tys)
  {
    if tys != [] {
      TyRankSame(g, tys[0]);
      FieldsRankSame(g, tys[1..]);
    }
  }

  lemma {:induction false} TyRankSame(g: RawGen, ty: Ty)
    ensures TyRank(Gen(g.structs, g.rank, g.height, Safe), ty) == TyRank(g, ty)
  {
    if ty.TArray? { TyRankSame(g, ty.elem); }
  }

  // ---------------------------------------------------------------------
  // The same values
  // ---------------------------------------------------------------------

  lemma {:induction false} TypedInBoth(g: Gen, ty: Ty, v: Val)
    ensures HasTy(WithSafe(g), ty, v) == HasTy(g, ty, v)
    decreases v, 1
  {
    hide AllHaveTy, FieldsHaveTy, EntriesHaveTy, WithSafe;
    SameStructs(g);
    match ty
    case TSlice(e, _) => if v.VSlice? { AllTypedInBoth(g, e, v.elems); AllTypedInBoth(g, e, v.stale); }
    case TArray(_, e, _) => if v.VArr? { AllTypedInBoth(g, e, v.elems); }
    case TPtr(e, _) => if v.VRef? { TypedInBoth(g, e, v.v); }
    case TMap(kt, vt, _) => if v.VMap? { EntriesTypedInBoth(g, kt, vt, v.entries); }
    case TStruct(n) => if v.VStruct? { FieldsTypedInBoth(g, FieldsOf(g, n), v.fields); }
    case TUnion(ms) => if v.VMem? && v.tag < |ms| { TypedInBoth(g, TStruct(ms[v.tag]), v.v); }
    case _ =>
  }

  lemma SameStructs(g: Gen)
    ensures WithSafe(g).structs == g.structs && WithSafe(g).mode == Safe
    ensures forall n :: FieldsOf(WithSafe(g), n) == FieldsOf(g, n)
  {}

  lemma {:induction false} AllTypedInBoth(g: Gen, e: Ty, vs: seq<Val>)
    ensures AllHaveTy(WithSafe(g), e, vs) == AllHaveTy(g, e, vs)
    decreases vs, 0
  {
    hide HasTy, WithSafe;
    if vs != [] {
      TypedInBoth(g, e, vs[0]);
      AllTypedInBoth(g, e, vs[1..]);
    }
  }

  lemma {:induction false} FieldsTypedInBoth(g: Gen, tys: seq<Ty>, vs: seq<Val>)
    ensures FieldsHaveTy(WithSafe(g), tys, vs) == FieldsHaveTy(g, tys, vs)
    decreases vs, 0
  {
    hide HasTy, WithSafe;
    if vs != [] && |tys| == |vs| {
      TypedInBoth(g, tys[0], vs[0]);
      FieldsTypedInBoth(g, tys[1..], vs[1..]);
    }
  }

  lemma {:induction false} EntriesTypedInBoth(g: Gen, kt: Ty, vt: Ty, es: seq<Entry>)
    ensures EntriesHaveTy(WithSafe(g), kt, vt, es) == EntriesHaveTy(g, kt, vt, es)
    decreases es, 0
  {
    hide HasTy, WithSafe;
    if es != [] {
      EntryTypedInBoth(g, kt, vt, es[0]);
      EntriesTypedInBoth(g, kt, vt, es[1..]);
    }
  }

  lemma {:induction false} EntryTypedInBoth(g: Gen, kt: Ty, vt: Ty, e: Entry)
    ensures EntryHasTy(WithSafe(g), kt, vt, e) == EntryHasTy(g, kt, vt, e)
    decreases e, 0
  {
    TypedInBoth(g, kt, e.k);
    TypedInBoth(g, vt, e.v);
  }

  // ---------------------------------------------------------------------
  // The same bytes
  // ---------------------------------------------------------------------

  /** Marshal writes the same bytes in both modes. */
  lemma {:induction false} WireAgrees(g: Gen, R: set<Name>, ty: Ty, v: Val)
    requires Plain(g, R) && Covered(g, R, ty) && HasTy(g, ty, v)
    ensures Enc(g, ty, v) == Enc(WithSafe(g), ty, v)
    decreases v, 2
  {
    hide EncElems, EncStruct, EncEntries, WithSafe, AllHaveTy, FieldsHaveTy, EntriesHaveTy, Plain;
    match ty
    case TSlice(e, _) => ElemsAgree(g, R, e, v.elems);
    case TArray(_, e, _) => ElemsAgree(g, R, e, v.elems);
    case TPtr(e, _) => if v.VRef? { WireAgrees(g, R, e, v.v); }
    case TMap(kt, vt, _) => EntriesAgree(g, R, kt, vt, v.entries);
    case TStruct(n) => StructAgrees(g, R, n, v);
    case TUnion(ms) => if v.VMem? { StructAgrees(g, R, ms[v.tag], v.v); }
    case _ =>
  }

  lemma {:induction false} StructAgrees(g: Gen, R: set<Name>, n: Name, v: Val)
    requires Plain(g, R) && Covered(g, R, TStruct(n)) && HasTy(g, TStruct(n), v)
    ensures EncStruct(g, n, v) == EncStruct(WithSafe(g), n, v)
    decreases v, 1
  {
    hide EncFields, WithSafe, Plain;
    SameStructs(g);
    StructCovered(g, R, n);
    FieldsAgree(g, R, FieldsOf(g, n), v.fields);
  }

  lemma {:induction false} FieldsAgree(g: Gen, R: set<Name>, tys: seq<Ty>, vs: seq<Val>)
    requires Plain(g, R) && FieldsCovered(g, R, tys) && FieldsHaveTy(g, tys, vs)
    ensures EncFields(g, tys, vs) == EncFields(WithSafe(g), tys, vs)
    decreases vs, 0
  {
    hide Enc, HasTy, WithSafe, Plain, Covered;
    if vs != [] {
      WireAgrees(g, R, tys[0], vs[0]);
      FieldsAgree(g, R, tys[1..], vs[1..]);
    }
  }

  lemma {:induction false} ElemsAgree(g: Gen, R: set<Name>, e: Ty, vs: seq<Val>)
    requires Plain(g, R) && Covered(g, R, e) && AllHaveTy(g, e, vs)
    ensures EncElems(g, e, vs) == EncElems(WithSafe(g), e, vs)
    decreases vs, 1
  {
    hide EncSeq, WithSafe, HasTy, AllHaveTy, RawSeq;
    SameStructs(g);
    if RawElems(g, e) {
      AllTypedInBoth(g, e, vs);
      RawIsLoop(WithSafe(g), e, vs);
    } else {
      SeqAgrees(g, R, e, vs);
    }
  }

  lemma {:induction false} SeqAgrees(g: Gen, R: set<Name>, e: Ty, vs: seq<Val>)
    requires Plain(g, R) && Covered(g, R, e) && AllHaveTy(g, e, vs)
    ensures EncSeq(g, e, vs) == EncSeq(WithSafe(g), e, vs)
    decreases vs, 0
  {
    hide Enc, HasTy, WithSafe, Plain, Covered;
    if vs != [] {
      WireAgrees(g, R, e, vs[0]);
      SeqAgrees(g, R, e, vs[1..]);
    }
  }

  lemma {:induction false} EntriesAgree(g: Gen, R: set<Name>, kt: Ty, vt: Ty, es: seq<Entry>)
    requires Plain(g, R) && Covered(g, R, kt) && Covered(g, R, vt) && EntriesHaveTy(g, kt, vt, es)
    ensures EncEntries(g, kt, vt, es) == EncEntries(WithSafe(g), kt, vt, es)
    decreases es, 1
  {
    hide EncEntry, EntryHasTy, WithSafe, Plain, Covered;
    if es != [] {
      EntryAgrees(g, R, kt, vt, es[0]);
      EntriesAgree(g, R, kt, vt, es[1..]);
    }
  }

  lemma {:induction false} EntryAgrees(g: Gen, R: set<Name>, kt: Ty, vt: Ty, e: Entry)
    requires Plain(g, R) && Covered(g, R, kt) && Covered(g, R, vt) && EntryHasTy(g, kt, vt, e)
    ensures EncEntry(g, kt, vt, e) == EncEntry(WithSafe(g), kt, vt, e)
    decreases e, 0
  {
    hide Enc, HasTy, WithSafe, Plain, Covered;
    WireAgrees(g, R, kt, e.k);
    WireAgrees(g, R, vt, e.v);
  }

  lemma CoveredWf(g: Gen, R: set<Name>, ty: Ty)
    requires Covered(g, R, ty)
    ensures WfTy(ty)
  {}

  /** Fast Unmarshal of fast Marshal's bytes, and safe Unmarshal of the same bytes, end at
      the same offset with the same content, into whatever destinations. */
  lemma DecodesAgree(g: Gen, R: set<Name>, ty: Ty, v: Val, d: Val, d': Val, s: Bytes)
    requires g.mode.Fast? && Plain(g, R) && Covered(g, R, ty) && HasTy(g, ty, v)
    requires Fits(WithSafe(g), ty, v, |s|)
    ensures var b := Enc(g, ty, v) + s;
            var fast, safe := DecInto(g, ty, d, b), DecInto(WithSafe(g), ty, d', b);
            fast.e == safe.e == NoErr && fast.n == safe.n && View(fast.v) == View(safe.v)
  {
    hide DecInto, Enc, Fits, HasTy, WithSafe, Plain, Covered, Clean, WfTy;
    assert WfTy(ty) by { CoveredWf(g, R, ty); }
    SameStructs(g);
    WireAgrees(g, R, ty, v);
    TypedInBoth(g, ty, v);
    RoundTrips(g, ty, d, v, s);
    RoundTrips(WithSafe(g), ty, d', v, s);
  }

  /** The byte order matters: on a big-endian machine fast mode writes the two bytes of a
      []uint16 element the other way round. */
  lemma BigEndianDiffers(g: Gen)
    requires g.mode.Fast? && g.mode.lay.big
    ensures var ty, v := TSlice(TScalar(KUint16, Builtin)), VSlice(false, [VNum(1)], []);
            HasTy(g, ty, v) && Enc(g, ty, v) != Enc(WithSafe(g), ty, v)
  {
    hide WithSafe;
    SameStructs(g);
    var e, vs := TScalar(KUint16, Builtin), [VNum(1)];
    assert vs[1..] == [];
    assert HasTy(g, e, vs[0]) && AllHaveTy(g, e, vs[1..]) && AllHaveTy(g, e, []);
    var w := ScalarBytes(KUint16, 1);
    assert w == [1, 0] by { assert LE(1, 2) == [1] + LE(0, 1); assert LE(0, 1) == [0] + LE(0, 0); }
    assert Reverse(w) == [0, 1] by { assert w[1..] == [0]; assert Reverse([0]) == Reverse([0][1..]) + [0]; }
    assert RawSeq(true, e, 1, vs) == Raw(true, e, vs[0]) + RawSeq(true, e, 0, vs[1..]);
    assert EncElems(g, e, vs) == [0, 1];
    assert EncSeq(WithSafe(g), e, vs) == Enc(WithSafe(g), e, vs[0]) + EncSeq(WithSafe(g), e, []);
    assert EncElems(WithSafe(g), e, vs) == [1, 0];
    assert Enc(g, TSlice(e), VSlice(false, vs, [])) == [1, 0, 1];
    assert Enc(WithSafe(g), TSlice(e), VSlice(false, vs, [])) == [1, 1, 0];
  }
}
