/** What safe mode promises its callers, for whole values. */
module Guarantees {
  import opened Bytes
  import opened Varint
  import opened Schema
  import opened Codec
  import opened Stability
  import opened Reuse
  import opened RoundTrip

  // ---------------------------------------------------------------------
  // Round trip
  // ---------------------------------------------------------------------

  /** `Unmarshal(Marshal(v) ++ s)` gives back `v`, with empty collections nil, and
      consumes exactly the encoding, if and only if no announced count exceeds the
      bytes behind it; otherwise it reports a short buffer. */
  lemma SafeRoundTrip(g: Gen, ty: Ty, v: Val, s: Bytes)
    requires g.mode.Safe? && WfTy(ty) && HasTy(g, ty, v)
    ensures Fits(g, ty, v, |s|) ==> Dec(g, ty, Enc(g, ty, v) + s) == Ok(Norm(v), |Enc(g, ty, v)|)
    ensures !Fits(g, ty, v, |s|) ==>
              Dec(g, ty, Enc(g, ty, v) + s).Fail? && Dec(g, ty, Enc(g, ty, v) + s).e == ShortBuffer
  {
    hide Dec, DecInto, Enc, Fits;
    RoundTrips(g, ty, Zero(g, ty), v, s);
    ReuseIndependent(g, {}, ty, Zero(g, ty), Enc(g, ty, v) + s);
  }

  /** Values of this type always take at least one byte on the safe wire. */
  predicate Occupies(g: Gen, ty: Ty)
    decreases TyRank(g, ty), ty
  {
    match ty
    case TArray(m, e, _) => m > 0 && Occupies(g, e)
    case TStruct(n) => SomeOccupies(g, FieldsOf(g, n))
    case TSkip => false
    case _ => true
  }

  predicate SomeOccupies(g: Gen, tys: seq<Ty>)
    decreases FieldsRank(g, tys), tys
  {
    tys != [] && (Occupies(g, tys[0]) || SomeOccupies(g, tys[1..]))
  }

  /** Every slice element and every map entry within `ty` takes at least one byte. */
  predicate Wide(g: Gen, ty: Ty) {
    match ty
    case TSlice(e, _) => Occupies(g, e) && Wide(g, e)
    case TArray(_, e, _) => Wide(g, e)
    case TPtr(e, _) => Wide(g, e)
    case TMap(k, v, _) => (Occupies(g, k) || Occupies(g, v)) && Wide(g, k) && Wide(g, v)
    case _ => true
  }

  ghost predicate WideRun(g: Gen) {
    forall n, k :: n in g.structs && 0 <= k < |g.structs[n]| ==> Wide(g, g.structs[n][k])
  }

  lemma {:induction false} OccupiesBytes(g: Gen, ty: Ty, v: Val)
    requires g.mode.Safe? && HasTy(g, ty, v) && Occupies(g, ty)
    ensures |Enc(g, ty, v)| >= 1
    decreases v, 1
  {
    match ty
    case TArray(_, e, _) =>
      OccupiesBytes(g, e, v.elems[0]);
      assert EncElems(g, e, v.elems) == Enc(g, e, v.elems[0]) + EncSeq(g, e, v.elems[1..]);
    case TStruct(n) => SomeOccupiesBytes(g, FieldsOf(g, n), v.fields);
    case _ =>
  }

  lemma {:induction false} SomeOccupiesBytes(g: Gen, tys: seq<Ty>, vs: seq<Val>)
    requires g.mode.Safe? && FieldsHaveTy(g, tys, vs) && SomeOccupies(g, tys)
    ensures |EncFields(g, tys, vs)| >= 1
    decreases vs, 0
  {
    hide Enc;
    if Occupies(g, tys[0]) { OccupiesBytes(g, tys[0], vs[0]); }
    else { SomeOccupiesBytes(g, tys[1..], vs[1..]); }
  }

  lemma {:induction false} ElemsOccupy(g: Gen, e: Ty, vs: seq<Val>)
    requires g.mode.Safe? && AllHaveTy(g, e, vs) && Occupies(g, e)
    ensures |EncSeq(g, e, vs)| >= |vs|
    decreases vs, 0
  {
    hide Enc;
    if vs != [] {
      OccupiesBytes(g, e, vs[0]);
      ElemsOccupy(g, e, vs[1..]);
    }
  }

  lemma {:induction false} EntriesOccupy(g: Gen, kt: Ty, vt: Ty, es: seq<Entry>)
    requires g.mode.Safe? && EntriesHaveTy(g, kt, vt, es) && (Occupies(g, kt) || Occupies(g, vt))
    ensures |EncEntries(g, kt, vt, es)| >= |es|
  {
    hide Enc;
    if es != [] {
      if Occupies(g, kt) { OccupiesBytes(g, kt, es[0].k); } else { OccupiesBytes(g, vt, es[0].v); }
      EntriesOccupy(g, kt, vt, es[1..]);
    }
  }

  /** With elements of at least one byte the length guard stops no encoding. */
  lemma {:induction false} WideFits(g: Gen, ty: Ty, v: Val, k: nat)
    requires g.mode.Safe? && WideRun(g) && Wide(g, ty) && HasTy(g, ty, v)
    ensures Fits(g, ty, v, k)
    decreases v, 1
  {
    hide FitsSeq, FitsStruct, FitsEntries, Occupies;
    match ty
    case TSlice(e, _) =>
      ElemsOccupy(g, e, v.elems);
      WideFitsSeq(g, e, v.elems, k);
    case TArray(_, e, _) => WideFitsSeq(g, e, v.elems, k);
    case TPtr(e, _) => if v.VRef? { WideFits(g, e, v.v, k); }
    case TMap(kt, vt, _) =>
      EntriesOccupy(g, kt, vt, v.entries);
      WideFitsEntries(g, kt, vt, v.entries, k);
    case TStruct(n) => WideFitsStruct(g, n, v, k);
    case TUnion(ms) => if v.VMem? { WideFitsStruct(g, ms[v.tag], v.v, k); }
    case _ =>
  }

  lemma {:induction false} WideFitsStruct(g: Gen, n: Name, v: Val, k: nat)
    requires g.mode.Safe? && WideRun(g) && HasTy(g, TStruct(n), v)
    ensures FitsStruct(g, n, v, k)
    decreases v, 0
  {
    WideFitsFields(g, FieldsOf(g, n), v.fields, k);
  }

  lemma {:induction false} WideFitsSeq(g: Gen, e: Ty, vs: seq<Val>, k: nat)
    requires g.mode.Safe? && WideRun(g) && Wide(g, e) && AllHaveTy(g, e, vs)
    ensures FitsSeq(g, e, vs, k)
    decreases vs, 0
  {
    hide Fits, WideRun, Wide, Enc;
    if vs != [] {
      WideFits(g, e, vs[0], |EncSeq(g, e, vs[1..])| + k);
      WideFitsSeq(g, e, vs[1..], k);
    }
  }

  lemma {:induction false} WideFitsFields(g: Gen, tys: seq<Ty>, vs: seq<Val>, k: nat)
    requires g.mode.Safe? && WideRun(g) && FieldsHaveTy(g, tys, vs)
    requires forall i :: 0 <= i < |tys| ==> Wide(g, tys[i])
    ensures FitsFields(g, tys, vs, k)
    decreases vs, 0
  {
    hide Fits, WideRun, Wide, Enc;
    if vs != [] {
      WideFits(g, tys[0], vs[0], |EncFields(g, tys[1..], vs[1..])| + k);
      WideFitsFields(g, tys[1..], vs[1..], k);
    }
  }

  lemma {:induction false} WideFitsEntries(g: Gen, kt: Ty, vt: Ty, es: seq<Entry>, k: nat)
    requires g.mode.Safe? && WideRun(g) && Wide(g, kt) && Wide(g, vt) && EntriesHaveTy(g, kt, vt, es)
    ensures FitsEntries(g, kt, vt, es, k)
    decreases es, 0
  {
    hide FitsEntry, WideRun, Wide, EncEntry, HasTy, Fits, Enc;
    if es != [] {
      WideFitsEntry(g, kt, vt, es[0], |EncEntries(g, kt, vt, es[1..])| + k);
      WideFitsEntries(g, kt, vt, es[1..], k);
    }
  }

  lemma {:induction false} WideFitsEntry(g: Gen, kt: Ty, vt: Ty, e: Entry, k: nat)
    requires g.mode.Safe? && WideRun(g) && Wide(g, kt) && Wide(g, vt) && EntriesHaveTy(g, kt, vt, [e])
    ensures FitsEntry(g, kt, vt, e, k)
    decreases e, 0
  {
    hide Fits, WideRun, Wide, Enc;
    assert [e][0] == e;
    WideFits(g, kt, e.k, |Enc(g, vt, e.v)| + k);
    WideFits(g, vt, e.v, k);
  }

  /** Round trip with any suffix, for every schema with elements of at least a byte. */
  lemma WideRoundTrip(g: Gen, ty: Ty, v: Val, s: Bytes)
    requires g.mode.Safe? && WfTy(ty) && WideRun(g) && Wide(g, ty) && HasTy(g, ty, v)
    ensures Dec(g, ty, Enc(g, ty, v) + s) == Ok(Norm(v), |Enc(g, ty, v)|)
  {
    SafeRoundTrip(g, ty, v, s);
    WideFits(g, ty, v, |s|);
  }

  /** The hypothesis is needed: a type that need not take a byte takes none, whatever the
      value. */
  lemma {:induction false} NothingEncoded(g: Gen, ty: Ty, v: Val)
    requires g.mode.Safe? && HasTy(g, ty, v) && !Occupies(g, ty)
    ensures Enc(g, ty, v) == []
    decreases v, 1
  {
    match ty
    case TArray(_, e, _) =>
      assert EncElems(g, e, v.elems) == EncSeq(g, e, v.elems);
      if v.elems != [] { NothingInSeq(g, e, v.elems); }
    case TStruct(n) => NothingInFields(g, FieldsOf(g, n), v.fields);
    case _ =>
  }

  lemma {:induction false} NothingInSeq(g: Gen, e: Ty, vs: seq<Val>)
    requires g.mode.Safe? && AllHaveTy(g, e, vs) && !Occupies(g, e)
    ensures EncSeq(g, e, vs) == []
    decreases vs, 0
  {
    hide Enc;
    if vs != [] {
      NothingEncoded(g, e, vs[0]);
      NothingInSeq(g, e, vs[1..]);
    }
  }

  lemma {:induction false} NothingInFields(g: Gen, tys: seq<Ty>, vs: seq<Val>)
    requires g.mode.Safe? && FieldsHaveTy(g, tys, vs) && !SomeOccupies(g, tys)
    ensures EncFields(g, tys, vs) == []
    decreases vs, 0
  {
    hide Enc;
    if vs != [] {
      NothingEncoded(g, tys[0], vs[0]);
      NothingInFields(g, tys[1..], vs[1..]);
    }
  }

  /** So a slice of one such element, whatever its value, announces one element, has no
      byte left for it, and is refused. */
  lemma NarrowSliceRefused(g: Gen, e: Ty, v: Val)
    requires g.mode.Safe? && HasTy(g, e, v) && !Occupies(g, e)
    ensures var s := VSlice(false, [v], []);
            HasTy(g, TSlice(e), s) && Dec(g, TSlice(e), Enc(g, TSlice(e), s)) == Fail(ShortBuffer, 1)
  {
    hide Occupies, Enc, DecN;
    NothingEncoded(g, e, v);
    var vs: seq<Val> := [v];
    assert vs[1..] == [];
    assert AllHaveTy(g, e, vs[1..]) && AllHaveTy(g, e, []);
    assert EncSeq(g, e, vs) == Enc(g, e, v) + EncSeq(g, e, vs[1..]) == [];
    SliceBytes(g, e, vs);
    LebOne();
    assert Leb(1) + [] == [1];
  }

  /** And so is a map of one entry whose key and value both take none. */
  lemma NarrowMapRefused(g: Gen, kt: Ty, vt: Ty, k: Val, v: Val)
    requires g.mode.Safe? && HasTy(g, kt, k) && HasTy(g, vt, v) && !Occupies(g, kt) && !Occupies(g, vt)
    ensures var m := VMap(false, [Entry(k, v)]);
            HasTy(g, TMap(kt, vt), m) && Dec(g, TMap(kt, vt), Enc(g, TMap(kt, vt), m)) == Fail(ShortBuffer, 1)
  {
    hide Occupies, Enc, DecEntries;
    NothingEncoded(g, kt, k);
    NothingEncoded(g, vt, v);
    var es: seq<Entry> := [Entry(k, v)];
    assert es[1..] == [];
    assert EntryHasTy(g, kt, vt, es[0]) && EntriesHaveTy(g, kt, vt, es[1..]) && DistinctKeys(es);
    assert EncEntry(g, kt, vt, es[0]) == [];
    assert EncEntries(g, kt, vt, es) == EncEntry(g, kt, vt, es[0]) + EncEntries(g, kt, vt, es[1..]) == [];
    MapBytes(g, kt, vt, es);
    LebOne();
    assert Leb(1) + [] == [1];
    assert DecMap(g, kt, vt, [1]) == Fail(ShortBuffer, 1);
  }

  lemma SliceBytes(g: Gen, e: Ty, vs: seq<Val>)
    requires g.mode.Safe?
    ensures Enc(g, TSlice(e), VSlice(false, vs, [])) == Leb(|vs|) + EncSeq(g, e, vs)
  {}

  lemma MapBytes(g: Gen, kt: Ty, vt: Ty, es: seq<Entry>)
    ensures Enc(g, TMap(kt, vt), VMap(false, es)) == Leb(|es|) + EncEntries(g, kt, vt, es)
  {}

  lemma LebOne()
    ensures Leb(1) == [1] && Uvarint([1]) == (1, 1)
  {
    UvarintInvertsLeb(1, []);
    assert Leb(1) + [] == [1];
  }

  // ---------------------------------------------------------------------
  // Truncation
  // ---------------------------------------------------------------------

  /** Every strict prefix of an encoding is reported as a short buffer: never as a
      success, never as an unknown tag. */
  lemma TruncationDetected(g: Gen, ty: Ty, v: Val, k: nat)
    requires g.mode.Safe? && WfTy(ty) && HasTy(g, ty, v) && k < |Enc(g, ty, v)|
    ensures Dec(g, ty, Enc(g, ty, v)[..k]).Fail? && Dec(g, ty, Enc(g, ty, v)[..k]).e == ShortBuffer
  {
    hide Dec, Enc, Fits;
    var w := Enc(g, ty, v);
    var r := Dec(g, ty, w[..k]);
    SafeRoundTrip(g, ty, v, []);
    assert w[..k] + w[k..] == w == w + [];
    if Settled(r) { DecExtends(g, ty, w[..k], w[k..]); }
  }

  // ---------------------------------------------------------------------
  // Decode then encode
  // ---------------------------------------------------------------------

  lemma {:induction false} LebGrows(m: nat, n: nat)
    requires m <= n
    ensures |Leb(m)| <= |Leb(n)|
    decreases n
  {
    if m >= 0x80 { LebGrows(m / 0x80, n / 0x80); }
  }

  lemma CountShrinks(b: Bytes, m: nat)
    requires Uvarint(b).1 > 0 && m <= Uvarint(b).0
    ensures |Leb(m)| <= Uvarint(b).1
  {
    LebIsMinimal(b);
    LebGrows(m, Uvarint(b).0);
  }

  /** Re-encoding a decoded value takes no more bytes than were read. */
  lemma {:induction false} ReencodeShrinks(g: Gen, ty: Ty, b: Bytes)
    requires g.mode.Safe? && Dec(g, ty, b).Ok?
    ensures |Enc(g, ty, Dec(g, ty, b).v)| <= Dec(g, ty, b).n
    decreases |b|, TyRank(g, ty), ty, 1
  {
    hide DecSlice, DecArray, DecPtr, DecMap, DecStruct, DecUnion, EncStruct, EncElems, EncEntries;
    match ty
    case TScalar(_, _) =>
    case TStr(_) => CountShrinks(b, Uvarint(b).0);
    case TSlice(e, _) => SliceShrinks(g, e, b);
    case TArray(m, e, _) => ArrayShrinks(g, m, e, b);
    case TPtr(e, _) => PtrShrinks(g, e, b);
    case TMap(kt, vt, _) => MapShrinks(g, kt, vt, b);
    case TStruct(n) => StructShrinks(g, n, b);
    case TUnion(ms) => UnionShrinks(g, ms, b);
    case TSkip =>
  }

  lemma {:induction false} SliceShrinks(g: Gen, e: Ty, b: Bytes)
    requires g.mode.Safe? && DecSlice(g, e, b).Ok?
    ensures DecSlice(g, e, b).v.VSlice?
    ensures var vs := DecSlice(g, e, b).v.elems; |Leb(|vs|)| + |EncElems(g, e, vs)| <= DecSlice(g, e, b).n
    decreases |b|, 0, e, 0
  {
    hide DecN, Uvarint;
    var (nn, cc) := Uvarint(b);
    CountShrinks(b, nn);
    if nn > 0 { NShrinks(g, e, nn, b[cc..]); } else { assert EncSeq(g, e, []) == []; }
  }

  lemma {:induction false} ArrayShrinks(g: Gen, m: nat, e: Ty, b: Bytes)
    requires g.mode.Safe? && DecArray(g, m, e, b).Ok?
    ensures DecArray(g, m, e, b).v.VArr?
    ensures |EncElems(g, e, DecArray(g, m, e, b).v.elems)| <= DecArray(g, m, e, b).n
    decreases |b|, TyRank(g, e), e, m + 9
  {
    hide DecN;
    NShrinks(g, e, m, b);
  }

  lemma {:induction false} PtrShrinks(g: Gen, e: Ty, b: Bytes)
    requires g.mode.Safe? && DecPtr(g, e, b).Ok?
    ensures DecPtr(g, e, b).v.VNil? ==> DecPtr(g, e, b).n == 1
    ensures DecPtr(g, e, b).v.VRef? ==> 1 + |Enc(g, e, DecPtr(g, e, b).v.v)| <= DecPtr(g, e, b).n
    ensures DecPtr(g, e, b).v.VNil? || DecPtr(g, e, b).v.VRef?
    decreases |b|, 0, e, 0
  {
    hide Dec, Enc;
    if b[0] != 0 { ReencodeShrinks(g, e, b[1..]); }
  }

  lemma {:induction false} NShrinks(g: Gen, e: Ty, m: nat, b: Bytes)
    requires g.mode.Safe? && DecN(g, e, m, b).Ok?
    ensures |EncSeq(g, e, DecN(g, e, m, b).v)| <= DecN(g, e, m, b).n
    decreases |b|, TyRank(g, e), e, m + 2
  {
    hide Dec, Enc;
    if m > 0 {
      var r := Dec(g, e, b);
      ReencodeShrinks(g, e, b);
      NShrinks(g, e, m - 1, b[r.n..]);
      var t := DecN(g, e, m - 1, b[r.n..]).v;
      assert DecN(g, e, m, b).v == [r.v] + t && ([r.v] + t)[1..] == t;
    }
  }

  lemma {:induction false} StructShrinks(g: Gen, n: Name, b: Bytes)
    requires g.mode.Safe? && DecStruct(g, n, b).Ok?
    ensures |EncStruct(g, n, DecStruct(g, n, b).v)| <= DecStruct(g, n, b).n
    decreases |b|, RankOf(g, n) + 1, TStruct(n), 0
  {
    hide DecFields, EncFields;
    StructWf(g, n);
    FieldsShrink(g, FieldsOf(g, n), b);
  }

  lemma {:induction false} FieldsShrink(g: Gen, tys: seq<Ty>, b: Bytes)
    requires g.mode.Safe? && DecFields(g, tys, b).Ok?
    ensures |EncFields(g, tys, DecFields(g, tys, b).v)| <= DecFields(g, tys, b).n
    decreases |b|, FieldsRank(g, tys), tys, 1
  {
    hide Dec, Enc;
    if tys != [] {
      var r := Dec(g, tys[0], b);
      ReencodeShrinks(g, tys[0], b);
      FieldsShrink(g, tys[1..], b[r.n..]);
      var t := DecFields(g, tys[1..], b[r.n..]).v;
      assert DecFields(g, tys, b).v == [r.v] + t && ([r.v] + t)[1..] == t;
    }
  }

  lemma {:induction false} UnionShrinks(g: Gen, ms: seq<Name>, b: Bytes)
    requires g.mode.Safe? && DecUnion(g, ms, b).Ok?
    ensures var r := DecUnion(g, ms, b);
            if r.v.VMem? && r.v.tag < |ms| then |Leb(r.v.tag + 1)| + |EncStruct(g, ms[r.v.tag], r.v.v)| <= r.n else 1 <= r.n
    decreases |b|, 0, TUnion(ms), 0
  {
    hide DecStruct, EncStruct, Uvarint;
    var (nn, cc) := Uvarint(b);
    CountShrinks(b, nn);
    if nn > 0 { StructShrinks(g, ms[nn - 1], b[cc..]); }
  }

  /** Replacing an entry costs no more than adding one. */
  lemma {:induction false} MapSetShrinks(g: Gen, kt: Ty, vt: Ty, es: seq<Entry>, e: Entry)
    ensures |EncEntries(g, kt, vt, MapSet(es, e.k, e.v))| <= |EncEntries(g, kt, vt, es)| + |EncEntry(g, kt, vt, e)|
  {
    hide Enc;
    if es == [] {
      assert EncEntries(g, kt, vt, [e]) == EncEntry(g, kt, vt, e) + EncEntries(g, kt, vt, []);
    } else if es[0].k == e.k {
      assert MapSet(es, e.k, e.v) == [e] + es[1..];
      assert ([e] + es[1..])[1..] == es[1..];
    } else {
      MapSetShrinks(g, kt, vt, es[1..], e);
      var t := MapSet(es[1..], e.k, e.v);
      assert ([es[0]] + t)[1..] == t;
    }
  }

  lemma {:induction false} PairShrinks(g: Gen, kt: Ty, vt: Ty, b: Bytes)
    requires g.mode.Safe? && DecPair(g, kt, vt, b).Ok?
    ensures |EncEntry(g, kt, vt, DecPair(g, kt, vt, b).v)| <= DecPair(g, kt, vt, b).n
    decreases |b|, PairRank(g, kt, vt), TMap(kt, vt), 1
  {
    hide Dec, Enc;
    ReencodeShrinks(g, kt, b);
    ReencodeShrinks(g, vt, b[Dec(g, kt, b).n..]);
  }

  lemma {:induction false} EntriesShrink(g: Gen, kt: Ty, vt: Ty, m: nat, acc: seq<Entry>, b: Bytes)
    requires g.mode.Safe? && DecEntries(g, kt, vt, m, acc, b).Ok?
    ensures var r := DecEntries(g, kt, vt, m, acc, b);
            |EncEntries(g, kt, vt, r.v)| <= |EncEntries(g, kt, vt, acc)| + r.n && |r.v| <= |acc| + m
    decreases |b|, PairRank(g, kt, vt), TMap(kt, vt), m + 1
  {
    hide Dec, DecPair, EncEntry, MapSet, EncEntries;
    if m > 0 {
      var p := DecPair(g, kt, vt, b);
      PairShrinks(g, kt, vt, b);
      MapSetShrinks(g, kt, vt, acc, p.v);
      EntriesShrink(g, kt, vt, m - 1, MapSet(acc, p.v.k, p.v.v), b[p.n..]);
    }
  }

  lemma {:induction false} MapShrinks(g: Gen, kt: Ty, vt: Ty, b: Bytes)
    requires g.mode.Safe? && DecMap(g, kt, vt, b).Ok?
    ensures DecMap(g, kt, vt, b).v.VMap?
    ensures var es := DecMap(g, kt, vt, b).v.entries; |Leb(|es|)| + |EncEntries(g, kt, vt, es)| <= DecMap(g, kt, vt, b).n
    decreases |b|, 0, kt, 0
  {
    hide DecEntries, Uvarint;
    var (nn, cc) := Uvarint(b);
    CountShrinks(b, 0);
    if nn > 0 {
      EntriesShrink(g, kt, vt, nn, [], b[cc..]);
      var es := DecEntries(g, kt, vt, nn, [], b[cc..]).v;
      CountShrinks(b, |es|);
      assert EncEntries(g, kt, vt, []) == [];
    } else {
      assert EncEntries(g, kt, vt, []) == [];
    }
  }

  /** Whatever bytes were decoded, overlong counts and duplicate keys included, the
      value is typed and normal, its encoding is no longer than what was read, and
      decoding that encoding again gives the same value. */
  lemma DecodeNormalises(g: Gen, ty: Ty, b: Bytes, s: Bytes)
    requires g.mode.Safe? && WfTy(ty) && WideRun(g) && Wide(g, ty) && |b| <= MAX_LEN
    requires Dec(g, ty, b).Ok?
    ensures var v, n := Dec(g, ty, b).v, Dec(g, ty, b).n;
            && HasTy(g, ty, v)
            && |Enc(g, ty, v)| <= n
            && Dec(g, ty, Enc(g, ty, v) + s) == Ok(v, |Enc(g, ty, v)|)
  {
    hide Dec, Enc;
    DecTyped(g, ty, b);
    ReencodeShrinks(g, ty, b);
    WideRoundTrip(g, ty, Dec(g, ty, b).v, s);
  }
}
