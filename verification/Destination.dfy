/** What decoding leaves in the rest of a destination: it stays a value of its type, even
    after an error, and skipped fields stay as they were. */
module Destination {
  import opened Bytes
  import opened Varint
  import opened Schema
  import opened Memory
  import opened Codec
  import opened Reuse
  import opened Stability

  // ---------------------------------------------------------------------
  // Typed pieces of backing arrays
  // ---------------------------------------------------------------------

  lemma {:induction false} ConcatTyped(g: Gen, e: Ty, us: seq<Val>, vs: seq<Val>)
    requires AllHaveTy(g, e, us) && AllHaveTy(g, e, vs)
    ensures AllHaveTy(g, e, us + vs)
  {
    if us == [] { assert us + vs == vs; }
    else { ConcatTyped(g, e, us[1..], vs); assert (us + vs)[1..] == us[1..] + vs; }
  }

  lemma {:induction false} SplitTyped(g: Gen, e: Ty, vs: seq<Val>, n: nat)
    requires AllHaveTy(g, e, vs) && n <= |vs|
    ensures AllHaveTy(g, e, vs[..n]) && AllHaveTy(g, e, vs[n..])
  {
    if n > 0 {
      SplitTyped(g, e, vs[1..], n - 1);
      assert vs[..n][1..] == vs[1..][..n - 1];
    } else {
      assert vs[0..] == vs;
    }
  }

  /** Reused or made, the elements about to be decoded into have their type. */
  lemma GrowTyped(g: Gen, e: Ty, d: Val, nn: nat)
    requires HasTy(g, TSlice(e), d)
    ensures var r := Grow(d, nn, Zero(g, e));
            AllHaveTy(g, e, r.elems) && AllHaveTy(g, e, r.stale) &&
            |r.elems| + |r.stale| == if |Backing(d)| < nn then nn else |Backing(d)|
  {
    ConcatTyped(g, e, d.elems, d.stale);
    if |Backing(d)| >= nn { SplitTyped(g, e, Backing(d), nn); }
    else { ZeroHasTy(g, e); ZerosHaveTy(g, e, nn, Zero(g, e)); }
  }

  lemma {:induction false} ByteValsTyped(g: Gen, e: Ty, s: Bytes)
    requires IsByte(e)
    ensures AllHaveTy(g, e, ByteVals(s))
  {
    if s != [] {
      ScalarInRange(KUint8, s[..1]);
      ByteValsTyped(g, e, s[1..]);
      assert ByteVals(s) == [Load(false, e, s[..1])] + ByteVals(s[1..]);
      assert ByteVals(s)[1..] == ByteVals(s[1..]);
    }
  }

  // ---------------------------------------------------------------------
  // Skipped fields
  // ---------------------------------------------------------------------

  /** Every skipped field `v` shares with `d` has `d`'s content: in the struct itself, in
      array elements and reused backing arrays, behind reused pointers and members. */
  ghost predicate Kept(g: Gen, ty: Ty, d: Val, v: Val)
    decreases v, 1
  {
    match ty
    case TSlice(e, _) =>
      d.VSlice? && v.VSlice? && |v.elems| <= |Backing(d)| ==> AllKept(g, e, Backing(d)[..|v.elems|], v.elems)
    case TArray(_, e, _) => d.VArr? && v.VArr? ==> AllKept(g, e, d.elems, v.elems)
    case TPtr(e, _) => d.VRef? && v.VRef? ==> Kept(g, e, d.v, v.v)
    case TStruct(n) => d.VStruct? && v.VStruct? ==> FieldsKept(g, FieldsOf(g, n), d.fields, v.fields)
    case TUnion(ms) =>
      d.VMem? && v.VMem? && d.tag == v.tag < |ms| ==> Kept(g, TStruct(ms[v.tag]), d.v, v.v)
    case TSkip => v == d
    case _ => true
  }

  ghost predicate AllKept(g: Gen, e: Ty, ds: seq<Val>, vs: seq<Val>)
    decreases vs, 0
  {
    |ds| == |vs| ==> vs == [] || (Kept(g, e, ds[0], vs[0]) && AllKept(g, e, ds[1..], vs[1..]))
  }

  ghost predicate FieldsKept(g: Gen, tys: seq<Ty>, ds: seq<Val>, vs: seq<Val>)
    decreases vs, 0
  {
    |tys| == |ds| == |vs| ==> vs == [] || (Kept(g, tys[0], ds[0], vs[0]) && FieldsKept(g, tys[1..], ds[1..], vs[1..]))
  }

  lemma {:induction false} KeptSame(g: Gen, ty: Ty, v: Val)
    ensures Kept(g, ty, v, v)
    decreases v, 1
  {
    hide AllKept, FieldsKept;
    match ty
    case TSlice(e, _) => if v.VSlice? { AllKeptSame(g, e, v.elems); assert Backing(v)[..|v.elems|] == v.elems; }
    case TArray(_, e, _) => if v.VArr? { AllKeptSame(g, e, v.elems); }
    case TPtr(e, _) => if v.VRef? { KeptSame(g, e, v.v); }
    case TStruct(n) => if v.VStruct? { FieldsKeptSame(g, FieldsOf(g, n), v.fields); }
    case TUnion(ms) => if v.VMem? && v.tag < |ms| { KeptSame(g, TStruct(ms[v.tag]), v.v); }
    case _ =>
  }

  lemma {:induction false} AllKeptSame(g: Gen, e: Ty, vs: seq<Val>)
    ensures AllKept(g, e, vs, vs)
    decreases vs, 0
  {
    hide Kept;
    if vs != [] {
      KeptSame(g, e, vs[0]);
      AllKeptSame(g, e, vs[1..]);
    }
  }

  lemma {:induction false} FieldsKeptSame(g: Gen, tys: seq<Ty>, vs: seq<Val>)
    ensures FieldsKept(g, tys, vs, vs)
    decreases vs, 0
  {
    hide Kept;
    if vs != [] && tys != [] {
      KeptSame(g, tys[0], vs[0]);
      FieldsKeptSame(g, tys[1..], vs[1..]);
    }
  }

  /** A fixed-width type has no field to skip. */
  lemma {:induction false} FixedKept(g: Gen, ty: Ty, d: Val, v: Val)
    requires IsFixedWidth(ty)
    ensures Kept(g, ty, d, v)
    decreases v, 1
  {
    if ty.TArray? && d.VArr? && v.VArr? { FixedAllKept(g, ty.elem, d.elems, v.elems); }
  }

  lemma {:induction false} FixedAllKept(g: Gen, e: Ty, ds: seq<Val>, vs: seq<Val>)
    requires IsFixedWidth(e)
    ensures AllKept(g, e, ds, vs)
    decreases vs, 0
  {
    if |ds| == |vs| > 0 {
      FixedKept(g, e, ds[0], vs[0]);
      FixedAllKept(g, e, ds[1..], vs[1..]);
    }
  }

  lemma {:induction false} FixedFieldsKept(g: Gen, tys: seq<Ty>, ds: seq<Val>, vs: seq<Val>)
    requires forall k :: 0 <= k < |tys| ==> IsFixedWidth(tys[k])
    ensures FieldsKept(g, tys, ds, vs)
    decreases vs, 0
  {
    if |tys| == |ds| == |vs| > 0 {
      FixedKept(g, tys[0], ds[0], vs[0]);
      FixedFieldsKept(g, tys[1..], ds[1..], vs[1..]);
    }
  }

  // ---------------------------------------------------------------------
  // The theorem, case by case
  // ---------------------------------------------------------------------

  /** The destination afterwards: skipped fields kept, and in safe mode still typed. */
  ghost predicate Sane(g: Gen, ty: Ty, d: Val, v: Val, b: Bytes) {
    Kept(g, ty, d, v) && (g.mode.Safe? && |b| <= MAX_LEN ==> HasTy(g, ty, v))
  }

  ghost predicate AllSane(g: Gen, e: Ty, ds: seq<Val>, vs: seq<Val>, b: Bytes) {
    AllKept(g, e, ds, vs) && (g.mode.Safe? && |b| <= MAX_LEN ==> AllHaveTy(g, e, vs))
  }

  ghost predicate FieldsSane(g: Gen, tys: seq<Ty>, ds: seq<Val>, vs: seq<Val>, b: Bytes) {
    FieldsKept(g, tys, ds, vs) && (g.mode.Safe? && |b| <= MAX_LEN ==> FieldsHaveTy(g, tys, vs))
  }

  /** Decoding, whether it succeeds or stops with an error, leaves a value of the type with
      every skipped field it reuses as it was. */
  lemma {:induction false} DestinationKept(g: Gen, ty: Ty, d: Val, b: Bytes)
    requires WfTy(ty) && HasTy(g, ty, d)
    ensures Sane(g, ty, d, DecInto(g, ty, d, b).v, b)
    decreases |b|, TyRank(g, ty), ty, 3
  {
    hide DecSliceInto, DecArrayInto, DecPtrInto, DecMapInto, DecStructInto, DecUnionInto;
    hide AllHaveTy, FieldsHaveTy, EntriesHaveTy, AllKept, FieldsKept, Uvarint;
    match ty
    case TScalar(k, _) => if |b| >= Width(k) { ScalarInRange(k, b[..Width(k)]); }
    case TStr(_) =>
    case TSlice(e, _) => SliceKept(g, e, d, b);
    case TArray(m, e, _) => ArrayKept(g, m, e, d, b);
    case TPtr(e, _) => PtrKept(g, e, d, b);
    case TMap(kt, vt, _) => MapKept(g, kt, vt, d, b);
    case TStruct(n) => StructKept(g, n, d, b);
    case TUnion(ms) => UnionKept(g, ms, d, b);
    case TSkip =>
  }

  lemma {:induction false} PtrKept(g: Gen, e: Ty, d: Val, b: Bytes)
    requires WfTy(e) && HasTy(g, TPtr(e), d)
    ensures Sane(g, TPtr(e), d, DecPtrInto(g, e, d, b).v, b)
    decreases |b|, 0, e, 0
  {
    hide DecInto;
    if |b| == 0 {
      KeptSame(g, TPtr(e), d);
    } else if b[0] != 0 {
      ZeroHasTy(g, e);
      DestinationKept(g, e, Pointee(d, Zero(g, e)), b[1..]);
    }
  }

  lemma {:induction false} StructKept(g: Gen, n: Name, d: Val, b: Bytes)
    requires HasTy(g, TStruct(n), d)
    ensures Sane(g, TStruct(n), d, DecStructInto(g, n, d, b).v, b)
    decreases |b|, RankOf(g, n) + 1, TStruct(n), 0
  {
    hide DecFieldsInto, LoadFields, FieldsHaveTy, FieldsKept;
    if Blittable(g, n) {
      KeptSame(g, TStruct(n), d);
      if Sizeof(g, n) <= |b| { FixedFieldsKept(g, FieldsOf(g, n), d.fields, LoadFields(g, n, b[..Sizeof(g, n)])); }
    } else {
      StructWf(g, n);
      FieldsAreTyped(g, n, d);
      FieldsStaySane(g, FieldsOf(g, n), d.fields, b);
    }
  }

  lemma FieldsAreTyped(g: Gen, n: Name, d: Val)
    requires HasTy(g, TStruct(n), d)
    ensures FieldsHaveTy(g, FieldsOf(g, n), d.fields) && FieldVals(g, d, n) == d.fields
  {}

  lemma {:induction false} UnionKept(g: Gen, ms: seq<Name>, d: Val, b: Bytes)
    requires HasTy(g, TUnion(ms), d)
    ensures Sane(g, TUnion(ms), d, DecUnionInto(g, ms, d, b).v, b)
    decreases |b|, 0, TUnion(ms), 0
  {
    hide DecStructInto, Uvarint;
    KeptSame(g, TUnion(ms), d);
    var (nn, cc) := Uvarint(b);
    if cc > 0 && 0 < nn <= |ms| {
      var m := ms[nn - 1];
      ZeroHasTy(g, TStruct(m));
      StructKept(g, m, Member(d, nn - 1, Zero(g, TStruct(m))), b[cc..]);
      MemberSane(g, ms, nn - 1, d, DecStructInto(g, m, Member(d, nn - 1, Zero(g, TStruct(m))), b[cc..]).v, b);
    }
  }

  lemma MemberSane(g: Gen, ms: seq<Name>, t: nat, d: Val, v: Val, b: Bytes)
    requires t < |ms| && HasTy(g, TUnion(ms), d)
    requires Kept(g, TStruct(ms[t]), Member(d, t, Zero(g, TStruct(ms[t]))), v)
    requires g.mode.Safe? && |b| <= MAX_LEN ==> HasTy(g, TStruct(ms[t]), v)
    ensures Sane(g, TUnion(ms), d, VMem(t, v), b)
  {}

  lemma {:induction false} MapKept(g: Gen, kt: Ty, vt: Ty, d: Val, b: Bytes)
    requires WfTy(TMap(kt, vt)) && HasTy(g, TMap(kt, vt), d)
    ensures Sane(g, TMap(kt, vt), d, DecMapInto(g, kt, vt, d, b).v, b)
    decreases |b|, 0, kt, 0
  {
    hide DecEntriesInto, Uvarint, EntriesHaveTy, DistinctKeys;
    var (nn, cc) := Uvarint(b);
    if g.mode.Safe? && |b| <= MAX_LEN {
      NilMapTyped(g, kt, vt);
      if cc > 0 && 0 < nn <= |b| - cc {
        EntriesStayTyped(g, kt, vt, nn, [], b[cc..]);
      }
    }
  }

  lemma NilMapTyped(g: Gen, kt: Ty, vt: Ty)
    ensures HasTy(g, TMap(kt, vt), NIL_MAP) && EntriesHaveTy(g, kt, vt, []) && DistinctKeys([])
  {}

  lemma {:induction false} EntriesStayTyped(g: Gen, kt: Ty, vt: Ty, m: nat, acc: seq<Entry>, b: Bytes)
    requires g.mode.Safe? && WfTy(kt) && WfTy(vt) && |b| <= MAX_LEN
    requires EntriesHaveTy(g, kt, vt, acc) && DistinctKeys(acc)
    ensures EntriesHaveTy(g, kt, vt, DecEntriesInto(g, kt, vt, m, acc, b).v)
    ensures DistinctKeys(DecEntriesInto(g, kt, vt, m, acc, b).v)
    ensures |DecEntriesInto(g, kt, vt, m, acc, b).v| <= |acc| + m
    decreases |b|, PairRank(g, kt, vt), TMap(kt, vt), m + 1
  {
    hide DecPairInto, DecEntriesInto, MapSet, EntriesHaveTy, DistinctKeys, HasTy;
    if m == 0 {
      EntriesIntoNil(g, kt, vt, acc, b);
    } else {
      EntriesIntoStep(g, kt, vt, m, acc, b);
      var p := DecPairInto(g, kt, vt, b);
      if p.e == NoErr {
        PairTyped(g, kt, vt, b);
        MapSetTyped(g, kt, vt, acc, p.v.k, p.v.v);
        MapSetDistinct(acc, p.v.k, p.v.v);
        EntriesStayTyped(g, kt, vt, m - 1, MapSet(acc, p.v.k, p.v.v), b[p.n..]);
      }
    }
  }

  lemma {:induction false} PairTyped(g: Gen, kt: Ty, vt: Ty, b: Bytes)
    requires g.mode.Safe? && WfTy(kt) && WfTy(vt) && |b| <= MAX_LEN && DecPairInto(g, kt, vt, b).e == NoErr
    ensures EntryHasTy(g, kt, vt, Entry(DecPairInto(g, kt, vt, b).v.k, DecPairInto(g, kt, vt, b).v.v))
    decreases |b|, PairRank(g, kt, vt), TMap(kt, vt), 0
  {
    hide DecInto, HasTy;
    ZeroHasTy(g, kt);
    ZeroHasTy(g, vt);
    DestinationKept(g, kt, Zero(g, kt), b);
    DestinationKept(g, vt, Zero(g, vt), b[DecInto(g, kt, Zero(g, kt), b).n..]);
  }

  lemma {:induction false} SliceKept(g: Gen, e: Ty, d: Val, b: Bytes)
    requires WfTy(e) && HasTy(g, TSlice(e), d)
    ensures Sane(g, TSlice(e), d, DecSliceInto(g, e, d, b).v, b)
    decreases |b|, 0, e, 0
  {
    hide DecElemsInto, Uvarint, LoadSeq, AllHaveTy, AllKept, Grow, Kept, HasTy, AppendAll, ByteVals;
    var (nn, cc) := Uvarint(b);
    KeptSame(g, TSlice(e), d);
    NilSliceSane(g, e, d);
    if cc > 0 && nn > 0 {
      if IsByte(e) {
        if nn <= |b| - cc { BytesSane(g, e, d, b[cc..cc + nn]); }
      } else {
        var base := Grow(d, nn, Zero(g, e));
        GrowTyped(g, e, d, nn);
        ElemsStaySane(g, e, base.elems, b[cc..]);
        if !g.mode.Safe? || nn <= |b| - cc { SliceSane(g, e, d, nn, DecElemsInto(g, e, base.elems, b[cc..]).v, b); }
      }
    }
  }

  lemma NilSliceSane(g: Gen, e: Ty, d: Val)
    ensures Kept(g, TSlice(e), d, NIL_SLICE) && HasTy(g, TSlice(e), NIL_SLICE)
  {}

  lemma BytesSane(g: Gen, e: Ty, d: Val, s: Bytes)
    requires IsByte(e) && HasTy(g, TSlice(e), d)
    ensures Kept(g, TSlice(e), d, AppendAll(d, s)) && Kept(g, TSlice(e), d, VSlice(false, ByteVals(s), []))
    ensures |s| <= MAX_LEN ==> HasTy(g, TSlice(e), AppendAll(d, s)) && HasTy(g, TSlice(e), VSlice(false, ByteVals(s), []))
  {
    hide AllHaveTy, AllKept, LoadSeq, ByteVals;
    ByteValsTyped(g, e, s);
    ConcatTyped(g, e, d.elems, d.stale);
    assert AllHaveTy(g, e, []) by { NoneTyped(g, e); }
    if |Backing(d)| >= |s| {
      SplitTyped(g, e, Backing(d), |s|);
      FixedAllKept(g, e, Backing(d)[..|s|], ByteVals(s));
    }
  }

  lemma NoneTyped(g: Gen, e: Ty)
    ensures AllHaveTy(g, e, [])
  {}

  /** Elements decoded into what Grow gave, as a slice. */
  lemma SliceSane(g: Gen, e: Ty, d: Val, nn: nat, vs: seq<Val>, b: Bytes)
    requires HasTy(g, TSlice(e), d) && |vs| == nn
    requires g.mode.Safe? ==> nn <= |b|
    requires AllSane(g, e, Grow(d, nn, Zero(g, e)).elems, vs, b)
    ensures Sane(g, TSlice(e), d, VSlice(false, vs, Grow(d, nn, Zero(g, e)).stale), b)
  {
    hide AllHaveTy, AllKept;
    GrowTyped(g, e, d, nn);
  }

  lemma {:induction false} ArrayKept(g: Gen, m: nat, e: Ty, d: Val, b: Bytes)
    requires WfTy(e) && HasTy(g, TArray(m, e), d)
    ensures Sane(g, TArray(m, e), d, DecArrayInto(g, m, e, d, b).v, b)
    decreases |b|, TyRank(g, e), e, m + 9
  {
    hide DecElemsInto, LoadSeq, AllHaveTy, AllKept, ByteVals;
    AllKeptSame(g, e, d.elems);
    if IsByte(e) {
      if m <= |b| {
        ByteValsTyped(g, e, b[..m]);
        FixedAllKept(g, e, d.elems, ByteVals(b[..m]));
      }
    } else {
      ElemsStaySane(g, e, d.elems, b);
    }
  }

  lemma {:induction false} ElemsStaySane(g: Gen, e: Ty, ds: seq<Val>, b: Bytes)
    requires WfTy(e) && AllHaveTy(g, e, ds)
    ensures AllSane(g, e, ds, DecElemsInto(g, e, ds, b).v, b)
    decreases |b|, TyRank(g, e), e, |ds| + 5
  {
    hide DecNInto, LoadSeq, AllHaveTy, AllKept;
    if RawElems(g, e) {
      MemCopyableIsFixed(e);
      FixedAllKept(g, e, ds, DecElemsInto(g, e, ds, b).v);
    } else {
      NStaySane(g, e, ds, b);
    }
  }

  lemma {:induction false} NStaySane(g: Gen, e: Ty, ds: seq<Val>, b: Bytes)
    requires WfTy(e) && AllHaveTy(g, e, ds)
    ensures AllSane(g, e, ds, DecNInto(g, e, ds, b).v, b)
    decreases |b|, TyRank(g, e), e, |ds| + 4
  {
    hide DecInto, DecNInto, HasTy, Kept;
    if ds == [] {
      NIntoNil(g, e, b);
    } else {
      NIntoStep(g, e, ds, b);
      DestinationKept(g, e, ds[0], b);
      AllKeptSame(g, e, ds[1..]);
      var r := DecInto(g, e, ds[0], b);
      if r.e == NoErr { NStaySane(g, e, ds[1..], b[r.n..]); }
    }
  }

  lemma {:induction false} FieldsStaySane(g: Gen, tys: seq<Ty>, ds: seq<Val>, b: Bytes)
    requires WfFields(tys) && FieldsHaveTy(g, tys, ds)
    ensures |tys| == |ds| && FieldsSane(g, tys, ds, DecFieldsInto(g, tys, ds, b).v, b)
    decreases |b|, FieldsRank(g, tys), tys, 4
  {
    hide DecInto, DecFieldsInto, HasTy, Kept;
    if ds == [] {
      FieldsIntoNil(g, b);
    } else {
      FieldsIntoStep(g, tys, ds, b);
      DestinationKept(g, tys[0], ds[0], b);
      FieldsKeptSame(g, tys[1..], ds[1..]);
      var r := DecInto(g, tys[0], ds[0], b);
      if r.e == NoErr { FieldsStaySane(g, tys[1..], ds[1..], b[r.n..]); }
    }
  }

  /** A place inside a value. */
  datatype Place = Self | ElemAt(i: nat, rest: Place) | Pointed(rest: Place) | FieldAt(k: nat, rest: Place)

  /** The place leads to a skipped field that `v` shares with `d`: through elements of the
      same array or of a backing array that was large enough, pointees, fields, and members
      of the same type. The field holds `x` in `d` and `y` in `v`. */
  ghost predicate SharesSkipped(g: Gen, ty: Ty, d: Val, v: Val, place: Place, x: Val, y: Val)
    decreases place
  {
    match place
    case Self => ty.TSkip? && x == d && y == v
    case ElemAt(i, rest) =>
      || (ty.TSlice? && d.VSlice? && v.VSlice? && i < |v.elems| <= |d.elems + d.stale|
          && SharesSkipped(g, ty.elem, (d.elems + d.stale)[i], v.elems[i], rest, x, y))
      || (ty.TArray? && d.VArr? && v.VArr? && i < |v.elems| == |d.elems|
          && SharesSkipped(g, ty.elem, d.elems[i], v.elems[i], rest, x, y))
    case Pointed(rest) =>
      || (ty.TPtr? && d.VRef? && v.VRef? && SharesSkipped(g, ty.elem, d.v, v.v, rest, x, y))
      || (ty.TUnion? && d.VMem? && v.VMem? && d.tag == v.tag < |ty.members|
          && SharesSkipped(g, TStruct(ty.members[v.tag]), d.v, v.v, rest, x, y))
    case FieldAt(k, rest) =>
      ty.TStruct? && d.VStruct? && v.VStruct? && k < |v.fields| == |d.fields| == |FieldsOf(g, ty.name)|
      && SharesSkipped(g, FieldsOf(g, ty.name)[k], d.fields[k], v.fields[k], rest, x, y)
  }

  lemma {:induction false} KeptInside(g: Gen, ty: Ty, d: Val, v: Val, place: Place, x: Val, y: Val)
    requires Kept(g, ty, d, v) && SharesSkipped(g, ty, d, v, place, x, y)
    ensures x == y
    decreases place
  {
    hide AllKept, FieldsKept;
    match place
    case Self =>
    case ElemAt(i, rest) =>
      if ty.TSlice? {
        AllKeptAt(g, ty.elem, Backing(d)[..|v.elems|], v.elems, i);
        KeptInside(g, ty.elem, Backing(d)[i], v.elems[i], rest, x, y);
      } else {
        AllKeptAt(g, ty.elem, d.elems, v.elems, i);
        KeptInside(g, ty.elem, d.elems[i], v.elems[i], rest, x, y);
      }
    case Pointed(rest) => KeptInside(g, if ty.TPtr? then ty.elem else TStruct(ty.members[v.tag]), d.v, v.v, rest, x, y);
    case FieldAt(k, rest) =>
      FieldsKeptAt(g, FieldsOf(g, ty.name), d.fields, v.fields, k);
      KeptInside(g, FieldsOf(g, ty.name)[k], d.fields[k], v.fields[k], rest, x, y);
  }

  lemma {:induction false} AllKeptAt(g: Gen, e: Ty, ds: seq<Val>, vs: seq<Val>, i: nat)
    requires AllKept(g, e, ds, vs) && i < |vs| == |ds|
    ensures Kept(g, e, ds[i], vs[i])
  {
    hide Kept;
    if i > 0 { AllKeptAt(g, e, ds[1..], vs[1..], i - 1); }
  }

  lemma {:induction false} FieldsKeptAt(g: Gen, tys: seq<Ty>, ds: seq<Val>, vs: seq<Val>, k: nat)
    requires FieldsKept(g, tys, ds, vs) && |tys| == |ds| == |vs| && k < |tys|
    ensures Kept(g, tys[k], ds[k], vs[k])
    decreases k
  {
    hide Kept;
    if k > 0 { FieldsKeptAt(g, tys[1..], ds[1..], vs[1..], k - 1); }
  }

  /** After any decode, at every place, a skipped field that is shared is as it was. */
  lemma SkippedInside(g: Gen, ty: Ty, d: Val, b: Bytes, place: Place, x: Val, y: Val)
    requires WfTy(ty) && HasTy(g, ty, d) && SharesSkipped(g, ty, d, DecInto(g, ty, d, b).v, place, x, y)
    ensures x == y
  {
    hide DecInto, HasTy, WfTy, Kept, SharesSkipped;
    DestinationKept(g, ty, d, b);
    KeptInside(g, ty, d, DecInto(g, ty, d, b).v, place, x, y);
  }
}
