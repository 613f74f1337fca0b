/** Which schemas safe mode's length guards refuse an encoding of. */
module Narrow {
  import opened Bytes
  import opened Varint
  import opened Schema
  import opened Ways
  import opened Codec
  import opened RoundTrip
  import opened Guarantees
  import opened Program
  import Memory
  import opened EmitCorrect
  import Unmarshal

  /** Bytes that every value of the type takes on the safe wire, at least. */
  function MinSize(g: Gen, ty: Ty): nat
    decreases TyRank(g, ty), ty
  {
    match ty
    case TScalar(k, _) => Width(k)
    case TArray(m, e, _) => m * MinSize(g, e)
    case TStruct(n) => MinFields(g, FieldsOf(g, n))
    case TSkip => 0
    case _ => 1
  }

  function MinFields(g: Gen, tys: seq<Ty>): nat
    decreases FieldsRank(g, tys), tys
  {
    if tys == [] then 0 else MinSize(g, tys[0]) + MinFields(g, tys[1..])
  }

  /** The way leads to a slice or map whose elements or entries take no byte, with nothing
      behind it to make up for them: a map of such entries has one at most, a slice any
      number. `k` bytes follow the type. */
  ghost predicate Starved(g: Gen, ty: Ty, p: Path, k: nat)
    decreases p, 0
  {
    match p
    case Here =>
      || (ty.TSlice? && !Occupies(g, ty.elem) && k < MAX_LEN)
      || (ty.TMap? && !Occupies(g, ty.key) && !Occupies(g, ty.val) && k == 0)
    case Elem(q) => (ty.TSlice? || (ty.TArray? && ty.len > 0)) && Starved(g, ty.elem, q, k)
    case Deref(q) => ty.TPtr? && Starved(g, ty.elem, q, k)
    case Key(q) => false
    case Value(q) => ty.TMap? && Starved(g, ty.val, q, k)
    case In(j, q) => ty.TStruct? && StarvedField(g, FieldsOf(g, ty.name), j, q, k)
    case Into(t, j, q) => ty.TUnion? && t < |ty.members| && StarvedField(g, FieldsOf(g, ty.members[t]), j, q, k)
  }

  /** Behind the field come the fields after it. */
  ghost predicate StarvedField(g: Gen, tys: seq<Ty>, j: nat, p: Path, k: nat)
    decreases p, 1
  {
    j < |tys| && Starved(g, tys[j], p, MinFields(g, tys[j + 1..]) + k)
  }

  /** More bytes behind only help. */
  lemma {:induction false} StarvedLess(g: Gen, ty: Ty, p: Path, k: nat, k': nat)
    requires Starved(g, ty, p, k) && k' <= k
    ensures Starved(g, ty, p, k')
    decreases p
  {
    match p
    case Here =>
    case Elem(q) => StarvedLess(g, ty.elem, q, k, k');
    case Deref(q) => StarvedLess(g, ty.elem, q, k, k');
    case Value(q) => StarvedLess(g, ty.val, q, k, k');
    case In(j, q) =>
      var tys := FieldsOf(g, ty.name);
      StarvedLess(g, tys[j], q, MinFields(g, tys[j + 1..]) + k, MinFields(g, tys[j + 1..]) + k');
    case Into(t, j, q) =>
      var tys := FieldsOf(g, ty.members[t]);
      StarvedLess(g, tys[j], q, MinFields(g, tys[j + 1..]) + k, MinFields(g, tys[j + 1..]) + k');
  }

  // ---------------------------------------------------------------------
  // The least encoding
  // ---------------------------------------------------------------------

  lemma {:induction false} MinIsLeast(g: Gen, ty: Ty, v: Val)
    requires g.mode.Safe? && HasTy(g, ty, v)
    ensures |Enc(g, ty, v)| >= MinSize(g, ty)
    decreases v, 1
  {
    hide EncSeq, EncFields, EncEntries, MinFields;
    match ty
    case TArray(m, e, _) => MinOfSeq(g, e, v.elems);
    case TStruct(n) => MinOfFields(g, FieldsOf(g, n), v.fields);
    case TUnion(ms) => if v.VMem? { assert |Leb(v.tag + 1)| >= 1; }
    case _ =>
  }

  lemma {:induction false} MinOfSeq(g: Gen, e: Ty, vs: seq<Val>)
    requires g.mode.Safe? && AllHaveTy(g, e, vs)
    ensures |EncSeq(g, e, vs)| >= |vs| * MinSize(g, e)
    decreases vs, 0
  {
    hide Enc, MinSize, HasTy;
    if vs != [] {
      MinIsLeast(g, e, vs[0]);
      MinOfSeq(g, e, vs[1..]);
      Memory.MulStep(|vs|, MinSize(g, e));
    }
  }

  lemma {:induction false} MinOfFields(g: Gen, tys: seq<Ty>, vs: seq<Val>)
    requires g.mode.Safe? && FieldsHaveTy(g, tys, vs)
    ensures |EncFields(g, tys, vs)| >= MinFields(g, tys)
    decreases vs, 0
  {
    hide Enc, MinSize, HasTy;
    if vs != [] {
      MinIsLeast(g, tys[0], vs[0]);
      MinOfFields(g, tys[1..], vs[1..]);
    }
  }

  /** The zero value takes no more. */
  lemma {:induction false} ZeroIsLeast(g: Gen, ty: Ty)
    requires g.mode.Safe?
    ensures |Enc(g, ty, Zero(g, ty))| == MinSize(g, ty)
    decreases TyRank(g, ty), ty
  {
    hide EncSeq, EncFields, MinFields, ZeroFields;
    LebZero();
    match ty
    case TSlice(e, _) => assert EncSeq(g, e, []) == [] by { NothingToWrite(g, e); }
    case TArray(m, e, _) =>
      ZeroIsLeast(g, e);
      ZerosSize(g, e, m);
    case TMap(kt, vt, _) => assert EncEntries(g, kt, vt, []) == [];
    case TStruct(n) => ZeroFieldsLeast(g, FieldsOf(g, n));
    case _ =>
  }

  lemma LebZero()
    ensures Leb(0) == [0]
  {}

  lemma NothingToWrite(g: Gen, e: Ty)
    ensures EncSeq(g, e, []) == []
  {}

  lemma {:induction false} ZerosSize(g: Gen, e: Ty, m: nat)
    requires g.mode.Safe? && |Enc(g, e, Zero(g, e))| == MinSize(g, e)
    ensures |EncSeq(g, e, Zeros(m, Zero(g, e)))| == m * MinSize(g, e)
  {
    hide Enc, MinSize, Zero;
    var z := Zero(g, e);
    if m == 0 {
      NothingToWrite(g, e);
    } else {
      ZerosSize(g, e, m - 1);
      assert Zeros(m, z)[1..] == Zeros(m - 1, z);
      assert EncSeq(g, e, Zeros(m, z)) == Enc(g, e, z) + EncSeq(g, e, Zeros(m - 1, z));
      Memory.MulStep(m, MinSize(g, e));
    }
  }

  lemma {:induction false} ZeroFieldsLeast(g: Gen, tys: seq<Ty>)
    requires g.mode.Safe?
    ensures |EncFields(g, tys, ZeroFields(g, tys))| == MinFields(g, tys)
    decreases FieldsRank(g, tys), tys
  {
    hide Enc, MinSize, Zero;
    if tys != [] {
      ZeroIsLeast(g, tys[0]);
      ZeroFieldsLeast(g, tys[1..]);
    }
  }

  // ---------------------------------------------------------------------
  // What does not fit was starved
  // ---------------------------------------------------------------------

  lemma {:induction false} Misfit(g: Gen, ty: Ty, v: Val, k: nat) returns (p: Path)
    requires g.mode.Safe? && WfTy(ty) && HasTy(g, ty, v) && !Fits(g, ty, v, k)
    ensures Starved(g, ty, p, k)
    decreases v, 1
  {
    hide FitsSeq, FitsStruct, FitsEntries, EncSeq, EncEntries, Occupies;
    match ty
    case TSlice(e, _) =>
      if |v.elems| > |EncSeq(g, e, v.elems)| + k {
        if Occupies(g, e) { ElemsOccupy(g, e, v.elems); }
        p := Here;
      } else {
        p := MisfitSeq(g, e, v.elems, k);
        p := Elem(p);
      }
    case TArray(_, e, _) =>
      p := MisfitSeq(g, e, v.elems, k);
      p := Elem(p);
      SomeElem(g, e, v.elems, k);
    case TPtr(e, _) =>
      p := Misfit(g, e, v.v, k);
      p := Deref(p);
    case TMap(kt, vt, _) =>
      if |v.entries| > |EncEntries(g, kt, vt, v.entries)| + k {
        if Occupies(g, kt) || Occupies(g, vt) { EntriesOccupy(g, kt, vt, v.entries); }
        OneNarrowKey(g, kt, vt, v.entries);
        p := Here;
      } else {
        p := MisfitEntries(g, kt, vt, v.entries, k);
        p := Value(p);
      }
    case TStruct(n) =>
      var j;
      j, p := MisfitStruct(g, n, v, k);
      p := In(j, p);
    case TUnion(ms) =>
      var j;
      j, p := MisfitStruct(g, ms[v.tag], v.v, k);
      p := Into(v.tag, j, p);
    case _ =>
  }

  lemma SomeElem(g: Gen, e: Ty, vs: seq<Val>, k: nat)
    ensures !FitsSeq(g, e, vs, k) ==> vs != []
  {}

  lemma {:induction false} MisfitStruct(g: Gen, n: Name, v: Val, k: nat) returns (j: nat, p: Path)
    requires g.mode.Safe? && HasTy(g, TStruct(n), v) && !FitsStruct(g, n, v, k)
    ensures StarvedField(g, FieldsOf(g, n), j, p, k)
    decreases v, 0
  {
    hide FitsFields;
    StructWf(g, n);
    FieldsOfTyped(g, n, v);
    j, p := MisfitFields(g, FieldsOf(g, n), v.fields, k);
  }

  lemma {:induction false} MisfitSeq(g: Gen, e: Ty, vs: seq<Val>, k: nat) returns (p: Path)
    requires g.mode.Safe? && WfTy(e) && AllHaveTy(g, e, vs) && !FitsSeq(g, e, vs, k)
    ensures Starved(g, e, p, k)
    decreases vs, 0
  {
    hide Fits, Enc, HasTy, Starved;
    var more := |EncSeq(g, e, vs[1..])| + k;
    if Fits(g, e, vs[0], more) {
      p := MisfitSeq(g, e, vs[1..], k);
    } else {
      p := Misfit(g, e, vs[0], more);
      StarvedLess(g, e, p, more, k);
    }
  }

  lemma {:induction false} MisfitFields(g: Gen, tys: seq<Ty>, vs: seq<Val>, k: nat) returns (j: nat, p: Path)
    requires g.mode.Safe? && WfFields(tys) && FieldsHaveTy(g, tys, vs) && !FitsFields(g, tys, vs, k)
    ensures StarvedField(g, tys, j, p, k)
    decreases vs, 0
  {
    hide Fits, Enc, HasTy, Starved, MinFields;
    var more := |EncFields(g, tys[1..], vs[1..])| + k;
    if Fits(g, tys[0], vs[0], more) {
      j, p := MisfitFields(g, tys[1..], vs[1..], k);
      assert tys[1..][j + 1..] == tys[j + 2..];
      j := j + 1;
    } else {
      j := 0;
      p := Misfit(g, tys[0], vs[0], more);
      MinOfFields(g, tys[1..], vs[1..]);
      StarvedLess(g, tys[0], p, more, MinFields(g, tys[1..]) + k);
    }
  }

  lemma {:induction false} MisfitEntries(g: Gen, kt: Ty, vt: Ty, es: seq<Entry>, k: nat) returns (p: Path)
    requires g.mode.Safe? && KeyTy(kt) && WfTy(vt) && EntriesHaveTy(g, kt, vt, es) && !FitsEntries(g, kt, vt, es, k)
    ensures Starved(g, vt, p, k)
    decreases es, 0
  {
    hide FitsEntry, EncEntry, EntryHasTy, Starved;
    var more := |EncEntries(g, kt, vt, es[1..])| + k;
    if FitsEntry(g, kt, vt, es[0], more) {
      p := MisfitEntries(g, kt, vt, es[1..], k);
    } else {
      p := MisfitEntry(g, kt, vt, es[0], more);
      StarvedLess(g, vt, p, more, k);
    }
  }

  /** A key always fits. */
  lemma {:induction false} MisfitEntry(g: Gen, kt: Ty, vt: Ty, e: Entry, k: nat) returns (p: Path)
    requires g.mode.Safe? && KeyTy(kt) && WfTy(vt) && EntryHasTy(g, kt, vt, e) && !FitsEntry(g, kt, vt, e, k)
    ensures Starved(g, vt, p, k)
    decreases e, 0
  {
    hide Fits, Enc, HasTy, Starved;
    KeyFits(g, kt, e.k, |Enc(g, vt, e.v)| + k);
    p := Misfit(g, vt, e.v, k);
  }

  /** A key that takes no byte has only one value. */
  lemma {:induction false} NarrowKey(g: Gen, kt: Ty, x: Val, y: Val)
    requires KeyTy(kt) && !Occupies(g, kt) && HasTy(g, kt, x) && HasTy(g, kt, y)
    ensures x == y
    decreases kt
  {
    var e := kt.elem;
    forall i | 0 <= i < kt.len ensures x.elems[i] == y.elems[i] {
      AllTypedAt(g, e, x.elems, i);
      AllTypedAt(g, e, y.elems, i);
      NarrowKey(g, e, x.elems[i], y.elems[i]);
    }
    assert x.elems == y.elems;
  }

  lemma {:induction false} AllTypedAt(g: Gen, e: Ty, vs: seq<Val>, i: nat)
    requires AllHaveTy(g, e, vs) && i < |vs|
    ensures HasTy(g, e, vs[i])
  {
    if i > 0 { AllTypedAt(g, e, vs[1..], i - 1); }
  }

  lemma OneNarrowKey(g: Gen, kt: Ty, vt: Ty, es: seq<Entry>)
    requires KeyTy(kt) && EntriesHaveTy(g, kt, vt, es) && DistinctKeys(es)
    ensures !Occupies(g, kt) ==> |es| <= 1
  {
    hide HasTy, Occupies;
    if |es| > 1 && !Occupies(g, kt) {
      assert EntryHasTy(g, kt, vt, es[0]) && EntriesHaveTy(g, kt, vt, es[1..]);
      assert es[1..][0] == es[1] && EntryHasTy(g, kt, vt, es[1]);
      NarrowKey(g, kt, es[0].k, es[1].k);
    }
  }

  // ---------------------------------------------------------------------
  // What is starved does not fit
  // ---------------------------------------------------------------------

  lemma {:induction false} StarvedValue(g: Gen, ty: Ty, p: Path, k: nat) returns (v: Val)
    requires g.mode.Safe? && WfTy(ty) && Starved(g, ty, p, k)
    ensures HasTy(g, ty, v) && !Fits(g, ty, v, k)
    decreases p, 0
  {
    hide FitsSeq, FitsEntries, EncSeq, EncEntries, Occupies, AllHaveTy, EntriesHaveTy;
    match p
    case Here => if ty.TSlice? { v := NarrowSlice(g, ty, k); } else { v := NarrowMap(g, ty); }
    case Elem(q) =>
      var w := StarvedValue(g, ty.elem, q, k);
      ZeroHasTy(g, ty.elem);
      if ty.TSlice? {
        LastMisfits(g, ty.elem, 0, w, k);
        v := VSlice(false, Zeros(0, Zero(g, ty.elem)) + [w], []);
        NoneTyped(g, ty.elem);
      } else {
        LastMisfits(g, ty.elem, ty.len - 1, w, k);
        v := VArr(Zeros(ty.len - 1, Zero(g, ty.elem)) + [w]);
      }
    case Deref(q) =>
      var w := StarvedValue(g, ty.elem, q, k);
      v := VRef(w);
    case Value(q) =>
      var w := StarvedValue(g, ty.val, q, k);
      v := VMap(false, [Entry(Zero(g, ty.key), w)]);
      OneEntry(g, ty.key, ty.val, w, k);
    case In(j, q) =>
      v := StarvedStruct(g, ty.name, j, q, k);
    case Into(t, j, q) =>
      var w := StarvedStruct(g, ty.members[t], j, q, k);
      v := VMem(t, w);
  }

  lemma NoneTyped(g: Gen, e: Ty)
    ensures AllHaveTy(g, e, [])
  {}

  /** More elements that take no byte than there are bytes. */
  lemma NarrowSlice(g: Gen, ty: Ty, k: nat) returns (v: Val)
    requires g.mode.Safe? && ty.TSlice? && !Occupies(g, ty.elem) && k < MAX_LEN
    ensures HasTy(g, ty, v) && !Fits(g, ty, v, k)
  {
    hide Occupies, EncSeq, FitsSeq, AllHaveTy;
    var z := Zero(g, ty.elem);
    v := VSlice(false, Zeros(k + 1, z), []);
    ZeroHasTy(g, ty.elem);
    ZerosHaveTy(g, ty.elem, k + 1, z);
    NoneTyped(g, ty.elem);
    NothingInSeq(g, ty.elem, Zeros(k + 1, z));
  }

  lemma NarrowMap(g: Gen, ty: Ty) returns (v: Val)
    requires g.mode.Safe? && ty.TMap? && !Occupies(g, ty.key) && !Occupies(g, ty.val)
    ensures HasTy(g, ty, v) && !Fits(g, ty, v, 0)
  {
    hide Occupies, FitsEntries, Enc, HasTy;
    ZeroHasTy(g, ty.key);
    ZeroHasTy(g, ty.val);
    v := VMap(false, [Entry(Zero(g, ty.key), Zero(g, ty.val))]);
    NarrowEntry(g, ty, Zero(g, ty.key), Zero(g, ty.val));
  }

  lemma NarrowEntry(g: Gen, ty: Ty, k: Val, v: Val)
    requires g.mode.Safe? && ty.TMap? && HasTy(g, ty.key, k) && HasTy(g, ty.val, v) && !Occupies(g, ty.key) && !Occupies(g, ty.val)
    ensures var m := VMap(false, [Entry(k, v)]); HasTy(g, ty, m) && !Fits(g, ty, m, 0)
  {
    hide Occupies, FitsEntries, Enc;
    NothingEncoded(g, ty.key, k);
    NothingEncoded(g, ty.val, v);
    var es := [Entry(k, v)];
    assert es[1..] == [];
    assert EntryHasTy(g, ty.key, ty.val, es[0]) && EntriesHaveTy(g, ty.key, ty.val, es[1..]) && DistinctKeys(es);
    assert EncEntry(g, ty.key, ty.val, es[0]) == [];
    assert EncEntries(g, ty.key, ty.val, es) == EncEntry(g, ty.key, ty.val, es[0]) + EncEntries(g, ty.key, ty.val, es[1..]) == [];
  }

  /** The last element has only what follows the whole. */
  lemma {:induction false} LastMisfits(g: Gen, e: Ty, m: nat, w: Val, k: nat)
    requires HasTy(g, e, Zero(g, e)) && HasTy(g, e, w) && !Fits(g, e, w, k)
    ensures var vs := Zeros(m, Zero(g, e)) + [w]; AllHaveTy(g, e, vs) && !FitsSeq(g, e, vs, k)
  {
    hide Fits, HasTy, Enc, Zero;
    var z := Zero(g, e);
    var vs := Zeros(m, z) + [w];
    if m == 0 {
      assert vs == [w] && vs[1..] == [];
      assert EncSeq(g, e, vs[1..]) == [] by { NothingToWrite(g, e); }
      NoneTyped(g, e);
    } else {
      LastMisfits(g, e, m - 1, w, k);
      assert vs[1..] == Zeros(m - 1, z) + [w];
    }
  }

  lemma OneEntry(g: Gen, kt: Ty, vt: Ty, w: Val, k: nat)
    requires HasTy(g, vt, w) && !Fits(g, vt, w, k)
    ensures var es := [Entry(Zero(g, kt), w)];
            EntriesHaveTy(g, kt, vt, es) && DistinctKeys(es) && !FitsEntries(g, kt, vt, es, k)
  {
    hide Fits, HasTy, Enc, Zero;
    ZeroHasTy(g, kt);
    var es := [Entry(Zero(g, kt), w)];
    assert es[1..] == [];
    assert EncEntries(g, kt, vt, es[1..]) == [];
    assert EntryHasTy(g, kt, vt, es[0]) && EntriesHaveTy(g, kt, vt, es[1..]);
    assert !FitsEntry(g, kt, vt, es[0], k);
  }

  lemma {:induction false} StarvedStruct(g: Gen, n: Name, j: nat, p: Path, k: nat) returns (v: Val)
    requires g.mode.Safe? && StarvedField(g, FieldsOf(g, n), j, p, k)
    ensures HasTy(g, TStruct(n), v) && !FitsStruct(g, n, v, k)
    decreases p, 1
  {
    hide Starved, MinFields, FitsFields, FieldsHaveTy;
    StructWf(g, n);
    var tys := FieldsOf(g, n);
    var w := StarvedValue(g, tys[j], p, MinFields(g, tys[j + 1..]) + k);
    var vs := FieldMisfits(g, tys, j, w, k);
    v := VStruct(vs, []);
    MisfitIsStruct(g, n, vs, k);
  }

  lemma MisfitIsStruct(g: Gen, n: Name, vs: seq<Val>, k: nat)
    requires FieldsHaveTy(g, FieldsOf(g, n), vs) && |vs| == |FieldsOf(g, n)| && !FitsFields(g, FieldsOf(g, n), vs, k)
    ensures HasTy(g, TStruct(n), VStruct(vs, [])) && !FitsStruct(g, n, VStruct(vs, []), k)
  {
    hide FieldsHaveTy, FitsFields;
  }

  /** Zero values in the other fields. */
  lemma {:induction false} FieldMisfits(g: Gen, tys: seq<Ty>, j: nat, w: Val, k: nat) returns (vs: seq<Val>)
    requires g.mode.Safe? && j < |tys| && HasTy(g, tys[j], w) && !Fits(g, tys[j], w, MinFields(g, tys[j + 1..]) + k)
    ensures FieldsHaveTy(g, tys, vs) && |vs| == |tys| && !FitsFields(g, tys, vs, k)
    decreases j
  {
    hide Fits, HasTy, Enc, Zero, MinFields;
    if j == 0 {
      ZeroFieldsHaveTy(g, tys[1..]);
      ZeroFieldsLeast(g, tys[1..]);
      vs := [w] + ZeroFields(g, tys[1..]);
      assert vs[1..] == ZeroFields(g, tys[1..]);
    } else {
      assert tys[1..][j..] == tys[j + 1..];
      var rest := FieldMisfits(g, tys[1..], j - 1, w, k);
      ZeroHasTy(g, tys[0]);
      vs := [Zero(g, tys[0])] + rest;
      assert vs[1..] == rest;
    }
  }

  // ---------------------------------------------------------------------
  // Every value of a target
  // ---------------------------------------------------------------------

  /** The emitted Unmarshal gives the value back from its encoding and any suffix. */
  ghost predicate RoundTripped(g: Gen, starts: Starts, n: Name, d: Val, v: Val, s: Bytes) {
    var w := EncStruct(g, n, v);
    var o := Invoke(g, starts, Need(g, |w + s|, RankOf(g, n) + 1), n, d, w + s);
    o.Next? && o.st.i == |w| && View(o.st.recv) == Norm(v)
  }

  /** Safe mode: every value of a target round-trips before every suffix if and only if no
      slice or map that its values can hold is starved. */
  lemma EveryValueRoundTrips(g: Gen, starts: Starts, n: Name, d: Val)
    requires g.mode.Safe? && HasTy(g, TStruct(n), d)
    ensures (forall v, s :: HasTy(g, TStruct(n), v) ==> RoundTripped(g, starts, n, d, v, s))
              <==> !exists p :: Starved(g, TStruct(n), p, 0)
  {
    hide Invoke, EncStruct, FitsStruct, HasTy, Starved;
    if p :| Starved(g, TStruct(n), p, 0) {
      var v := StarvedValue(g, TStruct(n), p, 0);
      FitsIsStruct(g, n, v, 0);
      Unmarshal.MethodRoundTrip(g, starts, Need(g, |EncStruct(g, n, v) + []|, RankOf(g, n) + 1), n, d, v, []);
      assert !RoundTripped(g, starts, n, d, v, []);
    } else {
      forall v, s | HasTy(g, TStruct(n), v) ensures RoundTripped(g, starts, n, d, v, s) {
        Unmarshal.MethodRoundTrip(g, starts, Need(g, |EncStruct(g, n, v) + s|, RankOf(g, n) + 1), n, d, v, s);
        FitsIsStruct(g, n, v, |s|);
        if !FitsStruct(g, n, v, |s|) {
          var p := Misfit(g, TStruct(n), v, |s|);
          StarvedLess(g, TStruct(n), p, |s|, 0);
        }
      }
    }
  }

  lemma FitsIsStruct(g: Gen, n: Name, v: Val, k: nat)
    ensures Fits(g, TStruct(n), v, k) == FitsStruct(g, n, v, k)
  {
    hide FitsStruct;
  }
}
