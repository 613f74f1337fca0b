/** The numbers in the names of temporaries: no two in a generated file are the same. */
module Temporaries {
  import opened Schema
  import opened Codec
  import opened Program
  import opened Imports
  import E = Encoders

  /** The temporaries a statement declares, in text order. */
  function Temps(s: Stmt): seq<nat> {
    match s
    case Do(p) => (
        match p
        case CopyStructs(x, _, _) => [x]
        case Save(x) => [x]
        case Declare(x, _) => [x]
        case _ => []
      )
    case Seq(s1, s2) => Temps(s1) + Temps(s2)
    case IfZero(s1, s2) => Temps(s1) + Temps(s2)
    case IfFlag(s1, s2) => Temps(s1) + Temps(s2)
    case ForRange(x, _, body) => [x] + Temps(body)
    case ForLen(x, _, body) => [x] + Temps(body)
    case ForCount(x, _, body) => [x] + Temps(body)
    case Call(_, _, _) => []
    case Switch(_, arms, _) => ArmTemps(arms)
  }

  function ArmTemps(arms: seq<Arm>): (ts: seq<nat>)
    ensures |ts| == |arms|
    ensures forall k :: 0 <= k < |arms| ==> ts[k] == arms[k].x
  {
    seq(|arms|, k requires 0 <= k < |arms| => arms[k].x)
  }

  function EncTemps(s: E.Stmt): seq<nat> {
    match s
    case Seq(s1, s2) => EncTemps(s1) + EncTemps(s2)
    case IfSome(_, s1) => EncTemps(s1)
    case IfNonNil(_, s1, s2) => EncTemps(s1) + EncTemps(s2)
    case ForIndex(x, _, body) => [x] + EncTemps(body)
    case ForLen(x, _, body) => [x] + EncTemps(body)
    case ForEach(x, _, body) => [x] + EncTemps(body)
    case ForEntries(k, v, _, body) => [k, v] + EncTemps(body)
    case _ => []
  }

  /** Every number drawn while the counter went from `lo` to `hi`, each once. */
  ghost predicate Fresh(ts: seq<nat>, lo: nat, hi: nat) {
    && lo <= hi && |ts| == hi - lo
    && (forall k :: 0 <= k < |ts| ==> lo <= ts[k] < hi)
    && (forall j, k :: 0 <= j < k < |ts| ==> ts[j] != ts[k])
  }

  lemma FreshConcat(us: seq<nat>, vs: seq<nat>, lo: nat, mid: nat, hi: nat)
    requires Fresh(us, lo, mid) && Fresh(vs, mid, hi)
    ensures Fresh(us + vs, lo, hi)
  {}

  /** A number drawn first, and what came after. */
  lemma FreshFirst(ts: seq<nat>, x: nat, hi: nat)
    requires Fresh(ts, x + 1, hi)
    ensures Fresh([x] + ts, x, hi)
  {
    FreshConcat([x], ts, x, x + 1, hi);
  }

  // ---------------------------------------------------------------------
  // Unmarshal
  // ---------------------------------------------------------------------

  lemma {:induction false} EmitFresh(g: Gen, ty: Ty, r: Ref, c: nat)
    ensures Fresh(Temps(Emit(g, ty, r, c).0), c, Emit(g, ty, r, c).1)
    decreases ty, 1
  {
    hide EmitElems, Temps, Fresh, RawElems;
    LeafTemps(g, r, c);
    match ty
    case TScalar(k, d) => ScalarTemps(g, r, k, d, c);
    case TStr(_) => CountedTemps(g, r, Do(ReadStr(r)), VNil);
    case TSlice(e, d) =>
      ElemsFresh(g, e, d, r, c);
      CountedTemps(g, r, EmitElems(g, e, d, r, c).0, NIL_SLICE);
    case TArray(m, e, d) => ArrayFresh(g, m, e, d, r, c);
    case TPtr(e, _) =>
      EmitFresh(g, e, RDeref(r), c);
      PtrTemps(g, r, e, Emit(g, e, RDeref(r), c).0);
    case TMap(kt, vt, _) =>
      var (keyCode, c') := Emit(g, kt, RVar(c + 2), c + 4);
      var (valCode, c'') := Emit(g, vt, RVar(c + 3), c');
      EmitFresh(g, kt, RVar(c + 2), c + 4);
      EmitFresh(g, vt, RVar(c + 3), c');
      EmitMap(g, ty, r, c);
      MapTemps(g, ty, r, c, keyCode, valCode);
      FreshConcat(Temps(keyCode), Temps(valCode), c + 4, c', c'');
      FreshFirst(Temps(keyCode) + Temps(valCode), c + 3, c'');
      FreshFirst([c + 3] + (Temps(keyCode) + Temps(valCode)), c + 2, c'');
      FreshFirst([c + 2] + ([c + 3] + (Temps(keyCode) + Temps(valCode))), c + 1, c'');
      FreshFirst([c + 1] + ([c + 2] + ([c + 3] + (Temps(keyCode) + Temps(valCode)))), c, c'');
    case TStruct(_) =>
    case TUnion(ms) => ArmsFresh(g, ms, r, c);
    case TSkip =>
  }

  lemma LeafTemps(g: Gen, r: Ref, c: nat)
    ensures Temps(Do(Skip)) == [] && Temps(Do(ReadStr(r))) == [] && Fresh([], c, c)
    ensures forall n, checked :: Temps(Call(r, n, checked)) == []
  {}

  lemma ScalarTemps(g: Gen, r: Ref, k: Kind, d: Decl, c: nat)
    ensures Fresh(Temps(Seq(IfSafe(g, GuardN(Width(k))), Do(ReadScalar(r, k, d)))), c, c)
  {
    assert Temps(IfSafe(g, GuardN(Width(k)))) == [] && Temps(Do(ReadScalar(r, k, d))) == [];
  }

  lemma CountedTemps(g: Gen, r: Ref, code: Stmt, none: Val)
    ensures Temps(Seq(EmitVarint(g), Seq(IfSafe(g, GuardLen), code))) == Temps(code)
    ensures Temps(Seq(EmitVarint(g), IfZero(Do(SetNil(r, none)), Seq(IfSafe(g, GuardLen), code)))) == Temps(code)
  {
    assert Temps(EmitVarint(g)) == [] && Temps(IfSafe(g, GuardLen)) == [] && Temps(Do(SetNil(r, none))) == [];
    assert Temps(Seq(IfSafe(g, GuardLen), code)) == Temps(code);
    assert Temps(IfZero(Do(SetNil(r, none)), Seq(IfSafe(g, GuardLen), code))) == Temps(code);
  }

  lemma PtrTemps(g: Gen, r: Ref, e: Ty, code: Stmt)
    ensures Temps(Seq(IfSafe(g, GuardN(1)), IfFlag(Seq(Do(NewIfNil(r, e)), code), Do(SetNil(r, VNil))))) == Temps(code)
  {
    assert Temps(IfSafe(g, GuardN(1))) == [] && Temps(Do(NewIfNil(r, e))) == [] && Temps(Do(SetNil(r, VNil))) == [];
    assert Temps(Seq(Do(NewIfNil(r, e)), code)) == Temps(code);
    assert Temps(IfFlag(Seq(Do(NewIfNil(r, e)), code), Do(SetNil(r, VNil)))) == Temps(code);
  }

  lemma MapTemps(g: Gen, ty: Ty, r: Ref, c: nat, keyCode: Stmt, valCode: Stmt)
    requires ty.TMap?
    ensures Temps(MapOf(g, ty, r, c, keyCode, valCode))
         == [c] + ([c + 1] + ([c + 2] + ([c + 3] + (Temps(keyCode) + Temps(valCode)))))
  {
    var body := EntryBody(ty.key, ty.val, r, c, keyCode, valCode);
    var fill := Seq(Do(ClearOrMake(r, ty)), ForCount(c + 1, c, body));
    EntryTemps(ty, r, c, keyCode, valCode);
    FillTemps(ty, r, c, body);
    CountedTemps(g, r, Seq(Do(Save(c)), fill), NIL_MAP);
    hide Temps;
  }

  lemma EntryTemps(ty: Ty, r: Ref, c: nat, keyCode: Stmt, valCode: Stmt)
    requires ty.TMap?
    ensures Temps(EntryBody(ty.key, ty.val, r, c, keyCode, valCode))
         == [c + 2] + ([c + 3] + (Temps(keyCode) + Temps(valCode)))
  {
    var assign := Do(Assign(r, c + 2, c + 3));
    var decode := Seq(keyCode, Seq(valCode, assign));
    assert Temps(assign) == [] && Temps(Seq(valCode, assign)) == Temps(valCode);
    assert Temps(decode) == Temps(keyCode) + Temps(valCode);
    assert Temps(Seq(Do(Declare(c + 3, ty.val)), decode)) == [c + 3] + Temps(decode);
    assert Temps(Do(Declare(c + 2, ty.key))) == [c + 2];
  }

  lemma FillTemps(ty: Ty, r: Ref, c: nat, body: Stmt)
    ensures Temps(Seq(Do(Save(c)), Seq(Do(ClearOrMake(r, ty)), ForCount(c + 1, c, body))))
         == [c] + ([c + 1] + Temps(body))
  {
    var fill := Seq(Do(ClearOrMake(r, ty)), ForCount(c + 1, c, body));
    assert Temps(Do(ClearOrMake(r, ty))) == [] && Temps(Do(Save(c))) == [c];
    assert Temps(fill) == [c + 1] + Temps(body);
  }

  lemma ArmsFresh(g: Gen, ms: seq<Name>, r: Ref, c: nat)
    ensures Fresh(Temps(Seq(EmitVarint(g), Switch(r, Arms(ms, c), g.mode.Safe?))), c, c + |ms|)
  {
    assert Temps(EmitVarint(g)) == [];
    var s := Switch(r, Arms(ms, c), g.mode.Safe?);
    assert Temps(Seq(EmitVarint(g), s)) == Temps(s) == ArmTemps(Arms(ms, c));
  }

  lemma {:induction false} ArrayFresh(g: Gen, m: nat, e: Ty, d: Decl, r: Ref, c: nat)
    ensures Fresh(Temps(Emit(g, TArray(m, e, d), r, c).0), c, Emit(g, TArray(m, e, d), r, c).1)
    decreases e, 2
  {
    hide RawElems, MemCopyable;
    if IsByte(e) {
      assert Temps(IfSafe(g, GuardN(m))) == [] && Temps(Do(CopyArray(r, m))) == [];
    } else if RawElems(g, e) && m > 0 {
    } else if BlitElem(g, e) && m > 0 {
    } else {
      EmitFresh(g, e, RIndex(r, c), c + 1);
      FreshFirst(Temps(Emit(g, e, RIndex(r, c), c + 1).0), c, Emit(g, e, RIndex(r, c), c + 1).1);
    }
  }

  lemma {:induction false} ElemsFresh(g: Gen, e: Ty, d: Decl, r: Ref, c: nat)
    ensures Fresh(Temps(EmitElems(g, e, d, r, c).0), c, EmitElems(g, e, d, r, c).1)
    decreases e, 2
  {
    hide Emit, RawElems;
    if !IsByte(e) {
      assert Temps(Do(GrowSlice(r, e, d))) == [];
      if !RawElems(g, e) && !BlitElem(g, e) {
        EmitFresh(g, e, RIndex(r, c), c + 1);
        FreshFirst(Temps(Emit(g, e, RIndex(r, c), c + 1).0), c, Emit(g, e, RIndex(r, c), c + 1).1);
        assert Temps(ForRange(c, r, Emit(g, e, RIndex(r, c), c + 1).0)) == [c] + Temps(Emit(g, e, RIndex(r, c), c + 1).0);
      }
    }
  }

  lemma {:induction false} FieldsFresh(g: Gen, tys: seq<Ty>, k: nat, c: nat)
    ensures Fresh(Temps(EmitFields(g, tys, k, c).0), c, EmitFields(g, tys, k, c).1)
  {
    hide Emit, Fresh;
    LeafTemps(g, RField(k), c);
    if tys != [] {
      var (s1, c') := Emit(g, tys[0], RField(k), c);
      var (s2, c'') := EmitFields(g, tys[1..], k + 1, c');
      EmitFresh(g, tys[0], RField(k), c);
      FieldsFresh(g, tys[1..], k + 1, c');
      FreshConcat(Temps(s1), Temps(s2), c, c', c'');
    }
  }

  // ---------------------------------------------------------------------
  // Size, Marshal and Append
  // ---------------------------------------------------------------------

  lemma {:induction false} EncodeFresh(g: Gen, job: E.Job, ty: Ty, r: Ref, c: nat)
    ensures Fresh(EncTemps(E.Emit(g, job, ty, r, c).0), c, E.Emit(g, job, ty, r, c).1)
    decreases ty, 1
  {
    hide E.EmitElems, E.EmitArray, EncTemps, Fresh;
    EncLeafTemps(job, r, c);
    match ty
    case TSlice(e, _) =>
      EncElemsFresh(g, job, e, r, c);
      EncSeqTemps(E.EmitLen(job, r), E.EmitElems(g, job, e, r, c).0);
    case TArray(m, e, _) => EncArrayFresh(g, job, m, e, r, c);
    case TPtr(e, _) =>
      EncodeFresh(g, job, e, RDeref(r), c);
      EncFlagTemps(r, E.Emit(g, job, e, RDeref(r), c).0);
    case TMap(kt, vt, _) =>
      var (keyCode, c') := E.Emit(g, job, kt, RVar(c), c + 2);
      var (valCode, c'') := E.Emit(g, job, vt, RVar(c + 1), c');
      EncodeFresh(g, job, kt, RVar(c), c + 2);
      EncodeFresh(g, job, vt, RVar(c + 1), c');
      FreshConcat(EncTemps(keyCode), EncTemps(valCode), c + 2, c', c'');
      FreshFirst(EncTemps(keyCode) + EncTemps(valCode), c + 1, c'');
      FreshFirst([c + 1] + (EncTemps(keyCode) + EncTemps(valCode)), c, c'');
      EncEntriesTemps(job, r, c, keyCode, valCode);
    case TStr(_) => EncSeqTemps(E.EmitLen(job, r), E.Do(if job.Sizing? then E.CountItems(r, 1) else E.WriteText(r)));
    case _ =>
  }

  lemma EncLeafTemps(job: E.Job, r: Ref, c: nat)
    ensures Fresh([], c, c) && EncTemps(E.EmitLen(job, r)) == []
    ensures forall p :: EncTemps(E.Do(p)) == []
    ensures forall n :: EncTemps(E.Call(r, n)) == []
    ensures forall arms, none :: EncTemps(E.TypeSwitch(r, arms, none)) == []
  {}

  lemma EncSeqTemps(s1: E.Stmt, s2: E.Stmt)
    ensures EncTemps(E.Seq(s1, s2)) == EncTemps(s1) + EncTemps(s2)
    ensures EncTemps(s1) == [] ==> EncTemps(E.Seq(s1, s2)) == EncTemps(s2)
  {}

  lemma EncFlagTemps(r: Ref, code: E.Stmt)
    ensures EncTemps(E.Seq(E.Do(E.Count(1)), E.IfNonNil(r, code, E.Do(E.Nothing)))) == EncTemps(code)
    ensures EncTemps(E.IfNonNil(r, E.Seq(E.Do(E.Write([1])), code), E.Do(E.Write([0])))) == EncTemps(code)
  {
    assert EncTemps(E.IfNonNil(r, code, E.Do(E.Nothing))) == EncTemps(code);
    assert EncTemps(E.Seq(E.Do(E.Write([1])), code)) == EncTemps(code);
  }

  lemma EncEntriesTemps(job: E.Job, r: Ref, c: nat, keyCode: E.Stmt, valCode: E.Stmt)
    ensures EncTemps(E.Seq(E.EmitLen(job, r), E.ForEntries(c, c + 1, r, E.Seq(keyCode, valCode))))
         == [c] + ([c + 1] + (EncTemps(keyCode) + EncTemps(valCode)))
  {
    var body := E.Seq(keyCode, valCode);
    assert EncTemps(body) == EncTemps(keyCode) + EncTemps(valCode);
    assert EncTemps(E.ForEntries(c, c + 1, r, body)) == [c, c + 1] + EncTemps(body) == [c] + ([c + 1] + EncTemps(body));
  }

  lemma {:induction false} EncElemsFresh(g: Gen, job: E.Job, e: Ty, r: Ref, c: nat)
    ensures Fresh(EncTemps(E.EmitElems(g, job, e, r, c).0), c, E.EmitElems(g, job, e, r, c).1)
    decreases e, 2
  {
    hide E.Emit;
    var byIndex := E.IndexElems(e);
    var (body, c') := E.Emit(g, job, e, if byIndex then RIndex(r, c) else RVar(c), c + 1);
    EncodeFresh(g, job, e, if byIndex then RIndex(r, c) else RVar(c), c + 1);
    FreshFirst(EncTemps(body), c, c');
  }

  lemma {:induction false} EncArrayFresh(g: Gen, job: E.Job, m: nat, e: Ty, r: Ref, c: nat)
    ensures Fresh(EncTemps(E.EmitArray(g, job, m, e, r, c).0), c, E.EmitArray(g, job, m, e, r, c).1)
    decreases e, 2
  {
    hide E.Emit;
    var (body, c') := E.Emit(g, job, e, RIndex(r, c), c + 1);
    EncodeFresh(g, job, e, RIndex(r, c), c + 1);
    FreshFirst(EncTemps(body), c, c');
  }

  lemma {:induction false} EncFieldsFresh(g: Gen, job: E.Job, tys: seq<Ty>, k: nat, c: nat)
    ensures Fresh(EncTemps(E.EmitFields(g, job, tys, k, c).0), c, E.EmitFields(g, job, tys, k, c).1)
  {
    hide E.Emit, Fresh;
    EncLeafTemps(job, RField(k), c);
    if tys != [] {
      var (s1, c') := E.Emit(g, job, tys[0], RField(k), c);
      var (s2, c'') := E.EmitFields(g, job, tys[1..], k + 1, c');
      EncodeFresh(g, job, tys[0], RField(k), c);
      EncFieldsFresh(g, job, tys[1..], k + 1, c');
      FreshConcat(EncTemps(s1), EncTemps(s2), c, c', c'');
    }
  }

  // ---------------------------------------------------------------------
  // Files
  // ---------------------------------------------------------------------

  /** Where the counter stands after a target's methods. */
  function AfterEncode(g: Gen, job: E.Job, n: Name, c: nat): nat {
    if Blittable(g, n) then c else E.EmitFields(g, job, FieldsOf(g, n), 0, c).1
  }

  function AfterUnmarshal(g: Gen, n: Name, c: nat): nat {
    if Blittable(g, n) then c else EmitFields(g, FieldsOf(g, n), 0, c).1
  }

  lemma EncodeMethodFresh(g: Gen, job: E.Job, n: Name, c: nat)
    ensures Fresh(EncTemps(E.Method(g, job, n, c)), c, AfterEncode(g, job, n, c))
  {
    hide E.EmitFields;
    if !Blittable(g, n) { EncFieldsFresh(g, job, FieldsOf(g, n), 0, c); }
  }

  lemma MethodFresh(g: Gen, n: Name, c: nat)
    ensures Fresh(Temps(Method(g, n, c)), c, AfterUnmarshal(g, n, c))
  {
    hide EmitFields;
    if !Blittable(g, n) { FieldsFresh(g, FieldsOf(g, n), 0, c); }
  }

  function MethodsTemps(m: Methods): seq<nat> {
    EncTemps(m.size) + EncTemps(m.marshal) + EncTemps(m.append) + Temps(m.unmarshal)
  }

  /** Every temporary of a generated file. */
  function FileTemps(code: map<Name, Methods>, targets: seq<Name>): seq<nat>
    requires forall n :: n in targets ==> n in code
  {
    if targets == [] then [] else MethodsTemps(code[targets[0]]) + FileTemps(code, targets[1..])
  }

  lemma NoTemps(code: map<Name, Methods>, c: nat)
    ensures Fresh(FileTemps(code, []), c, c)
  {}

  lemma {:induction false} FileTempsSnoc(code: map<Name, Methods>, targets: seq<Name>, n: Name, m: Methods)
    requires (forall x :: x in targets ==> x in code) && n !in targets
    ensures FileTemps(code[n := m], targets + [n]) == FileTemps(code, targets) + MethodsTemps(m)
  {
    if targets == [] {
      assert ([n])[1..] == [] && targets + [n] == [n];
    } else {
      assert (targets + [n])[1..] == targets[1..] + [n];
      FileTempsSnoc(code, targets[1..], n, m);
    }
  }
}
