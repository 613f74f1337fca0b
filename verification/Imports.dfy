/** Which packages the emitted code names, and which imports a generated file gets. */
module Imports {
  import opened Schema
  import opened Ways
  import opened Codec
  import opened Program
  import Marshal
  import E = Encoders

  // ---------------------------------------------------------------------
  // The packages the emitted text names
  // ---------------------------------------------------------------------

  /** time.Time occurs in the type. */
  predicate HasTime(ty: Ty) {
    match ty
    case TScalar(k, _) => k == KTime
    case TSlice(e, _) => HasTime(e)
    case TArray(_, e, _) => HasTime(e)
    case TPtr(e, _) => HasTime(e)
    case TMap(kt, vt, _) => HasTime(kt) || HasTime(vt)
    case _ => false
  }

  /** The text of a type declared as `d`, over underlying text that names `p` if `inside`. */
  predicate DeclNames(d: Decl, p: string, inside: bool) {
    match d
    case Builtin => inside
    case Declared(ps) => p in ps
  }

  /** The text of the type is qualified with `p` somewhere. A declared type is written by
      its name, so nothing inside it shows. */
  predicate TypeNames(ty: Ty, p: string) {
    match ty
    case TScalar(k, d) => if k == KTime then p == "time" else DeclNames(d, p, false)
    case TStr(d) => DeclNames(d, p, false)
    case TSlice(e, d) => DeclNames(d, p, TypeNames(e, p))
    case TArray(_, e, d) => DeclNames(d, p, TypeNames(e, p))
    case TPtr(e, d) => DeclNames(d, p, TypeNames(e, p))
    case TMap(kt, vt, d) => DeclNames(d, p, TypeNames(kt, p) || TypeNames(vt, p))
    case _ => false
  }

  /** The way leads, through types written in full, to one declared in `p` or to
      time.Time. */
  predicate WrittenAt(ty: Ty, way: Path, p: string)
    decreases way
  {
    match way
    case Here =>
      match ty {
        case TScalar(k, d) => if k == KTime then p == "time" else d.Declared? && p in d.pkgs
        case TStruct(_) | TUnion(_) | TSkip => false
        case _ => ty.decl.Declared? && p in ty.decl.pkgs
      }
    case Elem(rest) => (ty.TSlice? || ty.TArray?) && ty.decl.Builtin? && WrittenAt(ty.elem, rest, p)
    case Deref(rest) => ty.TPtr? && ty.decl.Builtin? && WrittenAt(ty.elem, rest, p)
    case Key(rest) => ty.TMap? && ty.decl.Builtin? && WrittenAt(ty.key, rest, p)
    case Value(rest) => ty.TMap? && ty.decl.Builtin? && WrittenAt(ty.val, rest, p)
    case _ => false
  }

  /** A type's text names a package exactly when such a way exists. */
  lemma TextNamesExactly(ty: Ty, p: string)
    ensures TypeNames(ty, p) <==> exists way :: WrittenAt(ty, way, p)
  {
    if TypeNames(ty, p) {
      var way := NamedAt(ty, p);
      assert WrittenAt(ty, way, p);
      assert exists w :: WrittenAt(ty, w, p);
    } else {
      forall way ensures !WrittenAt(ty, way, p) {
        if WrittenAt(ty, way, p) { WrittenIsNamed(ty, way, p); }
      }
    }
  }

  lemma {:induction false} WrittenIsNamed(ty: Ty, way: Path, p: string)
    requires WrittenAt(ty, way, p)
    ensures TypeNames(ty, p)
    decreases way
  {
    match way
    case Here =>
    case Elem(rest) => WrittenIsNamed(ty.elem, rest, p);
    case Deref(rest) => WrittenIsNamed(ty.elem, rest, p);
    case Key(rest) => WrittenIsNamed(ty.key, rest, p);
    case Value(rest) => WrittenIsNamed(ty.val, rest, p);
  }

  lemma {:induction false} NamedAt(ty: Ty, p: string) returns (way: Path)
    requires TypeNames(ty, p)
    ensures WrittenAt(ty, way, p)
  {
    way := Here;
    if !WrittenAt(ty, Here, p) {
      match ty
      case TSlice(e, _) =>
        way := NamedAt(e, p);
        way := Elem(way);
      case TArray(_, e, _) =>
        way := NamedAt(e, p);
        way := Elem(way);
      case TPtr(e, _) =>
        way := NamedAt(e, p);
        way := Deref(way);
      case TMap(kt, vt, _) =>
        if TypeNames(kt, p) {
          way := NamedAt(kt, p);
          way := Key(way);
        } else {
          way := NamedAt(vt, p);
          way := Value(way);
        }
    }
  }

  /** The kinds whose read is a conversion to the field's own type. */
  predicate Converted(k: Kind) { k !in {KBool, KFloat32, KFloat64, KTime} }

  /** A read writes the name: of time.Time's constructor, or of the type converted to. */
  predicate ReadNames(k: Kind, d: Decl, p: string) { if k == KTime then p == "time" else Converted(k) && DeclNames(d, p, false) }

  /** The text of the statement names package `p`. */
  predicate Names(s: Stmt, p: string) {
    match s
    case Do(q) => (
        match q
        case ReadScalar(_, k, d) => ReadNames(k, d, p)
        case GrowSlice(_, e, d) => TypeNames(TSlice(e, d), p)
        case ClearOrMake(_, ty) => TypeNames(ty, p)
        case NewIfNil(_, e) => TypeNames(e, p)
        case Declare(_, ty) => TypeNames(ty, p)
        case _ => false
      )
    case Seq(s1, s2) => Names(s1, p) || Names(s2, p)
    case IfZero(s1, s2) => Names(s1, p) || Names(s2, p)
    case IfFlag(s1, s2) => Names(s1, p) || Names(s2, p)
    case ForRange(_, _, body) => Names(body, p)
    case ForLen(_, _, body) => Names(body, p)
    case ForCount(_, _, body) => Names(body, p)
    case _ => false
  }

  predicate UsesUnsafe(s: Stmt) {
    match s
    case Do(p) => p.CopyRaw? || p.CopyStructs? || p.Memmove?
    case Seq(s1, s2) => UsesUnsafe(s1) || UsesUnsafe(s2)
    case IfZero(s1, s2) => UsesUnsafe(s1) || UsesUnsafe(s2)
    case IfFlag(s1, s2) => UsesUnsafe(s1) || UsesUnsafe(s2)
    case ForRange(_, _, body) => UsesUnsafe(body)
    case ForLen(_, _, body) => UsesUnsafe(body)
    case ForCount(_, _, body) => UsesUnsafe(body)
    case _ => false
  }

  // ---------------------------------------------------------------------
  // Read off the types alone
  // ---------------------------------------------------------------------

  /** Decoding the type writes `p`: in a conversion, or in the type of a make, a new or a
      variable, here or further in. A raw copy into an array writes no type. */
  predicate Writes(g: RawGen, ty: Ty, p: string) {
    match ty
    case TScalar(k, d) => ReadNames(k, d, p)
    case TSlice(e, _) => !IsByte(e) && (TypeNames(ty, p) || (!RawElems(g, e) && Writes(g, e, p)))
    case TArray(m, e, _) => !(RawElems(g, e) && m > 0) && Writes(g, e, p)
    case TPtr(e, _) => TypeNames(e, p) || Writes(g, e, p)
    case TMap(kt, vt, _) => TypeNames(ty, p) || TypeNames(kt, p) || TypeNames(vt, p) || Writes(g, kt, p) || Writes(g, vt, p)
    case _ => false
  }

  /** Decoding the type copies raw memory. */
  predicate NeedsUnsafe(g: RawGen, ty: Ty) {
    match ty
    case TSlice(e, _) => !IsByte(e) && (RawElems(g, e) || BlitElem(g, e) || NeedsUnsafe(g, e))
    case TArray(m, e, _) => !IsByte(e) && (((RawElems(g, e) || BlitElem(g, e)) && m > 0) || NeedsUnsafe(g, e))
    case TPtr(e, _) => NeedsUnsafe(g, e)
    case TMap(kt, vt, _) => NeedsUnsafe(g, kt) || NeedsUnsafe(g, vt)
    case _ => false
  }

  /** What a target's Unmarshal names and copies. */
  predicate MethodWrites(g: RawGen, n: Name, p: string) {
    !Blittable(g, n) && exists k :: 0 <= k < |FieldsOf(g, n)| && Writes(g, FieldsOf(g, n)[k], p)
  }

  predicate MethodHasTime(g: RawGen, n: Name) {
    exists k :: 0 <= k < |FieldsOf(g, n)| && HasTime(FieldsOf(g, n)[k])
  }

  predicate MethodUnsafe(g: RawGen, n: Name) {
    Blittable(g, n) || exists k :: 0 <= k < |FieldsOf(g, n)| && NeedsUnsafe(g, FieldsOf(g, n)[k])
  }

  /** time.Time is named wherever it occurs: its reads are never skipped. */
  lemma {:induction false} TimeIsWritten(g: RawGen, ty: Ty)
    ensures HasTime(ty) ==> Writes(g, ty, "time")
  {
    hide RawElems;
    match ty
    case TSlice(e, _) =>
      RawHasNoTime(g, e);
      TimeIsWritten(g, e);
    case TArray(_, e, _) =>
      RawHasNoTime(g, e);
      TimeIsWritten(g, e);
    case TPtr(e, _) => TimeIsWritten(g, e);
    case TMap(kt, vt, _) =>
      TimeIsWritten(g, kt);
      TimeIsWritten(g, vt);
    case _ =>
  }

  lemma {:induction false} FixedHasNoTime(ty: Ty)
    requires IsFixedWidth(ty)
    ensures !HasTime(ty)
  {
    if ty.TArray? { FixedHasNoTime(ty.elem); }
  }

  /** Raw-copied elements are not time.Time. */
  lemma RawHasNoTime(g: RawGen, e: Ty)
    ensures RawElems(g, e) ==> !HasTime(e)
  {
    if RawElems(g, e) {
      MemCopyableIsFixed(e);
      FixedHasNoTime(e);
    }
  }

  lemma BlitHasNoTime(g: RawGen, n: Name)
    ensures Blittable(g, n) ==> !MethodHasTime(g, n)
  {
    if Blittable(g, n) {
      forall k | 0 <= k < |FieldsOf(g, n)| ensures !HasTime(FieldsOf(g, n)[k]) { FixedHasNoTime(FieldsOf(g, n)[k]); }
    }
  }

  // ---------------------------------------------------------------------
  // The emission, against the types
  // ---------------------------------------------------------------------

  /** Both facts at once. */
  predicate Uses(s: Stmt, p: string, names: bool, unsafe: bool) { Names(s, p) == names && UsesUnsafe(s) == unsafe }

  lemma SeqUses(s1: Stmt, s2: Stmt, p: string)
    ensures Uses(Seq(s1, s2), p, Names(s1, p) || Names(s2, p), UsesUnsafe(s1) || UsesUnsafe(s2))
  {}

  lemma IfUses(s1: Stmt, s2: Stmt, p: string)
    ensures Uses(IfZero(s1, s2), p, Names(s1, p) || Names(s2, p), UsesUnsafe(s1) || UsesUnsafe(s2))
    ensures Uses(IfFlag(s1, s2), p, Names(s1, p) || Names(s2, p), UsesUnsafe(s1) || UsesUnsafe(s2))
  {}

  lemma LoopUses(r: Ref, x: nat, m: nat, body: Stmt, p: string)
    ensures Uses(ForLen(x, m, body), p, Names(body, p), UsesUnsafe(body))
    ensures Uses(ForRange(x, r, body), p, Names(body, p), UsesUnsafe(body))
    ensures Uses(ForCount(x, m, body), p, Names(body, p), UsesUnsafe(body))
  {}

  /** The statements with nothing inside. */
  lemma LeafUses(g: Gen, r: Ref, c: nat, p: string)
    ensures Uses(Do(ReadStr(r)), p, false, false) && Uses(EmitVarint(g), p, false, false) && Uses(Do(Skip), p, false, false)
    ensures Uses(IfSafe(g, GuardLen), p, false, false) && Uses(Do(Save(c)), p, false, false)
    ensures Uses(Do(AppendBytes(r)), p, false, false) && Uses(Do(AliasBytes(r)), p, false, false)
    ensures forall v :: Uses(Do(SetNil(r, v)), p, false, false)
    ensures forall m :: Uses(Do(CopyArray(r, m)), p, false, false) && Uses(IfSafe(g, GuardN(m)), p, false, false)
    ensures forall e :: Uses(Do(CopyRaw(r, e)), p, false, true)
    ensures forall n :: Uses(Do(CopyStructs(c, r, n)), p, false, true)
    ensures forall n, checked :: Uses(Call(r, n, checked), p, false, false)
    ensures forall arms, checked :: Uses(Switch(r, arms, checked), p, false, false)
  {
    hide TypeNames;
  }

  lemma TypeUses(r: Ref, p: string)
    ensures forall e, d :: Uses(Do(GrowSlice(r, e, d)), p, TypeNames(TSlice(e, d), p), false)
    ensures forall ty :: Uses(Do(ClearOrMake(r, ty)), p, TypeNames(ty, p), false)
    ensures forall e :: Uses(Do(NewIfNil(r, e)), p, TypeNames(e, p), false)
    ensures forall x, e :: Uses(Do(Declare(x, e)), p, TypeNames(e, p), false)
    ensures forall x, y :: Uses(Do(Assign(r, x, y)), p, false, false)
  {
    hide TypeNames;
  }

  /** A length, its guard, and the code that reads what it announced. */
  lemma CountedUses(g: Gen, r: Ref, code: Stmt, none: Val, p: string)
    ensures Uses(Seq(EmitVarint(g), Seq(IfSafe(g, GuardLen), code)), p, Names(code, p), UsesUnsafe(code))
    ensures Uses(Seq(EmitVarint(g), IfZero(Do(SetNil(r, none)), Seq(IfSafe(g, GuardLen), code))), p, Names(code, p), UsesUnsafe(code))
  {
    hide Names, UsesUnsafe;
    LeafUses(g, r, 0, p);
    var some := Seq(IfSafe(g, GuardLen), code);
    SeqUses(IfSafe(g, GuardLen), code, p);
    IfUses(Do(SetNil(r, none)), some, p);
    SeqUses(EmitVarint(g), some, p);
    SeqUses(EmitVarint(g), IfZero(Do(SetNil(r, none)), some), p);
  }

  lemma PtrUses(g: Gen, r: Ref, e: Ty, code: Stmt, p: string)
    ensures Uses(Seq(IfSafe(g, GuardN(1)), IfFlag(Seq(Do(NewIfNil(r, e)), code), Do(SetNil(r, VNil)))), p,
                 TypeNames(e, p) || Names(code, p), UsesUnsafe(code))
  {
    hide Names, UsesUnsafe;
    LeafUses(g, r, 0, p);
    TypeUses(r, p);
    var some := Seq(Do(NewIfNil(r, e)), code);
    SeqUses(Do(NewIfNil(r, e)), code, p);
    IfUses(some, Do(SetNil(r, VNil)), p);
    SeqUses(IfSafe(g, GuardN(1)), IfFlag(some, Do(SetNil(r, VNil))), p);
  }

  lemma EntryUses(g: Gen, kt: Ty, vt: Ty, r: Ref, c: nat, keyCode: Stmt, valCode: Stmt, p: string)
    ensures Uses(EntryBody(kt, vt, r, c, keyCode, valCode), p,
                 TypeNames(kt, p) || TypeNames(vt, p) || Names(keyCode, p) || Names(valCode, p),
                 UsesUnsafe(keyCode) || UsesUnsafe(valCode))
  {
    hide Names, UsesUnsafe, TypeNames;
    TypeUses(r, p);
    var rest := Seq(keyCode, Seq(valCode, Do(Assign(r, c + 2, c + 3))));
    ReadsUse(r, c, keyCode, valCode, p);
    SeqUses(Do(Declare(c + 3, vt)), rest, p);
    SeqUses(Do(Declare(c + 2, kt)), Seq(Do(Declare(c + 3, vt)), rest), p);
  }

  lemma ReadsUse(r: Ref, c: nat, keyCode: Stmt, valCode: Stmt, p: string)
    ensures Uses(Seq(keyCode, Seq(valCode, Do(Assign(r, c + 2, c + 3)))), p,
                 Names(keyCode, p) || Names(valCode, p), UsesUnsafe(keyCode) || UsesUnsafe(valCode))
  {
    hide Names, UsesUnsafe;
    TypeUses(r, p);
    var assign := Do(Assign(r, c + 2, c + 3));
    SeqUses(valCode, assign, p);
    SeqUses(keyCode, Seq(valCode, assign), p);
  }

  /** The code of a map of type `ty`, given its key's and value's. */
  function MapOf(g: Gen, ty: Ty, r: Ref, c: nat, keyCode: Stmt, valCode: Stmt): Stmt
    requires ty.TMap?
  {
    Seq(EmitVarint(g), IfZero(Do(SetNil(r, NIL_MAP)), Seq(IfSafe(g, GuardLen),
      Seq(Do(Save(c)), Seq(Do(ClearOrMake(r, ty)), ForCount(c + 1, c, EntryBody(ty.key, ty.val, r, c, keyCode, valCode)))))))
  }

  lemma EmitMap(g: Gen, ty: Ty, r: Ref, c: nat)
    requires ty.TMap?
    ensures var (keyCode, c') := Emit(g, ty.key, RVar(c + 2), c + 4);
            var (valCode, c'') := Emit(g, ty.val, RVar(c + 3), c');
            Emit(g, ty, r, c) == (MapOf(g, ty, r, c, keyCode, valCode), c'')
  {}

  lemma MapUses(g: Gen, ty: Ty, r: Ref, c: nat, keyCode: Stmt, valCode: Stmt, p: string)
    requires ty.TMap?
    ensures Uses(MapOf(g, ty, r, c, keyCode, valCode), p,
                 TypeNames(ty, p) || TypeNames(ty.key, p) || TypeNames(ty.val, p) || Names(keyCode, p) || Names(valCode, p),
                 UsesUnsafe(keyCode) || UsesUnsafe(valCode))
  {
    hide EntryBody, Names, UsesUnsafe, TypeNames;
    var body := EntryBody(ty.key, ty.val, r, c, keyCode, valCode);
    EntryUses(g, ty.key, ty.val, r, c, keyCode, valCode, p);
    FillUses(g, ty, r, c, body, p);
    CountedUses(g, r, Seq(Do(Save(c)), Seq(Do(ClearOrMake(r, ty)), ForCount(c + 1, c, body))), NIL_MAP, p);
  }

  lemma FillUses(g: Gen, ty: Ty, r: Ref, c: nat, body: Stmt, p: string)
    ensures Uses(Seq(Do(Save(c)), Seq(Do(ClearOrMake(r, ty)), ForCount(c + 1, c, body))), p,
                 TypeNames(ty, p) || Names(body, p), UsesUnsafe(body))
  {
    hide Names, UsesUnsafe, TypeNames;
    LeafUses(g, r, c, p);
    TypeUses(r, p);
    LoopUses(r, c + 1, c, body, p);
    SeqUses(Do(ClearOrMake(r, ty)), ForCount(c + 1, c, body), p);
    SeqUses(Do(Save(c)), Seq(Do(ClearOrMake(r, ty)), ForCount(c + 1, c, body)), p);
  }

  /** Emitted code names exactly the packages, and copies memory exactly when, the types
      say so: every mention of time.Time is inside something the emission visits. */
  lemma {:induction false} EmitUses(g: Gen, ty: Ty, r: Ref, c: nat, p: string)
    ensures Uses(Emit(g, ty, r, c).0, p, Writes(g, ty, p), NeedsUnsafe(g, ty))
    decreases ty, 1
  {
    hide EmitElems, RawElems, Names, UsesUnsafe, TypeNames;
    LeafUses(g, r, c, p);
    match ty
    case TScalar(k, d) => ScalarUses(g, r, k, d, p);
    case TStr(_) => CountedUses(g, r, Do(ReadStr(r)), VNil, p);
    case TSlice(e, d) =>
      ElemsUse(g, e, d, r, c, p);
      CountedUses(g, r, EmitElems(g, e, d, r, c).0, NIL_SLICE, p);
    case TArray(m, e, d) => ArrayUses(g, m, e, d, r, c, p);
    case TPtr(e, _) =>
      EmitUses(g, e, RDeref(r), c, p);
      PtrUses(g, r, e, Emit(g, e, RDeref(r), c).0, p);
    case TMap(kt, vt, _) =>
      var (keyCode, c') := Emit(g, kt, RVar(c + 2), c + 4);
      EmitUses(g, kt, RVar(c + 2), c + 4, p);
      EmitUses(g, vt, RVar(c + 3), c', p);
      EmitMap(g, ty, r, c);
      MapUses(g, ty, r, c, keyCode, Emit(g, vt, RVar(c + 3), c').0, p);
    case TUnion(ms) => SeqUses(EmitVarint(g), Switch(r, Arms(ms, c), g.mode.Safe?), p);
    case _ =>
  }

  lemma ScalarUses(g: Gen, r: Ref, k: Kind, d: Decl, p: string)
    ensures Uses(Seq(IfSafe(g, GuardN(Width(k))), Do(ReadScalar(r, k, d))), p, Writes(g, TScalar(k, d), p), false)
  {
    SeqUses(IfSafe(g, GuardN(Width(k))), Do(ReadScalar(r, k, d)), p);
  }

  lemma {:induction false} ArrayUses(g: Gen, m: nat, e: Ty, d: Decl, r: Ref, c: nat, p: string)
    ensures Uses(Emit(g, TArray(m, e, d), r, c).0, p, Writes(g, TArray(m, e, d), p), NeedsUnsafe(g, TArray(m, e, d)))
    decreases e, 2
  {
    hide RawElems, Names, UsesUnsafe;
    LeafUses(g, r, c, p);
    if IsByte(e) {
      SeqUses(IfSafe(g, GuardN(m)), Do(CopyArray(r, m)), p);
      ByteArrayUses(g, m, e, d, p);
    } else if !((RawElems(g, e) || BlitElem(g, e)) && m > 0) {
      EmitUses(g, e, RIndex(r, c), c + 1, p);
      LoopUses(r, c, m, Emit(g, e, RIndex(r, c), c + 1).0, p);
    } else if !RawElems(g, e) {
      assert !Writes(g, e, p) && e.TStruct?;
    }
  }

  lemma ByteArrayUses(g: RawGen, m: nat, e: Ty, d: Decl, p: string)
    requires IsByte(e)
    ensures !Writes(g, TArray(m, e, d), p) && !NeedsUnsafe(g, TArray(m, e, d))
  {
    assert !Writes(g, e, p);
  }

  lemma {:induction false} ElemsUse(g: Gen, e: Ty, d: Decl, r: Ref, c: nat, p: string)
    ensures Uses(EmitElems(g, e, d, r, c).0, p, Writes(g, TSlice(e, d), p), NeedsUnsafe(g, TSlice(e, d)))
    decreases e, 2
  {
    hide Emit, Names, UsesUnsafe, TypeNames;
    LeafUses(g, r, c, p);
    TypeUses(r, p);
    if IsByte(e) {
    } else if RawElems(g, e) {
      SeqUses(Do(GrowSlice(r, e, d)), Do(CopyRaw(r, e)), p);
    } else if BlitElem(g, e) {
      SeqUses(Do(GrowSlice(r, e, d)), Do(CopyStructs(c, r, e.name)), p);
      assert !Writes(g, e, p);
    } else {
      var body := Emit(g, e, RIndex(r, c), c + 1).0;
      EmitUses(g, e, RIndex(r, c), c + 1, p);
      LoopUses(r, c, 0, body, p);
      SeqUses(Do(GrowSlice(r, e, d)), ForRange(c, r, body), p);
    }
  }

  lemma {:induction false} FieldsUse(g: Gen, tys: seq<Ty>, k: nat, c: nat, p: string)
    ensures Uses(EmitFields(g, tys, k, c).0, p,
                 exists j :: 0 <= j < |tys| && Writes(g, tys[j], p), exists j :: 0 <= j < |tys| && NeedsUnsafe(g, tys[j]))
  {
    hide Emit, Names, UsesUnsafe, Writes, NeedsUnsafe;
    if tys == [] {
      LeafUses(g, RField(k), c, p);
    } else {
      var (s1, c') := Emit(g, tys[0], RField(k), c);
      EmitUses(g, tys[0], RField(k), c, p);
      FieldsUse(g, tys[1..], k + 1, c', p);
      SeqUses(s1, EmitFields(g, tys[1..], k + 1, c').0, p);
      assert forall j :: 1 <= j < |tys| ==> tys[j] == tys[1..][j - 1];
      assert forall j :: 0 <= j < |tys| - 1 ==> tys[1..][j] == tys[j + 1];
    }
  }

  /** A whole method. */
  lemma MethodUses(g: Gen, n: Name, c: nat, p: string)
    ensures Uses(Method(g, n, c), p, MethodWrites(g, n, p), MethodUnsafe(g, n))
  {
    hide EmitFields;
    if !Blittable(g, n) { FieldsUse(g, FieldsOf(g, n), 0, c, p); }
  }

  // ---------------------------------------------------------------------
  // Size, Marshal and Append name no package but codec and unsafe
  // ---------------------------------------------------------------------

  predicate CopiesMemory(s: E.Stmt) {
    match s
    case Do(p) => p.CountStructs? || p.CountSelf? || p.WriteRaw? || p.WriteStructs? || p.WriteSelf?
    case Seq(s1, s2) => CopiesMemory(s1) || CopiesMemory(s2)
    case IfSome(_, s1) => CopiesMemory(s1)
    case IfNonNil(_, s1, s2) => CopiesMemory(s1) || CopiesMemory(s2)
    case ForIndex(_, _, body) => CopiesMemory(body)
    case ForLen(_, _, body) => CopiesMemory(body)
    case ForEach(_, _, body) => CopiesMemory(body)
    case ForEntries(_, _, _, body) => CopiesMemory(body)
    case _ => false
  }

  /** Encoding the type does; Size asks for constant sizes first, and does so for arrays of
      length 0 too. */
  predicate EncUnsafe(g: RawGen, job: E.Job, ty: Ty) {
    match ty
    case TSlice(e, _) =>
      && !IsByte(e) && !(job.Sizing? && Marshal.SizeConst(e).Constant?)
      && (if job.Writing? && RawElems(g, e) then true else BlitElem(g, e) || EncUnsafe(g, job, e))
    case TArray(m, e, _) =>
      if job.Sizing? then !Marshal.SizeConst(e).Constant? && (BlitElem(g, e) || EncUnsafe(g, job, e))
      else !IsByte(e) && (((RawElems(g, e) || BlitElem(g, e)) && m > 0) || EncUnsafe(g, job, e))
    case TPtr(e, _) => EncUnsafe(g, job, e)
    case TMap(kt, vt, _) => EncUnsafe(g, job, kt) || EncUnsafe(g, job, vt)
    case _ => false
  }

  /** time.Time is visited while encoding: not inside elements of constant size. */
  predicate EncTime(g: RawGen, job: E.Job, ty: Ty) {
    match ty
    case TScalar(k, _) => k == KTime
    case TSlice(e, _) => !(job.Sizing? && Marshal.SizeConst(e).Constant?) && EncTime(g, job, e)
    case TArray(_, e, _) => !(job.Sizing? && Marshal.SizeConst(e).Constant?) && EncTime(g, job, e)
    case TPtr(e, _) => EncTime(g, job, e)
    case TMap(kt, vt, _) => EncTime(g, job, kt) || EncTime(g, job, vt)
    case _ => false
  }

  lemma {:induction false} EncTimeIsTime(g: RawGen, job: E.Job, ty: Ty)
    ensures EncTime(g, job, ty) ==> HasTime(ty)
  {
    match ty
    case TSlice(e, _) => EncTimeIsTime(g, job, e);
    case TArray(_, e, _) => EncTimeIsTime(g, job, e);
    case TPtr(e, _) => EncTimeIsTime(g, job, e);
    case TMap(kt, vt, _) =>
      EncTimeIsTime(g, job, kt);
      EncTimeIsTime(g, job, vt);
    case _ =>
  }

  lemma {:induction false} EncodeUses(g: Gen, job: E.Job, ty: Ty, r: Ref, c: nat)
    ensures CopiesMemory(E.Emit(g, job, ty, r, c).0) <==> EncUnsafe(g, job, ty)
    decreases ty, 1
  {
    hide E.EmitElems, E.EmitArray;
    match ty
    case TSlice(e, _) => EncodeElemsUse(g, job, e, r, c);
    case TArray(m, e, _) => EncodeArrayUses(g, job, m, e, r, c);
    case TPtr(e, _) =>
      EncodeUses(g, job, e, RDeref(r), c);
      FlagUses(r, E.Emit(g, job, e, RDeref(r), c).0);
    case TMap(kt, vt, _) =>
      var (keyCode, c') := E.Emit(g, job, kt, RVar(c), c + 2);
      EncodeUses(g, job, kt, RVar(c), c + 2);
      EncodeUses(g, job, vt, RVar(c + 1), c');
      EntriesUse(job, r, c, keyCode, E.Emit(g, job, vt, RVar(c + 1), c').0);
    case _ =>
  }

  lemma EntriesUse(job: E.Job, r: Ref, c: nat, keyCode: E.Stmt, valCode: E.Stmt)
    ensures CopiesMemory(E.Seq(E.EmitLen(job, r), E.ForEntries(c, c + 1, r, E.Seq(keyCode, valCode))))
       <==> CopiesMemory(keyCode) || CopiesMemory(valCode)
  {
    assert CopiesMemory(E.Seq(keyCode, valCode)) <==> CopiesMemory(keyCode) || CopiesMemory(valCode);
    assert CopiesMemory(E.ForEntries(c, c + 1, r, E.Seq(keyCode, valCode))) <==> CopiesMemory(E.Seq(keyCode, valCode));
  }

  lemma FlagUses(r: Ref, code: E.Stmt)
    ensures CopiesMemory(E.Seq(E.Do(E.Count(1)), E.IfNonNil(r, code, E.Do(E.Nothing)))) <==> CopiesMemory(code)
    ensures CopiesMemory(E.IfNonNil(r, E.Seq(E.Do(E.Write([1])), code), E.Do(E.Write([0])))) <==> CopiesMemory(code)
  {
    assert CopiesMemory(E.IfNonNil(r, code, E.Do(E.Nothing))) <==> CopiesMemory(code);
    assert CopiesMemory(E.Seq(E.Do(E.Write([1])), code)) <==> CopiesMemory(code);
  }

  lemma {:induction false} EncodeElemsUse(g: Gen, job: E.Job, e: Ty, r: Ref, c: nat)
    ensures CopiesMemory(E.EmitElems(g, job, e, r, c).0) <==> EncUnsafe(g, job, TSlice(e))
    decreases e, 2
  {
    hide E.Emit;
    EncodeUses(g, job, e, RIndex(r, c), c + 1);
    EncodeUses(g, job, e, RVar(c), c + 1);
  }

  lemma {:induction false} EncodeArrayUses(g: Gen, job: E.Job, m: nat, e: Ty, r: Ref, c: nat)
    ensures CopiesMemory(E.EmitArray(g, job, m, e, r, c).0) <==> EncUnsafe(g, job, TArray(m, e))
    decreases e, 2
  {
    hide E.Emit;
    EncodeUses(g, job, e, RIndex(r, c), c + 1);
  }

  lemma {:induction false} EncodeFieldsUse(g: Gen, job: E.Job, tys: seq<Ty>, k: nat, c: nat)
    ensures CopiesMemory(E.EmitFields(g, job, tys, k, c).0) <==> exists j :: 0 <= j < |tys| && EncUnsafe(g, job, tys[j])
  {
    hide E.Emit, EncUnsafe;
    if tys != [] {
      EncodeUses(g, job, tys[0], RField(k), c);
      EncodeFieldsUse(g, job, tys[1..], k + 1, E.Emit(g, job, tys[0], RField(k), c).1);
      assert forall j :: 1 <= j < |tys| ==> tys[j] == tys[1..][j - 1];
      assert forall j :: 0 <= j < |tys| - 1 ==> tys[1..][j] == tys[j + 1];
    }
  }

  predicate EncMethodUnsafe(g: RawGen, job: E.Job, n: Name) {
    Blittable(g, n) || exists k :: 0 <= k < |FieldsOf(g, n)| && EncUnsafe(g, job, FieldsOf(g, n)[k])
  }

  lemma EncodeMethodUses(g: Gen, job: E.Job, n: Name, c: nat)
    ensures CopiesMemory(E.Method(g, job, n, c)) <==> EncMethodUnsafe(g, job, n)
  {
    hide E.EmitFields;
    if !Blittable(g, n) { EncodeFieldsUse(g, job, FieldsOf(g, n), 0, c); }
  }

  // ---------------------------------------------------------------------
  // Which files get the imports they need
  // ---------------------------------------------------------------------

  /** A target's four methods, and the first temporary of each. */
  datatype Methods = Methods(size: E.Stmt, marshal: E.Stmt, append: E.Stmt, unmarshal: Stmt)
  datatype Starts = Starts(size: nat, marshal: nat, append: nat, unmarshal: nat)

  /** What the generator emits for a target. */
  function MethodsOf(g: Gen, n: Name, s: Starts): Methods {
    Methods(E.Method(g, E.Sizing, n, s.size), E.Method(g, E.Writing, n, s.marshal),
            E.Method(g, E.Writing, n, s.append), Method(g, n, s.unmarshal))
  }

  predicate MethodsUnsafe(m: Methods) {
    CopiesMemory(m.size) || CopiesMemory(m.marshal) || CopiesMemory(m.append) || UsesUnsafe(m.unmarshal)
  }

  predicate TargetUnsafe(g: RawGen, n: Name) {
    EncMethodUnsafe(g, E.Sizing, n) || EncMethodUnsafe(g, E.Writing, n) || MethodUnsafe(g, n)
  }

  /** Every package the emitted methods name is imported: the header has no import but
      codec, and time and unsafe when their flags are set. */
  ghost predicate Imported(code: map<Name, Methods>, targets: seq<Name>, time: bool, unsafe: bool)
    requires forall n :: n in targets ==> n in code
  {
    && (forall n, p :: n in targets && Names(code[n].unmarshal, p) ==> p == "codec" || (p == "time" && time))
    && (forall n :: n in targets && MethodsUnsafe(code[n]) ==> unsafe)
  }

  /** No target's fields make its Unmarshal write a type of another package: by conversion,
      or in a make, a new or a variable. Codec's are imported, and time's are in a file
      that has a time.Time field anywhere. */
  ghost predicate OwnTypes(g: RawGen, targets: seq<Name>) {
    forall n, p :: n in targets && MethodWrites(g, n, p) ==>
      p == "codec" || (p == "time" && exists m :: m in targets && MethodHasTime(g, m))
  }

  /** A file gets the imports it needs exactly when no type of a package that is not
      imported is written; time and unsafe are never imported unused. */
  lemma ImportsSuffice(g: Gen, targets: seq<Name>, code: map<Name, Methods>, starts: map<Name, Starts>, time: bool, unsafe: bool)
    requires forall n :: n in targets ==> n in code && n in starts && code[n] == MethodsOf(g, n, starts[n])
    requires time <==> exists n :: n in targets && MethodHasTime(g, n)
    requires unsafe <==> exists n :: n in targets && TargetUnsafe(g, n)
    ensures Imported(code, targets, time, unsafe) <==> OwnTypes(g, targets)
    ensures time ==> exists n :: n in targets && Names(code[n].unmarshal, "time")
    ensures unsafe <==> exists n :: n in targets && MethodsUnsafe(code[n])
  {
    hide Method, E.Method, Names, UsesUnsafe, CopiesMemory, MethodWrites, MethodHasTime, EncMethodUnsafe, MethodUnsafe;
    forall n | n in targets ensures MethodsUnsafe(code[n]) <==> TargetUnsafe(g, n) {
      MethodUses(g, n, starts[n].unmarshal, "");
      EncodeMethodUses(g, E.Sizing, n, starts[n].size);
      EncodeMethodUses(g, E.Writing, n, starts[n].marshal);
      EncodeMethodUses(g, E.Writing, n, starts[n].append);
    }
    forall n, p | n in targets ensures Names(code[n].unmarshal, p) <==> MethodWrites(g, n, p) {
      MethodUses(g, n, starts[n].unmarshal, p);
    }
    if n :| n in targets && MethodHasTime(g, n) {
      TimeFieldIsWritten(g, n);
      assert Names(code[n].unmarshal, "time");
    }
  }

  lemma TimeFieldIsWritten(g: Gen, n: Name)
    requires MethodHasTime(g, n)
    ensures MethodWrites(g, n, "time")
  {
    BlitHasNoTime(g, n);
    var k :| 0 <= k < |FieldsOf(g, n)| && HasTime(FieldsOf(g, n)[k]);
    TimeIsWritten(g, FieldsOf(g, n)[k]);
  }

  // ---------------------------------------------------------------------
  // Files that do not
  // ---------------------------------------------------------------------

  /** A package with one target `T` of one field. */
  function OneField(ty: Ty): (g: Gen)
    requires WfTy(ty) && TyRank(Gen(map["T" := [ty]], map[], 1, Safe), ty) == 0
    ensures FieldsOf(g, "T") == [ty] && g.mode == Safe
  {
    var g := Gen(map["T" := [ty]], map[], 1, Safe);
    assert FieldsRank(g, [ty]) == 0 by { assert [ty][1..] == []; }
    g
  }

  /** `D time.Duration` and `H http.Header`: a basic type and a map of other packages. */
  const DURATION := TScalar(KInt64, Declared({"time"}))
  const HEADER := TMap(TStr(Builtin), TSlice(TStr(Builtin)), Declared({"http"}))

  /** Unmarshal converts to time.Duration in a file that does not import time. */
  lemma DurationNotImported(c: nat)
    ensures Names(Method(OneField(DURATION), "T", c), "time")
    ensures !MethodHasTime(OneField(DURATION), "T") && !OwnTypes(OneField(DURATION), ["T"])
  {
    hide Method, OneField, Names, OwnTypes;
    OneFieldWrites(DURATION, "time", c);
  }

  /** Unmarshal makes an http.Header in a file that does not import net/http. */
  lemma HeaderNotImported(c: nat)
    ensures Names(Method(OneField(HEADER), "T", c), "http") && !OwnTypes(OneField(HEADER), ["T"])
  {
    hide Method, OneField, Names, OwnTypes;
    OneFieldWrites(HEADER, "http", c);
  }

  /** A package is named by a read of a basic type that it declares exactly when the type
      is an integer: all of these are read by conversion. */
  lemma KindNamed(k: Kind, p: string, c: nat)
    requires k != KTime
    ensures Names(Method(OneField(TScalar(k, Declared({p}))), "T", c), p) <==>
              k in {KUint8, KInt8, KUint16, KInt16, KUint32, KInt32, KUint64, KInt64, KUint, KInt}
  {
    hide Method, OneField, Names;
    OneFieldNames(TScalar(k, Declared({p})), p, c);
  }

  /** And by slices, pointees and map values, which are made, but not by strings and
      bytes, which are only copied, nor by the pointer type itself. */
  lemma ShapeNamed(ty: Ty, p: string, c: nat)
    requires var d := Declared({p});
             ty in [TSlice(TScalar(KInt, Builtin), d), TPtr(TArray(32, TScalar(KUint8, Builtin), d)),
                    TMap(TStr(Builtin), TScalar(KFloat64, d)), TMap(TStr(d), TStr(Builtin))]
    ensures WfTy(ty) && TyRank(Gen(map["T" := [ty]], map[], 1, Safe), ty) == 0 && Names(Method(OneField(ty), "T", c), p)
  {
    hide Method, OneField, Names;
    assert WfTy(TArray(32, TScalar(KUint8, Builtin), Declared({p})));
    OneFieldNames(ty, p, c);
  }

  lemma ShapeNotNamed(ty: Ty, p: string, c: nat)
    requires var d := Declared({p});
             ty in [TStr(d), TSlice(TScalar(KUint8, Builtin), d), TArray(4, TScalar(KUint8, Builtin), d), TPtr(TStr(Builtin), d)]
    ensures WfTy(ty) && TyRank(Gen(map["T" := [ty]], map[], 1, Safe), ty) == 0 && !Names(Method(OneField(ty), "T", c), p)
  {
    hide Method, OneField, Names;
    OneFieldNames(ty, p, c);
  }

  lemma OneFieldNames(ty: Ty, p: string, c: nat)
    requires WfTy(ty) && TyRank(Gen(map["T" := [ty]], map[], 1, Safe), ty) == 0
    ensures Names(Method(OneField(ty), "T", c), p) <==> Writes(OneField(ty), ty, p)
  {
    hide Writes, OneField, Method, Names;
    var g := OneField(ty);
    assert FieldsOf(g, "T")[0] == ty;
    MethodUses(g, "T", c, p);
  }

  lemma OneFieldWrites(ty: Ty, p: string, c: nat)
    requires WfTy(ty) && TyRank(Gen(map["T" := [ty]], map[], 1, Safe), ty) == 0
    requires Writes(OneField(ty), ty, p) && !HasTime(ty) && p != "codec"
    ensures Names(Method(OneField(ty), "T", c), p)
    ensures !MethodHasTime(OneField(ty), "T") && !OwnTypes(OneField(ty), ["T"])
  {
    hide HasTime, Writes, OneField, Method, Names;
    var g := OneField(ty);
    assert FieldsOf(g, "T")[0] == ty;
    assert MethodWrites(g, "T", p);
    OneFieldNames(ty, p, c);
    assert "T" in ["T"] && forall m :: m in ["T"] ==> m == "T";
  }
}
