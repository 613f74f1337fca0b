/** Go declarations as the generator inspects them: which fields are serialized, which
    types are supported, and which codec each target gets. */
module Declarations {
  import opened Schema
  import opened Ways

  /** Go types. A named struct is known by its name; `time.Time` by its kind. */
  datatype GoType =
    | Basic(kind: Kind, decl: Decl)
    | Text(decl: Decl)
    | Slice(elem: GoType, decl: Decl)
    | Array(len: nat, elem: GoType, decl: Decl)
    | Pointer(elem: GoType, decl: Decl)
    | Map(key: GoType, val: GoType, decl: Decl)
    | Named(name: Name)
    | Anonymous
    | Union(members: seq<Name>)
    | Interface
    | Other

  /** A struct field: its type, whether it is exported, and whether its tag excludes it. */
  datatype Field = Field(typ: GoType, exported: bool, excluded: bool)

  /** A loaded package: struct declarations, generation targets, the targets whose codec
      the user wrote, and the mode. */
  datatype Package = Package(structs: map<Name, seq<Field>>, targets: set<Name>, owned: set<Name>, safe: bool)

  datatype Option<T> = None | Some(v: T)

  function FieldList(p: Package, n: Name): seq<Field> { if n in p.structs then p.structs[n] else [] }

  /** A type the generator handles. */
  predicate Supported(p: Package, t: GoType) {
    match t
    case Basic(_, _) => true
    case Text(_) => true
    case Slice(e, _) => Supported(p, e)
    case Array(_, e, _) => Supported(p, e)
    case Pointer(e, _) => Supported(p, e)
    case Map(k, v, _) => Supported(p, k) && Supported(p, v)
    case Named(n) => n in p.targets
    case Union(_) => true
    case _ => false
  }

  /** The type at the end of a way. */
  function TypeAt(t: GoType, way: Path): Option<GoType>
    decreases way
  {
    match way
    case Here => Some(t)
    case Elem(rest) => if t.Slice? || t.Array? then TypeAt(t.elem, rest) else None
    case Deref(rest) => if t.Pointer? then TypeAt(t.elem, rest) else None
    case Key(rest) => if t.Map? then TypeAt(t.key, rest) else None
    case Value(rest) => if t.Map? then TypeAt(t.val, rest) else None
    case _ => None
  }

  /** What has no codec: structs that are no targets, interfaces that are no unions, and
      channels, functions and the like. */
  predicate NoCodec(p: Package, t: GoType) {
    t.Anonymous? || t.Interface? || t.Other? || (t.Named? && t.name !in p.targets)
  }

  /** A type is refused exactly when something without a codec occurs in it, in whatever
      elements, pointees, keys or values. */
  lemma SupportedExactly(p: Package, t: GoType)
    ensures Supported(p, t) <==> forall way :: TypeAt(t, way).Some? ==> !NoCodec(p, TypeAt(t, way).v)
  {
    if !Supported(p, t) {
      var way := WayToNoCodec(p, t);
      assert NoCodec(p, TypeAt(t, way).v);
    } else {
      forall way | TypeAt(t, way).Some? ensures !NoCodec(p, TypeAt(t, way).v) { SupportedAt(p, t, way); }
    }
  }

  lemma {:induction false} SupportedAt(p: Package, t: GoType, way: Path)
    requires Supported(p, t) && TypeAt(t, way).Some?
    ensures !NoCodec(p, TypeAt(t, way).v)
    decreases way
  {
    match way
    case Here =>
    case Elem(rest) => SupportedAt(p, t.elem, rest);
    case Deref(rest) => SupportedAt(p, t.elem, rest);
    case Key(rest) => SupportedAt(p, t.key, rest);
    case Value(rest) => SupportedAt(p, t.val, rest);
  }

  lemma {:induction false} WayToNoCodec(p: Package, t: GoType) returns (way: Path)
    requires !Supported(p, t)
    ensures TypeAt(t, way).Some? && NoCodec(p, TypeAt(t, way).v)
  {
    match t
    case Slice(e, _) =>
      way := WayToNoCodec(p, e);
      way := Elem(way);
    case Array(_, e, _) =>
      way := WayToNoCodec(p, e);
      way := Elem(way);
    case Pointer(e, _) =>
      way := WayToNoCodec(p, e);
      way := Deref(way);
    case Map(k, v, _) =>
      if Supported(p, k) {
        way := WayToNoCodec(p, v);
        way := Value(way);
      } else {
        way := WayToNoCodec(p, k);
        way := Key(way);
      }
    case _ => way := Here;
  }

  /** A field that is serialized. */
  predicate Kept(f: Field) { f.exported && !f.excluded }

  function KeptOf(all: seq<Field>): (fs: seq<Field>)
    ensures |fs| <= |all|
  {
    if all == [] then [] else (if Kept(all[0]) then [all[0]] else []) + KeptOf(all[1..])
  }

  predicate KeptSupported(p: Package, all: seq<Field>) {
    forall k :: 0 <= k < |all| && Kept(all[k]) ==> Supported(p, all[k].typ)
  }

  lemma {:induction false} KeptSnoc(all: seq<Field>, f: Field)
    ensures KeptOf(all + [f]) == KeptOf(all) + (if Kept(f) then [f] else [])
  {
    if all != [] {
      assert (all + [f])[1..] == all[1..] + [f];
      KeptSnoc(all[1..], f);
    } else {
      assert all + [f] == [f];
      assert [f][1..] == [];
    }
  }

  /** `fs` is the exported, not excluded fields of `all` in order, `at` their places. */
  ghost predicate Selects(all: seq<Field>, fs: seq<Field>, at: seq<nat>) {
    && |at| == |fs|
    && (forall i, j :: 0 <= i < j < |at| ==> at[i] < at[j])
    && (forall i :: 0 <= i < |at| ==> at[i] < |all| && fs[i] == all[at[i]])
    && (forall k: nat :: k < |all| ==> (k in at <==> all[k].exported && !all[k].excluded))
  }

  lemma {:induction false} KeptSelects(all: seq<Field>) returns (at: seq<nat>)
    ensures Selects(all, KeptOf(all), at)
    decreases |all|
  {
    at := [];
    if all != [] {
      var m := |all| - 1;
      var f := all[m];
      at := KeptSelects(all[..m]);
      assert all == all[..m] + [f];
      KeptSnoc(all[..m], f);
      assert forall k :: 0 <= k < m ==> all[..m][k] == all[k];
      if f.exported && !f.excluded { at := at + [m]; }
    }
  }

  /** The serializable fields in declaration order, or failure at an unsupported one. A
      field that is not serialized may have any type. */
  method FieldsOf(p: Package, n: Name) returns (ok: bool, fs: seq<Field>)
    ensures var all := FieldList(p, n);
            && (ok <==> forall k :: 0 <= k < |all| && all[k].exported && !all[k].excluded ==> Supported(p, all[k].typ))
            && (ok <==> KeptSupported(p, all))
            && (ok ==> fs == KeptOf(all) && exists at :: Selects(all, fs, at))
  {
    var all := FieldList(p, n);
    fs := [];
    var i := 0;
    while i < |all|
      invariant 0 <= i <= |all|
      invariant fs == KeptOf(all[..i])
      invariant KeptSupported(p, all[..i])
    {
      var f := all[i];
      assert all[..i + 1] == all[..i] + [f];
      KeptSnoc(all[..i], f);
      i := i + 1;
      if !f.exported { continue; }
      if f.excluded { continue; }
      if !Supported(p, f.typ) {
        assert all[i - 1] == f;
        return false, [];
      }
      fs := fs + [f];
    }
    assert all[..i] == all;
    var _ := KeptSelects(all);
    ok := true;
  }

  predicate FixedWidth(t: GoType) {
    match t
    case Basic(k, _) => k != KTime
    case Array(_, e, _) => FixedWidth(e)
    case _ => false
  }

  predicate Blits(fs: seq<Field>, all: seq<Field>) {
    |fs| > 0 && |fs| == |all| && forall k :: 0 <= k < |fs| ==> FixedWidth(fs[k].typ)
  }

  /** The test on a struct's serializable fields and its number of fields. */
  method Blittable(fs: seq<Field>, all: seq<Field>) returns (r: bool)
    ensures r == Blits(fs, all)
  {
    if |fs| == 0 || |fs| != |all| { return false; }
    for i := 0 to |fs|
      invariant forall k :: 0 <= k < i ==> FixedWidth(fs[k].typ)
    {
      if !FixedWidth(fs[i].typ) { return false; }
    }
    return true;
  }

  // ---------------------------------------------------------------------
  // Two cascades
  // ---------------------------------------------------------------------

  /** What `generate` does for a target. */
  datatype Emission = UserOwned | Refused | Memmove | Fields(fs: seq<Field>)

  method EmitTarget(p: Package, n: Name) returns (r: Emission)
    ensures r == EmissionOf(p, n)
    ensures r == UserOwned <==> n in p.owned
    ensures var all := FieldList(p, n);
            r == Refused <==>
              n !in p.owned && exists k :: 0 <= k < |all| && all[k].exported && !all[k].excluded && !Supported(p, all[k].typ)
    ensures r.Fields? ==> exists at :: Selects(FieldList(p, n), r.fs, at)
  {
    if n in p.owned { return UserOwned; }
    var ok, fs := FieldsOf(p, n);
    if !ok { return Refused; }
    if !p.safe {
      var blit := Blittable(fs, FieldList(p, n));
      if blit { return Memmove; }
    }
    return Fields(fs);
  }

  function EmissionOf(p: Package, n: Name): Emission {
    if n in p.owned then UserOwned
    else if !KeptSupported(p, FieldList(p, n)) then Refused
    else if !p.safe && Blits(KeptOf(FieldList(p, n)), FieldList(p, n)) then Memmove
    else Fields(KeptOf(FieldList(p, n)))
  }

  /** The test before a slice or array is copied whole. */
  method BlitElem(p: Package, t: GoType) returns (r: bool)
    ensures r <==> t.Named? && t.name in p.targets && EmissionOf(p, t.name) == Memmove
  {
    if p.safe || t == Basic(KTime, Builtin) { return false; }
    if !t.Named? { return false; }
    if t.name !in p.targets { return false; }
    if t.name in p.owned { return false; }
    var ok, fs := FieldsOf(p, t.name);
    if !ok { return false; }
    r := Blittable(fs, FieldList(p, t.name));
  }

  // ---------------------------------------------------------------------
  // The schema of a package
  // ---------------------------------------------------------------------

  /** The type as the codec sees it. */
  function Lower(t: GoType): Ty {
    match t
    case Basic(k, d) => TScalar(k, d)
    case Text(d) => TStr(d)
    case Slice(e, d) => TSlice(Lower(e), d)
    case Array(m, e, d) => TArray(m, Lower(e), d)
    case Pointer(e, d) => TPtr(Lower(e), d)
    case Map(k, v, d) => TMap(Lower(k), Lower(v), d)
    case Named(n) => TStruct(n)
    case Union(ms) => TUnion(ms)
    case _ => TSkip
  }

  /** Every declared field in place, the ones that are not serialized as skipped. */
  function LowerFields(all: seq<Field>): (tys: seq<Ty>)
    ensures |tys| == |all|
  {
    seq(|all|, k requires 0 <= k < |all| => if Kept(all[k]) then Lower(all[k].typ) else TSkip)
  }

  /** Everything that is not serialized is skipped, whatever its type. */
  lemma SkippedInPlace(all: seq<Field>, k: nat)
    requires k < |all|
    ensures LowerFields(all)[k] == if all[k].exported && !all[k].excluded then Lower(all[k].typ) else TSkip
  {}

  /** The schema's type at the end of a way. */
  function TyAt(ty: Ty, way: Path): Option<Ty>
    decreases way
  {
    match way
    case Here => Some(ty)
    case Elem(rest) => if ty.TSlice? || ty.TArray? then TyAt(ty.elem, rest) else None
    case Deref(rest) => if ty.TPtr? then TyAt(ty.elem, rest) else None
    case Key(rest) => if ty.TMap? then TyAt(ty.key, rest) else None
    case Value(rest) => if ty.TMap? then TyAt(ty.val, rest) else None
    case _ => None
  }

  /** Of the same form, declared alike. */
  predicate Alike(t: GoType, ty: Ty) {
    match t
    case Basic(k, d) => ty == TScalar(k, d)
    case Text(d) => ty == TStr(d)
    case Slice(_, d) => ty.TSlice? && ty.decl == d
    case Array(m, _, d) => ty.TArray? && ty.len == m && ty.decl == d
    case Pointer(_, d) => ty.TPtr? && ty.decl == d
    case Map(_, _, d) => ty.TMap? && ty.decl == d
    case Named(n) => ty == TStruct(n)
    case Union(ms) => ty == TUnion(ms)
    case _ => true
  }

  /** The schema's type has what the Go type has at the end of every way, and no other
      ways. */
  lemma {:induction false} LowerAt(t: GoType, way: Path)
    ensures TypeAt(t, way).Some? <==> TyAt(Lower(t), way).Some?
    ensures TypeAt(t, way).Some? ==> Alike(TypeAt(t, way).v, TyAt(Lower(t), way).v)
    decreases way
  {
    match way
    case Elem(rest) => if t.Slice? || t.Array? { LowerAt(t.elem, rest); }
    case Deref(rest) => if t.Pointer? { LowerAt(t.elem, rest); }
    case Key(rest) => if t.Map? { LowerAt(t.key, rest); }
    case Value(rest) => if t.Map? { LowerAt(t.val, rest); }
    case _ =>
  }

  /** The run over the package: every target the generator emits for. */
  ghost predicate SchemaOf(p: Package, g: RawGen) {
    && (p.safe <==> g.mode.Safe?)
    && forall n :: n in p.targets ==> n in g.structs && g.structs[n] == LowerFields(FieldList(p, n))
  }

  lemma {:induction false} LowerFixed(t: GoType)
    ensures IsFixedWidth(Lower(t)) <==> FixedWidth(t)
  {
    if t.Array? { LowerFixed(t.elem); }
  }

  /** Fields are only ever dropped, so the counts agree exactly when none is. */
  lemma {:induction false} CountTest(all: seq<Field>)
    ensures |KeptOf(all)| == |all| <==> forall k :: 0 <= k < |all| ==> Kept(all[k])
    ensures |KeptOf(all)| == |all| ==> KeptOf(all) == all
  {
    if all != [] {
      CountTest(all[1..]);
      assert forall k :: 1 <= k < |all| ==> all[k] == all[1..][k - 1];
      assert forall k :: 0 <= k < |all| - 1 ==> all[1..][k] == all[k + 1];
      assert all == [all[0]] + all[1..];
    }
  }

  /** A struct the raw copy is emitted for serializes every declared field. */
  lemma BlitHasNoSkippedField(p: Package, n: Name)
    requires EmissionOf(p, n) == Memmove
    ensures forall k :: 0 <= k < |FieldList(p, n)| ==> Kept(FieldList(p, n)[k])
  {
    CountTest(FieldList(p, n));
  }

  /** The count test, the field test and the mode come to the schema's test. */
  lemma EmissionIsBlittable(p: Package, g: RawGen, n: Name)
    requires SchemaOf(p, g) && n in p.targets && n !in p.owned && KeptSupported(p, FieldList(p, n))
    ensures EmissionOf(p, n) == Memmove <==> Schema.Blittable(g, n)
  {
    var all := FieldList(p, n);
    var tys := LowerFields(all);
    CountTest(all);
    forall k | 0 <= k < |all| ensures IsFixedWidth(tys[k]) <==> Kept(all[k]) && FixedWidth(all[k].typ) {
      LowerFixed(all[k].typ);
    }
    if Blits(KeptOf(all), all) {
      assert KeptOf(all) == all;
      assert forall k :: 0 <= k < |all| ==> IsFixedWidth(tys[k]);
    }
    if BlitFields(tys) {
      assert forall k :: 0 <= k < |all| ==> Kept(all[k]) && FixedWidth(all[k].typ);
    }
  }
}
