/** Schemas the generator accepts, and the Go values they describe. */
module Schema {
  import opened Bytes

  type Name = string

  /** The fixed-width basics, with `time.Time` as its int64 of nanoseconds. */
  datatype Kind =
    | KBool | KUint8 | KInt8 | KUint16 | KInt16 | KUint32 | KInt32 | KFloat32
    | KUint64 | KInt64 | KUint | KInt | KFloat64 | KTime

  /** How a type is written: in full (and `time.Time`, by its kind), or by a declared name,
      such as `MyByte`, `http.Header` or `List[time.Duration]`, whose text is qualified
      with `pkgs`. */
  datatype Decl = Builtin | Declared(pkgs: set<string>)

  /** Type expressions. `TSkip` is a field that is unexported or tagged `goserde:"-"`. */
  datatype Ty =
    | TScalar(kind: Kind, decl: Decl)
    | TStr(decl: Decl)
    | TSlice(elem: Ty, decl: Decl := Builtin)
    | TArray(len: nat, elem: Ty, decl: Decl := Builtin)
    | TPtr(elem: Ty, decl: Decl := Builtin)
    | TMap(key: Ty, val: Ty, decl: Decl := Builtin)
    | TStruct(name: Name)
    | TUnion(members: seq<Name>)
    | TSkip

  /** The platform: its byte order, and where the compiler puts the fields of each
      raw-copied struct inside how many bytes. */
  datatype Layout = Layout(big: bool, sizeof: map<Name, nat>, offsets: map<Name, seq<nat>>)

  datatype Mode = Safe | Fast(lay: Layout)

  /** A generation run: the field types of every target struct, and the mode.
      `rank` orders by-value nesting, which Go requires to be acyclic; `height`
      bounds the ranks. */
  datatype RawGen = Gen(structs: map<Name, seq<Ty>>, rank: map<Name, nat>, height: nat, mode: Mode)

  /** A run over a type-checked package. */
  type Gen = g: RawGen | Wf(g) witness Gen(map[], map[], 1, Safe)

  datatype Entry = Entry(k: Val, v: Val)

  /** Values. Integers are themselves, booleans 0 or 1, floats their bit pattern.
      `stale` is the part of a backing array between len and cap; `pad` is the raw
      memory a struct sits on; an interface holds a member's index and pointee. */
  datatype Val =
    | VNum(n: int)
    | VStr(s: Bytes)
    | VSlice(isNil: bool, elems: seq<Val>, stale: seq<Val>)
    | VArr(elems: seq<Val>)
    | VNil
    | VRef(v: Val)
    | VMem(tag: nat, v: Val)
    | VMap(isNil: bool, entries: seq<Entry>)
    | VStruct(fields: seq<Val>, pad: Bytes)
    | VOpaque(id: nat)

  const NIL_SLICE := VSlice(true, [], [])
  const NIL_MAP := VMap(true, [])

  // ---------------------------------------------------------------------
  // Scalars
  // ---------------------------------------------------------------------

  function Width(k: Kind): (w: nat)
    ensures w in {1, 2, 4, 8}
  {
    match k
    case KBool | KUint8 | KInt8 => 1
    case KUint16 | KInt16 => 2
    case KUint32 | KInt32 | KFloat32 => 4
    case KUint64 | KInt64 | KUint | KInt | KFloat64 | KTime => 8
  }

  predicate Signed(k: Kind) {
    k in {KInt8, KInt16, KInt32, KInt64, KInt, KTime}
  }

  /** 2^(8 * width): the number of bit patterns. */
  function Patterns(k: Kind): nat {
    match Width(k)
    case 1 => 0x100
    case 2 => 0x1_0000
    case 4 => 0x1_0000_0000
    case _ => 0x1_0000_0000_0000_0000
  }

  predicate InRange(k: Kind, n: int) {
    if k == KBool then 0 <= n <= 1
    else if Signed(k) then -(Patterns(k) / 2) <= n < Patterns(k) / 2
    else 0 <= n < Patterns(k)
  }

  /** Go's conversion to the unsigned type of the same width. */
  function Wire(k: Kind, n: int): nat { n % Patterns(k) }

  /** Go's conversion back; a bool is true for any non-zero byte. */
  function Unwire(k: Kind, u: nat): int {
    if k == KBool then (if u != 0 then 1 else 0)
    else if Signed(k) && u >= Patterns(k) / 2 then u - Patterns(k)
    else u
  }

  function ScalarBytes(k: Kind, n: int): (s: Bytes)
    ensures |s| == Width(k)
  {
    LE(Wire(k, n), Width(k))
  }

  function ScalarOf(k: Kind, s: Bytes): int
    requires |s| == Width(k)
  {
    Unwire(k, FromLE(s))
  }

  lemma PatternsAreWords(k: Kind)
    ensures Patterns(k) == Pow2(8 * Width(k))
  {
    WordPowers();
  }

  lemma ScalarRoundTrip(k: Kind, n: int)
    requires InRange(k, n)
    ensures ScalarOf(k, ScalarBytes(k, n)) == n
  {
    hide LE, FromLE, Pow2, Wire, Unwire;
    PatternsAreWords(k);
    UnwireWire(k, n);
    LERoundTrip(Wire(k, n), Width(k));
  }

  /** Converting to unsigned and back keeps every value in range. */
  lemma UnwireWire(k: Kind, n: int)
    requires InRange(k, n)
    ensures Wire(k, n) < Patterns(k) && Unwire(k, Wire(k, n)) == n
  {
    if n < 0 { assert n % Patterns(k) == n + Patterns(k); }
  }

  /** But for bools, the value read from bytes is written as those bytes. */
  lemma ScalarOfBytes(k: Kind, s: Bytes)
    requires |s| == Width(k) && k != KBool
    ensures ScalarBytes(k, ScalarOf(k, s)) == s
  {
    hide LE, FromLE, Pow2;
    PatternsAreWords(k);
    FromLEBound(s);
    LEOfFrom(s);
    var u := FromLE(s);
    assert Wire(k, Unwire(k, u)) == u;
  }

  lemma ScalarInRange(k: Kind, s: Bytes)
    requires |s| == Width(k)
    ensures InRange(k, ScalarOf(k, s))
  {
    hide LE, FromLE, Pow2;
    PatternsAreWords(k);
    FromLEBound(s);
  }

  // ---------------------------------------------------------------------
  // Well-formed runs
  // ---------------------------------------------------------------------

  /** The fields of a target. */
  function FieldsOf(g: RawGen, n: Name): seq<Ty> {
    if n in g.structs then g.structs[n] else []
  }

  function RankOf(g: RawGen, n: Name): nat {
    if n in g.rank then g.rank[n] else 0
  }

  function TyRank(g: RawGen, ty: Ty): nat {
    match ty
    case TStruct(n) => RankOf(g, n) + 1
    case TArray(_, e, _) => TyRank(g, e)
    case _ => 0
  }

  function FieldsRank(g: RawGen, tys: seq<Ty>): nat {
    if tys == [] then 0
    else
      var r, rs := TyRank(g, tys[0]), FieldsRank(g, tys[1..]);
      if r < rs then rs else r
  }

  /** Map keys: bools, integers, strings and arrays of these. */
  predicate KeyTy(ty: Ty) {
    match ty
    case TScalar(k, _) => k !in {KFloat32, KFloat64, KTime}
    case TStr(_) => true
    case TArray(_, e, _) => KeyTy(e)
    case _ => false
  }

  /** Supported types: map keys as above, and unions of distinct members, at least one,
      with tags within Go's int. */
  predicate WfTy(ty: Ty) {
    match ty
    case TSlice(e, _) => WfTy(e)
    case TArray(_, e, _) => WfTy(e)
    case TPtr(e, _) => WfTy(e)
    case TMap(k, v, _) => KeyTy(k) && WfTy(k) && WfTy(v)
    case TUnion(ms) => 0 < |ms| <= MAX_LEN && Distinct(ms)
    case _ => true
  }

  predicate Distinct(ms: seq<Name>) {
    forall j, k :: 0 <= j < k < |ms| ==> ms[j] != ms[k]
  }

  predicate WfFields(tys: seq<Ty>) {
    forall k :: 0 <= k < |tys| ==> WfTy(tys[k])
  }

  ghost predicate Wf(g: RawGen) {
    && (forall n :: n in g.structs ==>
          && WfFields(g.structs[n])
          && FieldsRank(g, g.structs[n]) <= RankOf(g, n))
    && g.height > 0
    && (forall n :: n in g.rank ==> g.rank[n] < g.height)
    && (g.mode.Fast? ==> LayoutOk(g, g.mode.lay))
  }

  lemma StructWf(g: Gen, n: Name)
    ensures WfFields(FieldsOf(g, n)) && FieldsRank(g, FieldsOf(g, n)) < TyRank(g, TStruct(n))
  {}

  // ---------------------------------------------------------------------
  // Raw-copied types
  // ---------------------------------------------------------------------

  /** Wire bytes equal memory on a little-endian machine: explicitly sized basics
      and arrays of them. `int` and `uint` have a platform width in memory. */
  predicate MemCopyable(ty: Ty) {
    match ty
    case TScalar(k, _) => k !in {KUint, KInt, KTime}
    case TArray(_, e, _) => MemCopyable(e)
    case _ => false
  }

  predicate IsFixedWidth(ty: Ty) {
    match ty
    case TScalar(k, _) => k != KTime
    case TArray(_, e, _) => IsFixedWidth(e)
    case _ => false
  }

  lemma {:induction false} MemCopyableIsFixed(ty: Ty)
    requires MemCopyable(ty)
    ensures IsFixedWidth(ty)
  {
    if ty.TArray? { MemCopyableIsFixed(ty.elem); }
  }

  /** Every declared field is serialized and fixed-width, and there is one. */
  predicate BlitFields(tys: seq<Ty>) {
    |tys| > 0 && forall k :: 0 <= k < |tys| ==> IsFixedWidth(tys[k])
  }

  /** Bytes a fixed-width type takes in memory. */
  function RawWidth(ty: Ty): nat {
    match ty
    case TScalar(k, _) => Width(k)
    case TArray(n, e, _) => n * RawWidth(e)
    case _ => 0
  }

  /** Field ranges lie inside the struct and do not overlap. */
  ghost predicate RangesOk(tys: seq<Ty>, offs: seq<nat>, size: nat) {
    && |offs| == |tys|
    && (forall k :: 0 <= k < |tys| ==> offs[k] + RawWidth(tys[k]) <= size)
    && (forall j, k :: 0 <= j < k < |tys| ==>
          offs[j] + RawWidth(tys[j]) <= offs[k] || offs[k] + RawWidth(tys[k]) <= offs[j])
  }

  ghost predicate LayoutOk(g: RawGen, lay: Layout) {
    forall n :: n in g.structs && BlitFields(g.structs[n]) ==>
      n in lay.sizeof && n in lay.offsets && RangesOk(g.structs[n], lay.offsets[n], lay.sizeof[n])
  }

  /** The struct's fast-mode codec is the memmove one. */
  predicate Blittable(g: RawGen, n: Name) {
    g.mode.Fast? && BlitFields(FieldsOf(g, n))
  }

  /** The literal `byte` element type, which takes the raw copy paths. */
  predicate IsByte(ty: Ty) { ty == TScalar(KUint8, Builtin) }

  // ---------------------------------------------------------------------
  // Typing
  // ---------------------------------------------------------------------

  ghost predicate HasTy(g: RawGen, ty: Ty, v: Val)
    decreases v, 0
  {
    match ty
    case TScalar(k, _) => v.VNum? && InRange(k, v.n)
    case TStr(_) => v.VStr? && |v.s| <= MAX_LEN
    case TSlice(e, _) =>
      && v.VSlice?
      && |v.elems| + |v.stale| <= MAX_LEN
      && (v.isNil ==> v.elems == [] && v.stale == [])
      && AllHaveTy(g, e, v.elems)
      && AllHaveTy(g, e, v.stale)
    case TArray(n, e, _) => v.VArr? && |v.elems| == n && AllHaveTy(g, e, v.elems)
    case TPtr(e, _) => v.VNil? || (v.VRef? && HasTy(g, e, v.v))
    case TMap(kt, vt, _) =>
      && v.VMap?
      && |v.entries| <= MAX_LEN
      && (v.isNil ==> v.entries == [])
      && DistinctKeys(v.entries)
      && EntriesHaveTy(g, kt, vt, v.entries)
    case TStruct(n) => v.VStruct? && FieldsHaveTy(g, FieldsOf(g, n), v.fields)
    case TUnion(ms) =>
      v.VNil? || (v.VMem? && v.tag < |ms| && HasTy(g, TStruct(ms[v.tag]), v.v))
    case TSkip => v.VOpaque?
  }

  ghost predicate AllHaveTy(g: RawGen, ty: Ty, vs: seq<Val>)
    decreases vs, 0
  {
    vs == [] || (HasTy(g, ty, vs[0]) && AllHaveTy(g, ty, vs[1..]))
  }

  ghost predicate FieldsHaveTy(g: RawGen, tys: seq<Ty>, vs: seq<Val>)
    decreases vs, 0
  {
    |tys| == |vs| && (vs == [] || (HasTy(g, tys[0], vs[0]) && FieldsHaveTy(g, tys[1..], vs[1..])))
  }

  ghost predicate EntryHasTy(g: RawGen, kt: Ty, vt: Ty, e: Entry)
    decreases e, 0
  {
    HasTy(g, kt, e.k) && HasTy(g, vt, e.v)
  }

  ghost predicate EntriesHaveTy(g: RawGen, kt: Ty, vt: Ty, es: seq<Entry>)
    decreases es, 0
  {
    es == [] || (EntryHasTy(g, kt, vt, es[0]) && EntriesHaveTy(g, kt, vt, es[1..]))
  }

  lemma FieldsOfTyped(g: Gen, n: Name, v: Val)
    requires HasTy(g, TStruct(n), v)
    ensures v.VStruct? && |v.fields| == |FieldsOf(g, n)| && FieldsHaveTy(g, FieldsOf(g, n), v.fields)
  {}

  lemma {:induction false} FieldTypedAt(g: RawGen, tys: seq<Ty>, vs: seq<Val>, i: nat)
    requires FieldsHaveTy(g, tys, vs) && i < |vs|
    ensures HasTy(g, tys[i], vs[i])
  {
    if i > 0 { FieldTypedAt(g, tys[1..], vs[1..], i - 1); }
  }

  predicate DistinctKeys(es: seq<Entry>) {
    forall i, j :: 0 <= i < j < |es| ==> es[i].k != es[j].k
  }

  // ---------------------------------------------------------------------
  // Maps, zero values, and what the wire can see of a value
  // ---------------------------------------------------------------------

  /** `m[k] = v`: the entry of an equal key is replaced where it stands. */
  function MapSet(es: seq<Entry>, k: Val, v: Val): (r: seq<Entry>)
    ensures |es| <= |r| <= |es| + 1 && r != []
  {
    if es == [] then [Entry(k, v)]
    else if es[0].k == k then [Entry(k, v)] + es[1..]
    else [es[0]] + MapSet(es[1..], k, v)
  }

  ghost predicate HasKey(es: seq<Entry>, k: Val) {
    exists i :: 0 <= i < |es| && es[i].k == k
  }

  lemma {:induction false} MapSetKeys(es: seq<Entry>, k: Val, v: Val)
    ensures forall x :: HasKey(MapSet(es, k, v), x) <==> HasKey(es, x) || x == k
  {
    forall x ensures HasKey(MapSet(es, k, v), x) <==> HasKey(es, x) || x == k { MapSetKey(es, k, v, x); }
  }

  lemma {:induction false} MapSetKey(es: seq<Entry>, k: Val, v: Val, x: Val)
    ensures HasKey(MapSet(es, k, v), x) <==> HasKey(es, x) || x == k
  {
    if es == [] {
      ConsKey(Entry(k, v), [], x);
    } else {
      assert es == [es[0]] + es[1..];
      ConsKey(es[0], es[1..], x);
      if es[0].k == k {
        ConsKey(Entry(k, v), es[1..], x);
      } else {
        ConsKey(es[0], MapSet(es[1..], k, v), x);
        MapSetKey(es[1..], k, v, x);
      }
    }
  }

  lemma {:induction false} MapSetDistinct(es: seq<Entry>, k: Val, v: Val)
    requires DistinctKeys(es)
    ensures DistinctKeys(MapSet(es, k, v))
  {
    if es != [] && es[0].k != k {
      MapSetDistinct(es[1..], k, v);
      MapSetKey(es[1..], k, v, es[0].k);
      var t := MapSet(es[1..], k, v);
      assert !HasKey(t, es[0].k);
      assert forall j :: 0 <= j < |t| ==> t[j].k != es[0].k;
    }
  }

  /** A new key goes to the end. */
  lemma {:induction false} MapSetNew(es: seq<Entry>, k: Val, v: Val)
    requires !HasKey(es, k)
    ensures MapSet(es, k, v) == es + [Entry(k, v)]
  {
    if es != [] {
      assert es == [es[0]] + es[1..];
      ConsKey(es[0], es[1..], k);
      MapSetNew(es[1..], k, v);
    }
  }

  lemma ConsKey(e: Entry, es: seq<Entry>, x: Val)
    ensures HasKey([e] + es, x) <==> x == e.k || HasKey(es, x)
  {
    var r := [e] + es;
    if x == e.k { assert r[0].k == x; }
    if HasKey(es, x) {
      var i :| 0 <= i < |es| && es[i].k == x;
      assert r[i + 1].k == x;
    }
  }

  function Zeros(n: nat, z: Val): (vs: seq<Val>)
    ensures |vs| == n
    ensures forall i :: 0 <= i < n ==> vs[i] == z
  {
    seq(n, _ => z)
  }

  /** Go's zero value of a type. */
  function Zero(g: Gen, ty: Ty): Val
    decreases TyRank(g, ty), ty
  {
    match ty
    case TScalar(_, _) => VNum(0)
    case TStr(_) => VStr([])
    case TSlice(_, _) => NIL_SLICE
    case TArray(n, e, _) => VArr(Zeros(n, Zero(g, e)))
    case TPtr(_, _) => VNil
    case TMap(_, _, _) => NIL_MAP
    case TStruct(n) => VStruct(ZeroFields(g, FieldsOf(g, n)), [])
    case TUnion(_) => VNil
    case TSkip => VOpaque(0)
  }

  function ZeroFields(g: Gen, tys: seq<Ty>): (vs: seq<Val>)
    ensures |vs| == |tys|
    decreases FieldsRank(g, tys), tys
  {
    if tys == [] then [] else [Zero(g, tys[0])] + ZeroFields(g, tys[1..])
  }

  lemma {:induction false} ZeroHasTy(g: Gen, ty: Ty)
    ensures HasTy(g, ty, Zero(g, ty))
    decreases TyRank(g, ty), ty
  {
    match ty
    case TArray(m, e, _) =>
      ZeroHasTy(g, e);
      ZerosHaveTy(g, e, m, Zero(g, e));
    case TStruct(n) => ZeroFieldsHaveTy(g, FieldsOf(g, n));
    case _ =>
  }

  lemma {:induction false} ZerosHaveTy(g: Gen, e: Ty, m: nat, z: Val)
    requires HasTy(g, e, z)
    ensures AllHaveTy(g, e, Zeros(m, z))
  {
    if m > 0 {
      ZerosHaveTy(g, e, m - 1, z);
      assert Zeros(m, z)[1..] == Zeros(m - 1, z);
    }
  }

  lemma {:induction false} ZeroFieldsHaveTy(g: Gen, tys: seq<Ty>)
    ensures FieldsHaveTy(g, tys, ZeroFields(g, tys))
    decreases FieldsRank(g, tys), tys
  {
    if tys != [] {
      ZeroHasTy(g, tys[0]);
      ZeroFieldsHaveTy(g, tys[1..]);
    }
  }

  /** What a reader of the serialized fields sees: no skipped field, no stale
      capacity, no padding; with `collapse`, an empty collection counts as nil. */
  function Clean(v: Val, collapse: bool): Val
    decreases v, 0
  {
    match v
    case VNum(_) => v
    case VStr(_) => v
    case VSlice(isNil, es, _) => VSlice(isNil || (collapse && es == []), CleanSeq(es, collapse), [])
    case VArr(es) => VArr(CleanSeq(es, collapse))
    case VNil => v
    case VRef(w) => VRef(Clean(w, collapse))
    case VMem(t, w) => VMem(t, Clean(w, collapse))
    case VMap(isNil, es) => VMap(isNil || (collapse && es == []), CleanEntries(es, collapse))
    case VStruct(fs, _) => VStruct(CleanSeq(fs, collapse), [])
    case VOpaque(_) => VOpaque(0)
  }

  function CleanSeq(vs: seq<Val>, collapse: bool): (r: seq<Val>)
    ensures |r| == |vs|
    ensures forall i :: 0 <= i < |vs| ==> r[i] == Clean(vs[i], collapse)
    decreases vs
  {
    if vs == [] then [] else [Clean(vs[0], collapse)] + CleanSeq(vs[1..], collapse)
  }

  function CleanEntry(e: Entry, collapse: bool): Entry
    decreases e
  {
    Entry(Clean(e.k, collapse), Clean(e.v, collapse))
  }

  function CleanEntries(es: seq<Entry>, collapse: bool): (r: seq<Entry>)
    ensures |r| == |es|
    ensures forall i :: 0 <= i < |es| ==> r[i] == CleanEntry(es[i], collapse)
    decreases es
  {
    if es == [] then [] else [CleanEntry(es[0], collapse)] + CleanEntries(es[1..], collapse)
  }

  /** The serialized content of a value. */
  function View(v: Val): Val { Clean(v, false) }

  /** The serialized content with every empty collection nil. */
  function Norm(v: Val): Val { Clean(v, true) }

  /** A key has nothing to clean. */
  lemma {:induction false} KeyClean(g: RawGen, ty: Ty, v: Val, collapse: bool)
    requires KeyTy(ty) && HasTy(g, ty, v)
    ensures Clean(v, collapse) == v
    decreases v, 0
  {
    if ty.TArray? { KeysClean(g, ty.elem, v.elems, collapse); }
  }

  lemma {:induction false} KeysClean(g: RawGen, e: Ty, vs: seq<Val>, collapse: bool)
    requires KeyTy(e) && AllHaveTy(g, e, vs)
    ensures CleanSeq(vs, collapse) == vs
    decreases vs, 0
  {
    if vs != [] {
      KeyClean(g, e, vs[0], collapse);
      KeysClean(g, e, vs[1..], collapse);
    }
  }
}
