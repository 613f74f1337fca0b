/** The wire format as functions of a schema: what encoding must write, in either
    mode, and what the safe decoder must read. */
module Codec {
  import opened Bytes
  import opened Varint
  import opened Schema
  import opened Memory

  // ---------------------------------------------------------------------
  // Encoding
  // ---------------------------------------------------------------------

  /** Fast mode copies the elements as raw memory. */
  predicate RawElems(g: RawGen, e: Ty) { g.mode.Fast? && MemCopyable(e) }

  /** The elements are structs whose own fast-mode codec is a raw copy. */
  predicate BlitElem(g: RawGen, e: Ty) { e.TStruct? && Blittable(g, e.name) }

  /** The wire bytes of `v`, a value of type `ty`. */
  ghost function Enc(g: Gen, ty: Ty, v: Val): Bytes
    decreases v, 1
  {
    match ty
    case TScalar(k, _) => if v.VNum? then ScalarBytes(k, v.n) else []
    case TStr(_) => if v.VStr? then Leb(|v.s|) + v.s else []
    case TSlice(e, _) => if v.VSlice? then Leb(|v.elems|) + EncElems(g, e, v.elems) else []
    case TArray(_, e, _) => if v.VArr? then EncElems(g, e, v.elems) else []
    case TPtr(e, _) => if v.VRef? then [1] + Enc(g, e, v.v) else [0]
    case TMap(kt, vt, _) => if v.VMap? then Leb(|v.entries|) + EncEntries(g, kt, vt, v.entries) else []
    case TStruct(n) => EncStruct(g, n, v)
    case TUnion(ms) =>
      if v.VMem? && v.tag < |ms| then Leb(v.tag + 1) + EncStruct(g, ms[v.tag], v.v) else Leb(0)
    case TSkip => []
  }

  /** What a struct's own Marshal writes. */
  ghost function EncStruct(g: Gen, n: Name, v: Val): Bytes
    decreases v, 0
  {
    if !v.VStruct? || |v.fields| != |FieldsOf(g, n)| then []
    else if Blittable(g, n) then Image(g, n, v.fields, v.pad)
    else EncFields(g, FieldsOf(g, n), v.fields)
  }

  ghost function EncElems(g: Gen, e: Ty, vs: seq<Val>): Bytes
    decreases vs, 1
  {
    if RawElems(g, e) then RawSeq(g.mode.lay.big, e, |vs|, vs) else EncSeq(g, e, vs)
  }

  ghost function EncSeq(g: Gen, e: Ty, vs: seq<Val>): Bytes
    decreases vs, 0
  {
    if vs == [] then [] else Enc(g, e, vs[0]) + EncSeq(g, e, vs[1..])
  }

  ghost function EncFields(g: Gen, tys: seq<Ty>, vs: seq<Val>): Bytes
    requires |tys| == |vs|
    decreases vs, 0
  {
    if vs == [] then [] else Enc(g, tys[0], vs[0]) + EncFields(g, tys[1..], vs[1..])
  }

  ghost function EncEntry(g: Gen, kt: Ty, vt: Ty, e: Entry): Bytes
    decreases e, 0
  {
    Enc(g, kt, e.k) + Enc(g, vt, e.v)
  }

  ghost function EncEntries(g: Gen, kt: Ty, vt: Ty, es: seq<Entry>): Bytes
    decreases es, 0
  {
    if es == [] then [] else EncEntry(g, kt, vt, es[0]) + EncEntries(g, kt, vt, es[1..])
  }

  // ---------------------------------------------------------------------
  // Safe decoding
  // ---------------------------------------------------------------------

  /** `Unchecked`: fast mode met input that it does not guard against. */
  datatype Err = NoErr | ShortBuffer | UnknownUnionTag | Unchecked

  /** A value and the bytes it took, or an error and the offset at which the
      enclosing method returns it. */
  datatype Result<+T> = Ok(v: T, n: nat) | Fail(e: Err, n: nat)

  ghost predicate Sound<T>(r: Result<T>, b: Bytes) {
    r.n <= |b| && (r.Fail? ==> r.e in {ShortBuffer, UnknownUnionTag})
  }

  /** Decodes one value of type `ty` from the front of `b`. */
  ghost function Dec(g: Gen, ty: Ty, b: Bytes): (r: Result<Val>)
    ensures Sound(r, b)
    decreases |b|, TyRank(g, ty), ty, 1
  {
    match ty
    case TScalar(k, _) =>
      if |b| < Width(k) then Fail(ShortBuffer, 0)
      else Ok(VNum(ScalarOf(k, b[..Width(k)])), Width(k))
    case TStr(_) =>
      var (nn, cc) := Uvarint(b);
      if cc <= 0 then Fail(ShortBuffer, 0)
      else if |b| - cc < nn then Fail(ShortBuffer, cc)
      else Ok(VStr(b[cc..cc + nn]), cc + nn)
    case TSlice(e, _) => DecSlice(g, e, b)
    case TArray(m, e, _) => DecArray(g, m, e, b)
    case TPtr(e, _) => DecPtr(g, e, b)
    case TMap(kt, vt, _) => DecMap(g, kt, vt, b)
    case TStruct(n) => DecStruct(g, n, b)
    case TUnion(ms) => DecUnion(g, ms, b)
    case TSkip => Ok(VOpaque(0), 0)
  }

  ghost function DecSlice(g: Gen, e: Ty, b: Bytes): (r: Result<Val>)
    ensures Sound(r, b)
    decreases |b|, 0, e, 0
  {
    var (nn, cc) := Uvarint(b);
    if cc <= 0 then Fail(ShortBuffer, 0)
    else if nn == 0 then Ok(NIL_SLICE, cc)
    else if |b| - cc < nn then Fail(ShortBuffer, cc)
    else
      match DecN(g, e, nn, b[cc..])
      case Ok(vs, n) => Ok(VSlice(false, vs, []), cc + n)
      case Fail(x, n) => Fail(x, cc + n)
  }

  ghost function DecArray(g: Gen, m: nat, e: Ty, b: Bytes): (r: Result<Val>)
    ensures Sound(r, b)
    decreases |b|, TyRank(g, e), e, m + 9
  {
    if IsByte(e) && |b| < m then Fail(ShortBuffer, 0)
    else
      match DecN(g, e, m, b)
      case Ok(vs, n) => Ok(VArr(vs), n)
      case Fail(x, n) => Fail(x, n)
  }

  ghost function DecPtr(g: Gen, e: Ty, b: Bytes): (r: Result<Val>)
    ensures Sound(r, b)
    decreases |b|, 0, e, 0
  {
    if |b| < 1 then Fail(ShortBuffer, 0)
    else if b[0] == 0 then Ok(VNil, 1)
    else
      match Dec(g, e, b[1..])
      case Ok(v, n) => Ok(VRef(v), 1 + n)
      case Fail(x, n) => Fail(x, 1 + n)
  }

  ghost function DecMap(g: Gen, kt: Ty, vt: Ty, b: Bytes): (r: Result<Val>)
    ensures Sound(r, b)
    decreases |b|, 0, kt, 0
  {
    var (nn, cc) := Uvarint(b);
    if cc <= 0 then Fail(ShortBuffer, 0)
    else if nn == 0 then Ok(NIL_MAP, cc)
    else if |b| - cc < nn then Fail(ShortBuffer, cc)
    else
      match DecEntries(g, kt, vt, nn, [], b[cc..])
      case Ok(es, n) => Ok(VMap(false, es), cc + n)
      case Fail(x, n) => Fail(x, cc + n)
  }

  ghost function DecUnion(g: Gen, ms: seq<Name>, b: Bytes): (r: Result<Val>)
    ensures Sound(r, b)
    decreases |b|, 0, TUnion(ms), 0
  {
    var (nn, cc) := Uvarint(b);
    if cc <= 0 then Fail(ShortBuffer, 0)
    else if nn == 0 then Ok(VNil, cc)
    else if nn > |ms| then Fail(UnknownUnionTag, cc)
    else
      match DecStruct(g, ms[nn - 1], b[cc..])
      case Ok(v, n) => Ok(VMem(nn - 1, v), cc + n)
      case Fail(x, n) => Fail(x, cc + n)
  }

  /** A delegated Unmarshal: on an error the caller's own offset has not moved. */
  ghost function DecStruct(g: Gen, name: Name, b: Bytes): (r: Result<Val>)
    ensures Sound(r, b)
    decreases |b|, RankOf(g, name) + 1, TStruct(name), 0
  {
    match DecFields(g, FieldsOf(g, name), b)
    case Ok(vs, n) => Ok(VStruct(vs, []), n)
    case Fail(x, _) => Fail(x, 0)
  }

  /** `m` values in a row. */
  ghost function DecN(g: Gen, e: Ty, m: nat, b: Bytes): (r: Result<seq<Val>>)
    ensures Sound(r, b)
    ensures r.Ok? ==> |r.v| == m
    decreases |b|, TyRank(g, e), e, m + 1
  {
    if m == 0 then Ok([], 0) else
      match Dec(g, e, b)
      case Fail(x, n) => Fail(x, n)
      case Ok(v, n) =>
        match DecN(g, e, m - 1, b[n..])
        case Fail(x, n') => Fail(x, n + n')
        case Ok(vs, n') => Ok([v] + vs, n + n')
  }

  /** The fields of a struct: the body of its Unmarshal method. */
  ghost function DecFields(g: Gen, tys: seq<Ty>, b: Bytes): (r: Result<seq<Val>>)
    ensures Sound(r, b)
    ensures r.Ok? ==> |r.v| == |tys|
    decreases |b|, FieldsRank(g, tys), tys, 0
  {
    if tys == [] then Ok([], 0) else
      match Dec(g, tys[0], b)
      case Fail(x, n) => Fail(x, n)
      case Ok(v, n) =>
        match DecFields(g, tys[1..], b[n..])
        case Fail(x, n') => Fail(x, n + n')
        case Ok(vs, n') => Ok([v] + vs, n + n')
  }

  function PairRank(g: Gen, kt: Ty, vt: Ty): nat {
    if TyRank(g, kt) < TyRank(g, vt) then TyRank(g, vt) else TyRank(g, kt)
  }

  /** One key and its value. */
  ghost function DecPair(g: Gen, kt: Ty, vt: Ty, b: Bytes): (r: Result<Entry>)
    ensures Sound(r, b)
    decreases |b|, PairRank(g, kt, vt), TMap(kt, vt), 0
  {
    match Dec(g, kt, b)
    case Fail(x, n) => Fail(x, n)
    case Ok(k, n) =>
      match Dec(g, vt, b[n..])
      case Fail(x, n') => Fail(x, n + n')
      case Ok(v, n') => Ok(Entry(k, v), n + n')
  }

  /** `m` pairs, each assigned into the map read so far. */
  ghost function DecEntries(g: Gen, kt: Ty, vt: Ty, m: nat, acc: seq<Entry>, b: Bytes): (r: Result<seq<Entry>>)
    ensures Sound(r, b)
    decreases |b|, PairRank(g, kt, vt), TMap(kt, vt), m
  {
    if m == 0 then Ok(acc, 0) else
      match DecPair(g, kt, vt, b)
      case Fail(x, n) => Fail(x, n)
      case Ok(e, n) =>
        match DecEntries(g, kt, vt, m - 1, MapSet(acc, e.k, e.v), b[n..])
        case Fail(x, n') => Fail(x, n + n')
        case Ok(es, n') => Ok(es, n + n')
  }
}
