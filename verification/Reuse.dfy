/** What a generated Unmarshal leaves in a destination that already holds a value,
    in both modes and on errors too. */
module Reuse {
  import opened Bytes
  import opened Varint
  import opened Schema
  import opened Memory
  import opened Codec

  /** The destination afterwards, the offset returned, and the error. */
  datatype Out<+T> = Out(v: T, n: nat, e: Err)

  /** A failed length check in safe mode; input that fast mode does not check. */
  function Guard(g: RawGen): Err {
    if g.mode.Safe? then ShortBuffer else Unchecked
  }

  const BYTE := TScalar(KUint8, Builtin)

  /** Bytes as the elements of a []byte. */
  function ByteVals(s: Bytes): (vs: seq<Val>)
    ensures |vs| == |s|
  {
    LoadSeq(false, BYTE, |s|, s)
  }

  /** The whole backing array of a slice. */
  function Backing(d: Val): seq<Val> {
    if d.VSlice? then d.elems + d.stale else []
  }

  /** `if cap(d) >= nn { d = d[:nn] } else { d = make(T, nn) }` */
  function Grow(d: Val, nn: nat, zero: Val): (r: Val)
    ensures r.VSlice? && !r.isNil && |r.elems| == nn
  {
    if |Backing(d)| >= nn then VSlice(false, Backing(d)[..nn], Backing(d)[nn..])
    else VSlice(false, Zeros(nn, zero), [])
  }

  /** `append(d[:0], s...)` */
  function AppendAll(d: Val, s: Bytes): (r: Val)
    ensures r.VSlice? && !r.isNil && r.elems == ByteVals(s)
  {
    VSlice(false, ByteVals(s), if |Backing(d)| >= |s| then Backing(d)[|s|..] else [])
  }

  /** A backing array that is large enough stays, with all it holds: reslicing shows its
      front, and appending overwrites its front. Otherwise there is a new one, full. */
  lemma BackingKept(d: Val, nn: nat, zero: Val, s: Bytes)
    ensures Backing(Grow(d, nn, zero)) == if nn <= |Backing(d)| then Backing(d) else Zeros(nn, zero)
    ensures |Backing(AppendAll(d, s))| == if |s| <= |Backing(d)| then |Backing(d)| else |s|
    ensures forall i :: |s| <= i < |Backing(d)| ==> Backing(AppendAll(d, s))[i] == Backing(d)[i]
  {}

  function Pointee(d: Val, zero: Val): Val { if d.VRef? then d.v else zero }

  function Member(d: Val, tag: nat, zero: Val): Val { if d.VMem? && d.tag == tag then d.v else zero }

  function ArrElems(d: Val, m: nat, zero: Val): (vs: seq<Val>)
    ensures |vs| == m
  {
    if d.VArr? && |d.elems| == m then d.elems else Zeros(m, zero)
  }

  function FieldVals(g: Gen, d: Val, n: Name): (vs: seq<Val>)
    ensures |vs| == |FieldsOf(g, n)|
  {
    if d.VStruct? && |d.fields| == |FieldsOf(g, n)| then d.fields else ZeroFields(g, FieldsOf(g, n))
  }

  function PadOf(d: Val): Bytes { if d.VStruct? then d.pad else [] }

  /** Decodes the front of `b` into a destination holding `d`. */
  ghost function DecInto(g: Gen, ty: Ty, d: Val, b: Bytes): (r: Out<Val>)
    ensures r.n <= |b|
    decreases |b|, TyRank(g, ty), ty, 1
  {
    match ty
    case TScalar(k, _) =>
      if |b| < Width(k) then Out(d, 0, Guard(g))
      else Out(VNum(ScalarOf(k, b[..Width(k)])), Width(k), NoErr)
    case TStr(_) =>
      var (nn, cc) := Uvarint(b);
      if cc <= 0 then Out(d, 0, Guard(g))
      else if |b| - cc < nn then Out(d, cc, Guard(g))
      else Out(VStr(b[cc..cc + nn]), cc + nn, NoErr)
    case TSlice(e, _) => DecSliceInto(g, e, d, b)
    case TArray(m, e, _) => DecArrayInto(g, m, e, d, b)
    case TPtr(e, _) => DecPtrInto(g, e, d, b)
    case TMap(kt, vt, _) => DecMapInto(g, kt, vt, d, b)
    case TStruct(n) => DecStructInto(g, n, d, b)
    case TUnion(ms) => DecUnionInto(g, ms, d, b)
    case TSkip => Out(if d.VOpaque? then d else VOpaque(0), 0, NoErr)
  }

  ghost function DecSliceInto(g: Gen, e: Ty, d: Val, b: Bytes): (r: Out<Val>)
    ensures r.n <= |b|
    decreases |b|, 0, e, 0
  {
    var (nn, cc) := Uvarint(b);
    if cc <= 0 then Out(d, 0, Guard(g))
    else if nn == 0 then Out(NIL_SLICE, cc, NoErr)
    else if (g.mode.Safe? || IsByte(e)) && |b| - cc < nn then Out(d, cc, Guard(g))
    else if IsByte(e) then
      var s := b[cc..cc + nn];
      Out(if g.mode.Safe? then AppendAll(d, s) else VSlice(false, ByteVals(s), []), cc + nn, NoErr)
    else
      var base := Grow(d, nn, Zero(g, e));
      var r := DecElemsInto(g, e, base.elems, b[cc..]);
      Out(VSlice(false, r.v, base.stale), cc + r.n, r.e)
  }

  ghost function DecArrayInto(g: Gen, m: nat, e: Ty, d: Val, b: Bytes): (r: Out<Val>)
    ensures r.n <= |b|
    decreases |b|, TyRank(g, e), e, m + 9
  {
    if IsByte(e) then
      if |b| < m then Out(d, 0, Guard(g)) else Out(VArr(ByteVals(b[..m])), m, NoErr)
    else
      var r := DecElemsInto(g, e, ArrElems(d, m, Zero(g, e)), b);
      Out(VArr(r.v), r.n, r.e)
  }

  ghost function DecPtrInto(g: Gen, e: Ty, d: Val, b: Bytes): (r: Out<Val>)
    ensures r.n <= |b|
    decreases |b|, 0, e, 0
  {
    if |b| < 1 then Out(d, 0, Guard(g))
    else if b[0] == 0 then Out(VNil, 1, NoErr)
    else
      var r := DecInto(g, e, Pointee(d, Zero(g, e)), b[1..]);
      Out(VRef(r.v), 1 + r.n, r.e)
  }

  ghost function DecMapInto(g: Gen, kt: Ty, vt: Ty, d: Val, b: Bytes): (r: Out<Val>)
    ensures r.n <= |b|
    decreases |b|, 0, kt, 0
  {
    var (nn, cc) := Uvarint(b);
    if cc <= 0 then Out(d, 0, Guard(g))
    else if nn == 0 then Out(NIL_MAP, cc, NoErr)
    else if g.mode.Safe? && |b| - cc < nn then Out(d, cc, ShortBuffer)
    else
      var r := DecEntriesInto(g, kt, vt, nn, [], b[cc..]);
      Out(VMap(false, r.v), cc + r.n, r.e)
  }

  ghost function DecUnionInto(g: Gen, ms: seq<Name>, d: Val, b: Bytes): (r: Out<Val>)
    ensures r.n <= |b|
    decreases |b|, 0, TUnion(ms), 0
  {
    var (nn, cc) := Uvarint(b);
    if cc <= 0 then Out(d, 0, Guard(g))
    else if nn == 0 then Out(VNil, cc, NoErr)
    else if nn > |ms| then Out(d, cc, UnknownUnionTag)
    else
      var m := ms[nn - 1];
      var r := DecStructInto(g, m, Member(d, nn - 1, Zero(g, TStruct(m))), b[cc..]);
      if r.e == NoErr || (d.VMem? && d.tag == nn - 1) then Out(VMem(nn - 1, r.v), cc + r.n, r.e)
      else Out(d, cc + r.n, r.e)
  }

  /** The part of a union decode past the tag. */
  ghost function TaggedInto(g: Gen, ms: seq<Name>, nn: nat, d: Val, b: Bytes): Out<Val> {
    if nn == 0 then Out(VNil, 0, NoErr)
    else if nn > |ms| then Out(d, 0, UnknownUnionTag)
    else
      var m := ms[nn - 1];
      var q := DecStructInto(g, m, Member(d, nn - 1, Zero(g, TStruct(m))), b);
      if q.e == NoErr || (d.VMem? && d.tag == nn - 1) then Out(VMem(nn - 1, q.v), q.n, q.e)
      else Out(d, q.n, q.e)
  }

  /** A delegated Unmarshal. Safe mode hands a nested error on, with the caller's own
      offset; fast mode drops it and goes on after the bytes the callee counted. */
  ghost function DecStructInto(g: Gen, n: Name, d: Val, b: Bytes): (r: Out<Val>)
    ensures r.n <= |b|
    decreases |b|, RankOf(g, n) + 1, TStruct(n), 0
  {
    if Blittable(g, n) then
      if |b| < Sizeof(g, n) then Out(d, 0, Unchecked)
      else Out(VStruct(LoadFields(g, n, b[..Sizeof(g, n)]), b[..Sizeof(g, n)]), Sizeof(g, n), NoErr)
    else
      var r := DecFieldsInto(g, FieldsOf(g, n), FieldVals(g, d, n), b);
      var v := VStruct(r.v, PadOf(d));
      if r.e == Unchecked || (g.mode.Safe? && r.e != NoErr) then Out(v, 0, r.e)
      else Out(v, r.n, NoErr)
  }

  /** Elements, as one block of raw memory where fast mode may. */
  ghost function DecElemsInto(g: Gen, e: Ty, ds: seq<Val>, b: Bytes): (r: Out<seq<Val>>)
    ensures r.n <= |b| && |r.v| == |ds|
    decreases |b|, TyRank(g, e), e, |ds| + 3
  {
    if RawElems(g, e) then
      var w := |ds| * RawWidth(e);
      if |b| < w then Out(ds, 0, Unchecked)
      else Out(LoadSeq(g.mode.lay.big, e, |ds|, b[..w]), w, NoErr)
    else DecNInto(g, e, ds, b)
  }

  ghost function DecNInto(g: Gen, e: Ty, ds: seq<Val>, b: Bytes): (r: Out<seq<Val>>)
    ensures r.n <= |b| && |r.v| == |ds|
    decreases |b|, TyRank(g, e), e, |ds| + 2
  {
    if ds == [] then Out([], 0, NoErr) else
      var r := DecInto(g, e, ds[0], b);
      if r.e != NoErr then Out([r.v] + ds[1..], r.n, r.e)
      else
        var t := DecNInto(g, e, ds[1..], b[r.n..]);
        Out([r.v] + t.v, r.n + t.n, t.e)
  }

  ghost function DecFieldsInto(g: Gen, tys: seq<Ty>, ds: seq<Val>, b: Bytes): (r: Out<seq<Val>>)
    requires |tys| == |ds|
    ensures r.n <= |b| && |r.v| == |ds|
    decreases |b|, FieldsRank(g, tys), tys, 0
  {
    if tys == [] then Out([], 0, NoErr) else
      var r := DecInto(g, tys[0], ds[0], b);
      if r.e != NoErr then Out([r.v] + ds[1..], r.n, r.e)
      else
        var t := DecFieldsInto(g, tys[1..], ds[1..], b[r.n..]);
        Out([r.v] + t.v, r.n + t.n, t.e)
  }

  /** One key and value, each decoded into a fresh zeroed variable. */
  ghost function DecPairInto(g: Gen, kt: Ty, vt: Ty, b: Bytes): (r: Out<Entry>)
    ensures r.n <= |b|
    decreases |b|, PairRank(g, kt, vt), TMap(kt, vt), 0
  {
    var k := DecInto(g, kt, Zero(g, kt), b);
    if k.e != NoErr then Out(Entry(k.v, Zero(g, vt)), k.n, k.e)
    else
      var v := DecInto(g, vt, Zero(g, vt), b[k.n..]);
      Out(Entry(k.v, v.v), k.n + v.n, v.e)
  }

  ghost function DecEntriesInto(g: Gen, kt: Ty, vt: Ty, m: nat, acc: seq<Entry>, b: Bytes): (r: Out<seq<Entry>>)
    ensures r.n <= |b|
    decreases |b|, PairRank(g, kt, vt), TMap(kt, vt), m
  {
    if m == 0 then Out(acc, 0, NoErr) else
      var p := DecPairInto(g, kt, vt, b);
      if p.e != NoErr then Out(acc, p.n, p.e)
      else
        var t := DecEntriesInto(g, kt, vt, m - 1, MapSet(acc, p.v.k, p.v.v), b[p.n..]);
        Out(t.v, p.n + t.n, t.e)
  }

  // ---------------------------------------------------------------------
  // One step of each loop
  // ---------------------------------------------------------------------

  lemma DecNStep(g: Gen, e: Ty, m: nat, b: Bytes)
    ensures m == 0 ==> DecN(g, e, m, b) == Ok([], 0)
    ensures m > 0 ==>
              var r := Dec(g, e, b);
              DecN(g, e, m, b) ==
                if r.Fail? then Fail(r.e, r.n)
                else
                  var t := DecN(g, e, m - 1, b[r.n..]);
                  if t.Fail? then Fail(t.e, r.n + t.n) else Ok([r.v] + t.v, r.n + t.n)
  {
    hide Dec;
  }

  lemma NIntoNil(g: Gen, e: Ty, b: Bytes)
    ensures DecNInto(g, e, [], b) == Out([], 0, NoErr)
  {}

  lemma NIntoStep(g: Gen, e: Ty, ds: seq<Val>, b: Bytes)
    requires ds != []
    ensures var r := DecInto(g, e, ds[0], b);
            if r.e != NoErr then DecNInto(g, e, ds, b) == Out([r.v] + ds[1..], r.n, r.e)
            else var t := DecNInto(g, e, ds[1..], b[r.n..]);
                 DecNInto(g, e, ds, b) == Out([r.v] + t.v, r.n + t.n, t.e)
  {
    hide DecInto;
  }

  lemma FieldsIntoNil(g: Gen, b: Bytes)
    ensures DecFieldsInto(g, [], [], b) == Out([], 0, NoErr)
  {}

  lemma FieldsIntoStep(g: Gen, tys: seq<Ty>, ds: seq<Val>, b: Bytes)
    requires |tys| == |ds| && tys != []
    ensures var r := DecInto(g, tys[0], ds[0], b);
            if r.e != NoErr then DecFieldsInto(g, tys, ds, b) == Out([r.v] + ds[1..], r.n, r.e)
            else var t := DecFieldsInto(g, tys[1..], ds[1..], b[r.n..]);
                 DecFieldsInto(g, tys, ds, b) == Out([r.v] + t.v, r.n + t.n, t.e)
  {
    hide DecInto;
  }

  lemma EntriesIntoNil(g: Gen, kt: Ty, vt: Ty, acc: seq<Entry>, b: Bytes)
    ensures DecEntriesInto(g, kt, vt, 0, acc, b) == Out(acc, 0, NoErr)
  {}

  lemma EntriesIntoStep(g: Gen, kt: Ty, vt: Ty, m: nat, acc: seq<Entry>, b: Bytes)
    requires m > 0
    ensures var p := DecPairInto(g, kt, vt, b);
            if p.e != NoErr then DecEntriesInto(g, kt, vt, m, acc, b) == Out(acc, p.n, p.e)
            else var t := DecEntriesInto(g, kt, vt, m - 1, MapSet(acc, p.v.k, p.v.v), b[p.n..]);
                 DecEntriesInto(g, kt, vt, m, acc, b) == Out(t.v, p.n + t.n, t.e)
  {
    hide DecPairInto, MapSet;
  }

  lemma OneFieldInto(g: Gen, ty: Ty, d: Val, b: Bytes)
    ensures var r := DecInto(g, ty, d, b); DecFieldsInto(g, [ty], [d], b) == Out([r.v], r.n, r.e)
  {
    hide DecInto, DecFieldsInto;
    FieldsIntoStep(g, [ty], [d], b);
    var r := DecInto(g, ty, d, b);
    var none: seq<Val> := [];
    assert [ty][1..] == [] && [d][1..] == none && [r.v] + none == [r.v];
    FieldsIntoNil(g, b[r.n..]);
  }

  lemma TwoFieldsInto(g: Gen, ty: Ty, ty': Ty, d: Val, d': Val, b: Bytes)
    ensures var r := DecInto(g, ty, d, b);
            var q := DecInto(g, ty', d', b[r.n..]);
            DecFieldsInto(g, [ty, ty'], [d, d'], b) ==
              if r.e != NoErr then Out([r.v, d'], r.n, r.e) else Out([r.v, q.v], r.n + q.n, q.e)
  {
    hide DecInto, DecFieldsInto;
    FieldsIntoStep(g, [ty, ty'], [d, d'], b);
    var r := DecInto(g, ty, d, b);
    var q := DecInto(g, ty', d', b[r.n..]);
    assert [ty, ty'][1..] == [ty'] && [d, d'][1..] == [d'];
    assert [r.v] + [d'] == [r.v, d'] && [r.v] + [q.v] == [r.v, q.v];
    OneFieldInto(g, ty', d', b[r.n..]);
  }

  // ---------------------------------------------------------------------
  // Raw loads are the element loop, on a little-endian machine
  // ---------------------------------------------------------------------

  lemma {:induction false} FixedDec(g: Gen, ty: Ty, b: Bytes)
    requires MemCopyable(ty)
    ensures |b| >= RawWidth(ty) ==> Dec(g, ty, b) == Ok(Load(false, ty, b[..RawWidth(ty)]), RawWidth(ty))
    ensures |b| < RawWidth(ty) ==> Dec(g, ty, b).Fail?
    decreases ty, 0
  {
    if ty.TArray? { FixedDecN(g, ty.elem, ty.len, b); }
  }

  lemma {:induction false} FixedDecN(g: Gen, e: Ty, m: nat, b: Bytes)
    requires MemCopyable(e)
    ensures |b| >= m * RawWidth(e) ==>
              DecN(g, e, m, b) == Ok(LoadSeq(false, e, m, b[..m * RawWidth(e)]), m * RawWidth(e))
    ensures |b| < m * RawWidth(e) ==> DecN(g, e, m, b).Fail?
    decreases e, m + 1
  {
    hide Dec, DecN, Load, RawWidth;
    DecNStep(g, e, m, b);
    if m > 0 {
      var w := RawWidth(e);
      MulStep(m, w);
      FixedDec(g, e, b);
      if |b| >= w {
        FixedDecN(g, e, m - 1, b[w..]);
        if |b| >= m * w {
          var t := b[..m * w];
          assert t[..w] == b[..w];
          assert t[w..] == b[w..][..(m - 1) * w];
        }
      }
    }
  }

  /** Values loaded from raw memory have nothing to clean. */
  lemma {:induction false} LoadClean(big: bool, ty: Ty, m: Bytes)
    requires MemCopyable(ty) && |m| == RawWidth(ty)
    ensures View(Load(big, ty, m)) == Load(big, ty, m)
    decreases ty, 0
  {
    if ty.TArray? { LoadSeqClean(big, ty.elem, ty.len, m); }
  }

  lemma {:induction false} LoadSeqClean(big: bool, e: Ty, n: nat, m: Bytes)
    requires MemCopyable(e) && |m| == n * RawWidth(e)
    ensures CleanSeq(LoadSeq(big, e, n, m), false) == LoadSeq(big, e, n, m)
    decreases e, n + 1
  {
    if n > 0 {
      MulStep(n, RawWidth(e));
      LoadClean(big, e, m[..RawWidth(e)]);
      LoadSeqClean(big, e, n - 1, m[RawWidth(e)..]);
    }
  }

  /** Neither has a decoded map key, whatever it was decoded into. */
  lemma {:induction false} KeyIsClean(g: Gen, ty: Ty, d: Val, b: Bytes)
    requires KeyTy(ty)
    ensures DecInto(g, ty, d, b).e == NoErr ==> View(DecInto(g, ty, d, b).v) == DecInto(g, ty, d, b).v
    decreases ty, 0
  {
    hide DecElemsInto, LoadSeq;
    if ty.TArray? {
      var m, e := ty.len, ty.elem;
      if IsByte(e) {
        if m <= |b| { LoadSeqClean(false, e, m, b[..m]); }
      } else {
        KeyElemsAreClean(g, e, ArrElems(d, m, Zero(g, e)), b);
      }
    }
  }

  lemma {:induction false} KeyElemsAreClean(g: Gen, e: Ty, ds: seq<Val>, b: Bytes)
    requires KeyTy(e)
    ensures var r := DecElemsInto(g, e, ds, b); r.e == NoErr ==> CleanSeq(r.v, false) == r.v
    decreases e, |ds| + 2
  {
    hide DecNInto, LoadSeq;
    if RawElems(g, e) {
      var w := |ds| * RawWidth(e);
      if w <= |b| { LoadSeqClean(g.mode.lay.big, e, |ds|, b[..w]); }
    } else {
      KeysAreClean(g, e, ds, b);
    }
  }

  lemma {:induction false} KeysAreClean(g: Gen, e: Ty, ds: seq<Val>, b: Bytes)
    requires KeyTy(e)
    ensures DecNInto(g, e, ds, b).e == NoErr ==> CleanSeq(DecNInto(g, e, ds, b).v, false) == DecNInto(g, e, ds, b).v
    decreases e, |ds| + 1
  {
    hide DecInto;
    if ds != [] {
      KeyIsClean(g, e, ds[0], b);
      KeysAreClean(g, e, ds[1..], b[DecInto(g, e, ds[0], b).n..]);
    }
  }

  // ---------------------------------------------------------------------
  // Reuse independence
  // ---------------------------------------------------------------------

  /** Every struct `ty` mentions is in `R`. */
  predicate Within(R: set<Name>, ty: Ty) {
    match ty
    case TSlice(e, _) => Within(R, e)
    case TArray(_, e, _) => Within(R, e)
    case TPtr(e, _) => Within(R, e)
    case TMap(k, v, _) => Within(R, k) && Within(R, v)
    case TStruct(n) => n in R
    case TUnion(ms) => forall m :: m in ms ==> m in R
    case _ => true
  }

  /** No struct in `R`, or that one of these mentions, is copied whole in fast mode. */
  ghost predicate FieldByField(g: RawGen, R: set<Name>) {
    forall n :: n in R ==>
      && !BlitFields(FieldsOf(g, n))
      && forall k :: 0 <= k < |FieldsOf(g, n)| ==> Within(R, FieldsOf(g, n)[k])
  }

  /** The element-wise wire format is the one in use: safe mode, or fast mode on a
      little-endian machine where nothing reachable is copied whole. */
  ghost predicate Plain(g: Gen, R: set<Name>) {
    g.mode.Fast? ==> !g.mode.lay.big && FieldByField(g, R)
  }

  ghost predicate Covered(g: Gen, R: set<Name>, ty: Ty) {
    WfTy(ty) && (g.mode.Fast? ==> Within(R, ty))
  }

  ghost predicate FieldsCovered(g: Gen, R: set<Name>, tys: seq<Ty>) {
    forall k :: 0 <= k < |tys| ==> Covered(g, R, tys[k])
  }

  /** `r` is what the reference decoder says, seen through the serialized fields. */
  ghost predicate Agrees(g: Gen, r: Out<Val>, q: Result<Val>) {
    && (q.Ok? ==> r.e == NoErr && r.n == q.n && View(r.v) == q.v)
    && (q.Fail? && g.mode.Safe? ==> r.e == q.e && r.n == q.n)
  }

  ghost predicate SeqAgrees(g: Gen, r: Out<seq<Val>>, q: Result<seq<Val>>) {
    && (q.Ok? ==> r.e == NoErr && r.n == q.n && CleanSeq(r.v, false) == q.v)
    && (q.Fail? && g.mode.Safe? ==> r.e == q.e && r.n == q.n)
  }

  /** Whatever the destination held, decoding into it gives the serialized content,
      offset and error of the reference decoder. */
  lemma {:induction false} ReuseIndependent(g: Gen, R: set<Name>, ty: Ty, d: Val, b: Bytes)
    requires Plain(g, R) && Covered(g, R, ty)
    ensures Agrees(g, DecInto(g, ty, d, b), Dec(g, ty, b))
    decreases |b|, TyRank(g, ty), ty, 1
  {
    hide DecSlice, DecArray, DecPtr, DecMap, DecStruct, DecUnion;
    hide DecSliceInto, DecArrayInto, DecPtrInto, DecMapInto, DecStructInto, DecUnionInto;
    match ty
    case TScalar(_, _) =>
    case TStr(_) =>
    case TSlice(e, _) => SliceIndependent(g, R, e, d, b);
    case TArray(m, e, _) => ArrayIndependent(g, R, m, e, d, b);
    case TPtr(e, _) => PtrIndependent(g, R, e, d, b);
    case TMap(kt, vt, _) => MapIndependent(g, R, kt, vt, d, b);
    case TStruct(n) => StructIndependent(g, R, n, d, b);
    case TUnion(ms) => UnionIndependent(g, R, ms, d, b);
    case TSkip =>
  }

  lemma {:induction false} PtrIndependent(g: Gen, R: set<Name>, e: Ty, d: Val, b: Bytes)
    requires Plain(g, R) && Covered(g, R, TPtr(e))
    ensures Agrees(g, DecPtrInto(g, e, d, b), DecPtr(g, e, b))
    decreases |b|, 0, e, 0
  {
    hide Dec, DecInto;
    if |b| > 0 && b[0] != 0 { ReuseIndependent(g, R, e, Pointee(d, Zero(g, e)), b[1..]); }
  }

  lemma {:induction false} MapIndependent(g: Gen, R: set<Name>, kt: Ty, vt: Ty, d: Val, b: Bytes)
    requires Plain(g, R) && Covered(g, R, TMap(kt, vt))
    ensures Agrees(g, DecMapInto(g, kt, vt, d, b), DecMap(g, kt, vt, b))
    decreases |b|, 0, kt, 0
  {
    hide DecMap, DecMapInto, DecEntries, DecEntriesInto, Uvarint, Agrees, Plain;
    var (nn, cc) := Uvarint(b);
    if cc > 0 && nn > 0 {
      EntriesIndependent(g, R, kt, vt, nn, [], [], b[cc..]);
      var r, q := DecEntriesInto(g, kt, vt, nn, [], b[cc..]), DecEntries(g, kt, vt, nn, [], b[cc..]);
      if q.Ok? { MatchClean(r.v, q.v); }
    }
    MapFromEntries(g, kt, vt, d, b);
  }

  lemma MapFromEntries(g: Gen, kt: Ty, vt: Ty, d: Val, b: Bytes)
    requires var (nn, cc) := Uvarint(b);
             cc > 0 && nn > 0 ==>
               var r, q := DecEntriesInto(g, kt, vt, nn, [], b[cc..]), DecEntries(g, kt, vt, nn, [], b[cc..]);
               && (q.Ok? ==> r.e == NoErr && r.n == q.n && CleanEntries(r.v, false) == q.v)
               && (q.Fail? && g.mode.Safe? ==> r.e == q.e && r.n == q.n)
    ensures Agrees(g, DecMapInto(g, kt, vt, d, b), DecMap(g, kt, vt, b))
  {
    hide DecEntries, DecEntriesInto, Uvarint, CleanEntries;
  }

  lemma {:induction false} StructIndependent(g: Gen, R: set<Name>, n: Name, d: Val, b: Bytes)
    requires Plain(g, R) && Covered(g, R, TStruct(n))
    ensures Agrees(g, DecStructInto(g, n, d, b), DecStruct(g, n, b))
    decreases |b|, RankOf(g, n) + 1, TStruct(n), 0
  {
    hide DecStruct, DecStructInto, DecFields, DecFieldsInto, FieldVals, Plain, Covered;
    StructWf(g, n);
    StructCovered(g, R, n);
    FieldsIndependent(g, R, FieldsOf(g, n), FieldVals(g, d, n), b);
    StructFromFields(g, n, d, b);
  }

  lemma StructFromFields(g: Gen, n: Name, d: Val, b: Bytes)
    requires !Blittable(g, n)
    requires SeqAgrees(g, DecFieldsInto(g, FieldsOf(g, n), FieldVals(g, d, n), b), DecFields(g, FieldsOf(g, n), b))
    ensures Agrees(g, DecStructInto(g, n, d, b), DecStruct(g, n, b))
  {
    hide DecFields, DecFieldsInto, LoadFields, FieldVals, CleanSeq;
  }

  lemma {:induction false} UnionIndependent(g: Gen, R: set<Name>, ms: seq<Name>, d: Val, b: Bytes)
    requires Plain(g, R) && Covered(g, R, TUnion(ms))
    ensures Agrees(g, DecUnionInto(g, ms, d, b), DecUnion(g, ms, b))
    decreases |b|, 0, TUnion(ms), 0
  {
    hide DecUnion, DecUnionInto, DecStruct, DecStructInto, Uvarint, Plain, Zero, Agrees;
    var (nn, cc) := Uvarint(b);
    if cc > 0 && 0 < nn <= |ms| {
      var m := ms[nn - 1];
      StructIndependent(g, R, m, Member(d, nn - 1, Zero(g, TStruct(m))), b[cc..]);
    }
    UnionFromMember(g, ms, d, b);
  }

  lemma UnionFromMember(g: Gen, ms: seq<Name>, d: Val, b: Bytes)
    requires var (nn, cc) := Uvarint(b);
             cc > 0 && 0 < nn <= |ms| ==>
               var m := ms[nn - 1];
               Agrees(g, DecStructInto(g, m, Member(d, nn - 1, Zero(g, TStruct(m))), b[cc..]), DecStruct(g, m, b[cc..]))
    ensures Agrees(g, DecUnionInto(g, ms, d, b), DecUnion(g, ms, b))
  {
    hide DecStruct, DecStructInto, Uvarint, Zero, Member;
  }

  lemma StructCovered(g: Gen, R: set<Name>, n: Name)
    requires Plain(g, R) && Covered(g, R, TStruct(n))
    ensures FieldsCovered(g, R, FieldsOf(g, n)) && !Blittable(g, n)
  {
    if n in g.structs { assert WfFields(g.structs[n]); }
  }

  lemma {:induction false} SliceIndependent(g: Gen, R: set<Name>, e: Ty, d: Val, b: Bytes)
    requires Plain(g, R) && Covered(g, R, TSlice(e))
    ensures Agrees(g, DecSliceInto(g, e, d, b), DecSlice(g, e, b))
    decreases |b|, 0, e, 0
  {
    hide DecSlice, DecSliceInto, Agrees, Plain, Uvarint;
    var (nn, cc) := Uvarint(b);
    if cc > 0 && nn > 0 && !IsByte(e) {
      ElemsIndependent(g, R, e, Grow(d, nn, Zero(g, e)).elems, b[cc..]);
    }
    if IsByte(e) { BytesSliceIndependent(g, d, b); } else { ElemsSliceIndependent(g, e, d, b); }
  }

  lemma BytesSliceIndependent(g: Gen, d: Val, b: Bytes)
    ensures Agrees(g, DecSliceInto(g, BYTE, d, b), DecSlice(g, BYTE, b))
  {
    hide DecN, DecElemsInto, AppendAll, LoadSeq, Uvarint, ByteVals, TyRank;
    var (nn, cc) := Uvarint(b);
    if cc > 0 {
      BytesAreElems(g, nn, b[cc..]);
      assert nn <= |b| - cc ==> b[cc..][..nn] == b[cc..cc + nn];
    }
  }

  lemma ElemsSliceIndependent(g: Gen, e: Ty, d: Val, b: Bytes)
    requires !IsByte(e)
    requires var (nn, cc) := Uvarint(b);
             cc > 0 && nn > 0 ==> SeqAgrees(g, DecElemsInto(g, e, Grow(d, nn, Zero(g, e)).elems, b[cc..]), DecN(g, e, nn, b[cc..]))
    ensures Agrees(g, DecSliceInto(g, e, d, b), DecSlice(g, e, b))
  {
    hide DecN, DecElemsInto, Grow, Uvarint, Zero;
  }

  /** One bulk copy reads a []byte as the element loop would. */
  lemma BytesAreElems(g: Gen, m: nat, b: Bytes)
    ensures m <= |b| ==> DecN(g, BYTE, m, b) == Ok(ByteVals(b[..m]), m)
                         && CleanSeq(ByteVals(b[..m]), false) == ByteVals(b[..m])
    ensures m > |b| ==> DecN(g, BYTE, m, b).Fail?
  {
    FixedDecN(g, BYTE, m, b);
    if m <= |b| { LoadSeqClean(false, BYTE, m, b[..m]); }
  }

  lemma {:induction false} ArrayIndependent(g: Gen, R: set<Name>, m: nat, e: Ty, d: Val, b: Bytes)
    requires Plain(g, R) && Covered(g, R, TArray(m, e))
    ensures Agrees(g, DecArrayInto(g, m, e, d, b), DecArray(g, m, e, b))
    decreases |b|, TyRank(g, e), e, m + 9
  {
    hide DecN, DecElemsInto, ArrElems, LoadSeq;
    if IsByte(e) { BytesAreElems(g, m, b); } else { ElemsIndependent(g, R, e, ArrElems(d, m, Zero(g, e)), b); }
  }

  lemma {:induction false} ElemsIndependent(g: Gen, R: set<Name>, e: Ty, ds: seq<Val>, b: Bytes)
    requires Plain(g, R) && Covered(g, R, e)
    ensures SeqAgrees(g, DecElemsInto(g, e, ds, b), DecN(g, e, |ds|, b))
    decreases |b|, TyRank(g, e), e, |ds| + 3
  {
    hide Dec, DecInto, DecN, DecNInto;
    if RawElems(g, e) {
      FixedDecN(g, e, |ds|, b);
      if |b| >= |ds| * RawWidth(e) { LoadSeqClean(false, e, |ds|, b[..|ds| * RawWidth(e)]); }
    } else {
      NIndependent(g, R, e, ds, b);
    }
  }

  lemma {:induction false} NIndependent(g: Gen, R: set<Name>, e: Ty, ds: seq<Val>, b: Bytes)
    requires Plain(g, R) && Covered(g, R, e)
    ensures SeqAgrees(g, DecNInto(g, e, ds, b), DecN(g, e, |ds|, b))
    decreases |b|, TyRank(g, e), e, |ds| + 2
  {
    hide Dec, DecInto, DecN, DecNInto, Plain, Covered;
    DecNStep(g, e, |ds|, b);
    NIntoNil(g, e, b);
    if ds != [] {
      NIntoStep(g, e, ds, b);
      ReuseIndependent(g, R, e, ds[0], b);
      var r := DecInto(g, e, ds[0], b);
      if Dec(g, e, b).Ok? {
        NIndependent(g, R, e, ds[1..], b[r.n..]);
      }
    }
  }

  lemma {:induction false} FieldsIndependent(g: Gen, R: set<Name>, tys: seq<Ty>, ds: seq<Val>, b: Bytes)
    requires Plain(g, R) && FieldsCovered(g, R, tys) && |tys| == |ds|
    ensures SeqAgrees(g, DecFieldsInto(g, tys, ds, b), DecFields(g, tys, b))
    decreases |b|, FieldsRank(g, tys), tys, 1
  {
    hide Dec, DecInto, Plain, Covered;
    if tys != [] {
      ReuseIndependent(g, R, tys[0], ds[0], b);
      var r := DecInto(g, tys[0], ds[0], b);
      if Dec(g, tys[0], b).Ok? {
        FieldsIndependent(g, R, tys[1..], ds[1..], b[r.n..]);
      }
    }
  }

  lemma {:induction false} PairIndependent(g: Gen, R: set<Name>, kt: Ty, vt: Ty, b: Bytes)
    requires Plain(g, R) && KeyTy(kt) && Covered(g, R, kt) && Covered(g, R, vt)
    ensures var r, q := DecPairInto(g, kt, vt, b), DecPair(g, kt, vt, b);
            && (q.Ok? ==> r.e == NoErr && r.n == q.n && r.v.k == q.v.k && CleanEntry(r.v, false) == q.v)
            && (q.Fail? && g.mode.Safe? ==> r.e == q.e && r.n == q.n)
    decreases |b|, PairRank(g, kt, vt), TMap(kt, vt), 1
  {
    hide Dec, DecInto;
    ReuseIndependent(g, R, kt, Zero(g, kt), b);
    KeyIsClean(g, kt, Zero(g, kt), b);
    var k := Dec(g, kt, b);
    if k.Ok? { ReuseIndependent(g, R, vt, Zero(g, vt), b[k.n..]); }
  }

  /** Same keys in the same places, values equal once cleaned. */
  ghost predicate EntriesMatch(es: seq<Entry>, fs: seq<Entry>) {
    if es == [] || fs == [] then es == fs
    else es[0].k == fs[0].k && CleanEntry(es[0], false) == fs[0] && EntriesMatch(es[1..], fs[1..])
  }

  lemma {:induction false} MatchClean(es: seq<Entry>, fs: seq<Entry>)
    requires EntriesMatch(es, fs)
    ensures CleanEntries(es, false) == fs
  {
    hide CleanEntry;
    if es != [] { MatchClean(es[1..], fs[1..]); }
  }

  lemma {:induction false} MapSetMatch(es: seq<Entry>, fs: seq<Entry>, k: Val, v: Val)
    requires EntriesMatch(es, fs) && View(k) == k
    ensures EntriesMatch(MapSet(es, k, v), MapSet(fs, k, View(v)))
  {
    hide Clean;
    if es != [] && es[0].k != k { MapSetMatch(es[1..], fs[1..], k, v); }
  }

  lemma {:induction false} EntriesIndependent(g: Gen, R: set<Name>, kt: Ty, vt: Ty, m: nat, acc: seq<Entry>, ref: seq<Entry>, b: Bytes)
    requires Plain(g, R) && KeyTy(kt) && Covered(g, R, kt) && Covered(g, R, vt)
    requires EntriesMatch(acc, ref)
    ensures var r, q := DecEntriesInto(g, kt, vt, m, acc, b), DecEntries(g, kt, vt, m, ref, b);
            && (q.Ok? ==> r.e == NoErr && r.n == q.n && EntriesMatch(r.v, q.v))
            && (q.Fail? && g.mode.Safe? ==> r.e == q.e && r.n == q.n)
    decreases |b|, PairRank(g, kt, vt), TMap(kt, vt), m + 1
  {
    hide Dec, DecInto, DecPair, DecPairInto, Plain, Covered, MapSet;
    if m > 0 {
      PairIndependent(g, R, kt, vt, b);
      var p := DecPairInto(g, kt, vt, b);
      var q := DecPair(g, kt, vt, b);
      if q.Ok? {
        MapSetMatch(acc, ref, p.v.k, p.v.v);
        EntriesIndependent(g, R, kt, vt, m - 1, MapSet(acc, p.v.k, p.v.v), MapSet(ref, q.v.k, q.v.v), b[p.n..]);
      }
    }
  }
}
