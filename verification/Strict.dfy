/** Decoding that stops at the first error, wherever it is met, over the wire format of the
    mode: what a generated Unmarshal would do if fast mode handed nested errors on. */
module Strict {
  import opened Bytes
  import opened Varint
  import opened Schema
  import opened Memory
  import opened Codec
  import opened Reuse

  /** The bytes taken, or the error and the offset at which the enclosing method has it.
      `own`: that method met the error itself, in its slices, arrays, maps and pointers, and
      not in a nested struct or union member, which have methods of their own. */
  datatype Stop = Went(n: nat) | Stopped(e: Err, n: nat, own: bool)

  function After(k: nat, q: Stop): Stop { q.(n := k + q.n) }

  /** One after the other. */
  function Then(q: Stop, t: Stop): Stop { if q.Stopped? then q else After(q.n, t) }

  ghost predicate Fine(g: RawGen, q: Stop, b: Bytes) {
    q.n <= |b| && (q.Stopped? ==> q.e in {Guard(g), UnknownUnionTag, Unchecked})
  }

  ghost function Scan(g: Gen, ty: Ty, b: Bytes): (q: Stop)
    ensures Fine(g, q, b)
    decreases |b|, TyRank(g, ty), ty, 2
  {
    match ty
    case TScalar(k, _) => if |b| < Width(k) then Stopped(Guard(g), 0, true) else Went(Width(k))
    case TStr(_) =>
      var (nn, cc) := Uvarint(b);
      if cc <= 0 then Stopped(Guard(g), 0, true)
      else if |b| - cc < nn then Stopped(Guard(g), cc, true)
      else Went(cc + nn)
    case TSlice(e, _) => ScanSlice(g, e, b)
    case TArray(m, e, _) => ScanArray(g, m, e, b)
    case TPtr(e, _) => ScanPtr(g, e, b)
    case TMap(kt, vt, _) => ScanMap(g, kt, vt, b)
    case TStruct(n) => ScanStruct(g, n, b)
    case TUnion(ms) => ScanUnion(g, ms, b)
    case TSkip => Went(0)
  }

  ghost function ScanSlice(g: Gen, e: Ty, b: Bytes): (q: Stop)
    ensures Fine(g, q, b)
    decreases |b|, 0, e, 0
  {
    var (nn, cc) := Uvarint(b);
    if cc <= 0 then Stopped(Guard(g), 0, true)
    else if nn == 0 then Went(cc)
    else if (g.mode.Safe? || IsByte(e)) && |b| - cc < nn then Stopped(Guard(g), cc, true)
    else if IsByte(e) then Went(cc + nn)
    else After(cc, ScanElems(g, e, nn, b[cc..]))
  }

  ghost function ScanArray(g: Gen, m: nat, e: Ty, b: Bytes): (q: Stop)
    ensures Fine(g, q, b)
    decreases |b|, TyRank(g, e), e, m + 9
  {
    if IsByte(e) then (if |b| < m then Stopped(Guard(g), 0, true) else Went(m))
    else ScanElems(g, e, m, b)
  }

  ghost function ScanPtr(g: Gen, e: Ty, b: Bytes): (q: Stop)
    ensures Fine(g, q, b)
    decreases |b|, 0, e, 0
  {
    if |b| < 1 then Stopped(Guard(g), 0, true)
    else if b[0] == 0 then Went(1)
    else After(1, Scan(g, e, b[1..]))
  }

  ghost function ScanMap(g: Gen, kt: Ty, vt: Ty, b: Bytes): (q: Stop)
    ensures Fine(g, q, b)
    decreases |b|, 0, kt, 0
  {
    var (nn, cc) := Uvarint(b);
    if cc <= 0 then Stopped(Guard(g), 0, true)
    else if nn == 0 then Went(cc)
    else if g.mode.Safe? && |b| - cc < nn then Stopped(Guard(g), cc, true)
    else After(cc, ScanEntries(g, kt, vt, nn, b[cc..]))
  }

  ghost function ScanUnion(g: Gen, ms: seq<Name>, b: Bytes): (q: Stop)
    ensures Fine(g, q, b)
    decreases |b|, 0, TUnion(ms), 0
  {
    var (nn, cc) := Uvarint(b);
    if cc <= 0 then Stopped(Guard(g), 0, true)
    else if nn == 0 then Went(cc)
    else if nn > |ms| then Stopped(UnknownUnionTag, cc, true)
    else After(cc, ScanStruct(g, ms[nn - 1], b[cc..]))
  }

  /** A delegated Unmarshal: its error is met at the caller's own offset. */
  ghost function ScanStruct(g: Gen, n: Name, b: Bytes): (q: Stop)
    ensures Fine(g, q, b)
    decreases |b|, RankOf(g, n) + 1, TStruct(n), 1
  {
    match ScanMethod(g, n, b)
    case Went(k) => Went(k)
    case Stopped(e, _, _) => Stopped(e, 0, false)
  }

  /** A target's own Unmarshal. */
  ghost function ScanMethod(g: Gen, n: Name, b: Bytes): (q: Stop)
    ensures Fine(g, q, b)
    decreases |b|, RankOf(g, n) + 1, TStruct(n), 0
  {
    if !Blittable(g, n) then ScanFields(g, FieldsOf(g, n), b)
    else if |b| < Sizeof(g, n) then Stopped(Unchecked, 0, true)
    else Went(Sizeof(g, n))
  }

  ghost function ScanElems(g: Gen, e: Ty, m: nat, b: Bytes): (q: Stop)
    ensures Fine(g, q, b)
    decreases |b|, TyRank(g, e), e, m + 3
  {
    if !RawElems(g, e) then ScanN(g, e, m, b)
    else if |b| < m * RawWidth(e) then Stopped(Unchecked, 0, true)
    else Went(m * RawWidth(e))
  }

  ghost function ScanN(g: Gen, e: Ty, m: nat, b: Bytes): (q: Stop)
    ensures Fine(g, q, b)
    decreases |b|, TyRank(g, e), e, m + 2
  {
    if m == 0 then Went(0) else
      var q := Scan(g, e, b);
      Then(q, ScanN(g, e, m - 1, b[q.n..]))
  }

  ghost function ScanFields(g: Gen, tys: seq<Ty>, b: Bytes): (q: Stop)
    ensures Fine(g, q, b)
    decreases |b|, FieldsRank(g, tys), tys, 0
  {
    if tys == [] then Went(0) else
      var q := Scan(g, tys[0], b);
      Then(q, ScanFields(g, tys[1..], b[q.n..]))
  }

  ghost function ScanPair(g: Gen, kt: Ty, vt: Ty, b: Bytes): (q: Stop)
    ensures Fine(g, q, b)
    decreases |b|, PairRank(g, kt, vt), TMap(kt, vt), 0
  {
    var q := Scan(g, kt, b);
    Then(q, Scan(g, vt, b[q.n..]))
  }

  ghost function ScanEntries(g: Gen, kt: Ty, vt: Ty, m: nat, b: Bytes): (q: Stop)
    ensures Fine(g, q, b)
    decreases |b|, PairRank(g, kt, vt), TMap(kt, vt), m
  {
    if m == 0 then Went(0) else
      var q := ScanPair(g, kt, vt, b);
      Then(q, ScanEntries(g, kt, vt, m - 1, b[q.n..]))
  }

  lemma ScanNStep(g: Gen, e: Ty, m: nat, b: Bytes)
    ensures ScanN(g, e, 0, b) == Went(0)
    ensures m > 0 ==> ScanN(g, e, m, b) == var q := Scan(g, e, b); Then(q, ScanN(g, e, m - 1, b[q.n..]))
  {
    hide Scan;
  }

  lemma ScanFieldsStep(g: Gen, tys: seq<Ty>, b: Bytes)
    ensures tys == [] ==> ScanFields(g, tys, b) == Went(0)
    ensures tys != [] ==> ScanFields(g, tys, b) == var q := Scan(g, tys[0], b); Then(q, ScanFields(g, tys[1..], b[q.n..]))
  {
    hide Scan;
  }

  lemma ScanEntriesStep(g: Gen, kt: Ty, vt: Ty, m: nat, b: Bytes)
    ensures ScanEntries(g, kt, vt, 0, b) == Went(0)
    ensures m > 0 ==>
              ScanEntries(g, kt, vt, m, b) == var q := ScanPair(g, kt, vt, b); Then(q, ScanEntries(g, kt, vt, m - 1, b[q.n..]))
  {
    hide ScanPair;
  }

  // ---------------------------------------------------------------------
  // What the code makes of it
  // ---------------------------------------------------------------------

  ghost predicate Tag(q: Stop, own: bool) { q.Stopped? && q.e == UnknownUnionTag && q.own == own }

  /** A decode that ended at `n` with `e`: as the strict decoder does, but that fast mode
      goes on past an unknown tag that was not its own, and can only stop further on. */
  ghost predicate Follows(g: RawGen, q: Stop, e: Err, n: nat) {
    match q
    case Went(m) => e == NoErr && n == m
    case Stopped(x, k, own) =>
      && x != NoErr && (own && x == UnknownUnionTag ==> k > 0)
      && (own || g.mode.Safe? ==> e == x && n == k)
      && (!own && g.mode.Fast? ==> e == Unchecked || (x == UnknownUnionTag && n > k))
  }

  /** Of what comes after `k` bytes. */
  lemma FollowsAfter(g: RawGen, k: nat, q: Stop, e: Err, n: nat)
    requires Follows(g, q, e, n)
    ensures Follows(g, After(k, q), e, k + n)
  {}

  /** Going on after a decode without an error. */
  lemma FollowsThen(g: RawGen, q: Stop, e: Err, n: nat, t: Stop, e': Err, n': nat)
    requires Follows(g, q, e, n) && (q.Went? ==> Follows(g, t, e', n'))
    ensures if e == NoErr then Follows(g, Then(q, t), e', n + n') else Follows(g, Then(q, t), e, n)
  {}

  lemma NothingFollows(g: RawGen)
    ensures Follows(g, Went(0), NoErr, 0)
  {}

  lemma WentFollows(g: RawGen, q: Stop, e: Err, n: nat)
    requires Follows(g, q, e, n)
    ensures q.Went? ==> e == NoErr && n == q.n
  {}

  lemma {:induction false} ScanFollows(g: Gen, ty: Ty, d: Val, b: Bytes)
    ensures var r := DecInto(g, ty, d, b); Follows(g, Scan(g, ty, b), r.e, r.n)
    decreases |b|, TyRank(g, ty), ty, 1
  {
    hide ScanSlice, ScanArray, ScanPtr, ScanMap, ScanStruct, ScanUnion;
    hide DecSliceInto, DecArrayInto, DecPtrInto, DecMapInto, DecStructInto, DecUnionInto;
    match ty
    case TSlice(e, _) => SliceFollows(g, e, d, b);
    case TArray(m, e, _) => ArrayFollows(g, m, e, d, b);
    case TPtr(e, _) => PtrFollows(g, e, d, b);
    case TMap(kt, vt, _) => MapFollows(g, kt, vt, d, b);
    case TStruct(n) => StructFollows(g, n, d, b);
    case TUnion(ms) => UnionFollows(g, ms, d, b);
    case _ =>
  }

  lemma {:induction false} SliceFollows(g: Gen, e: Ty, d: Val, b: Bytes)
    ensures var r := DecSliceInto(g, e, d, b); Follows(g, ScanSlice(g, e, b), r.e, r.n)
    decreases |b|, 0, e, 0
  {
    hide ScanElems, DecElemsInto, Grow, LoadSeq, AppendAll, Uvarint;
    var (nn, cc) := Uvarint(b);
    if cc > 0 && nn > 0 {
      var ds := Grow(d, nn, Zero(g, e)).elems;
      ElemsFollow(g, e, ds, b[cc..]);
      var r := DecElemsInto(g, e, ds, b[cc..]);
      FollowsAfter(g, cc, ScanElems(g, e, nn, b[cc..]), r.e, r.n);
    }
  }

  lemma {:induction false} ArrayFollows(g: Gen, m: nat, e: Ty, d: Val, b: Bytes)
    ensures var r := DecArrayInto(g, m, e, d, b); Follows(g, ScanArray(g, m, e, b), r.e, r.n)
    decreases |b|, TyRank(g, e), e, m + 9
  {
    hide ScanElems, DecElemsInto, ArrElems, LoadSeq;
    if !IsByte(e) { ElemsFollow(g, e, ArrElems(d, m, Zero(g, e)), b); }
  }

  lemma {:induction false} PtrFollows(g: Gen, e: Ty, d: Val, b: Bytes)
    ensures var r := DecPtrInto(g, e, d, b); Follows(g, ScanPtr(g, e, b), r.e, r.n)
    decreases |b|, 0, e, 0
  {
    hide Scan, DecInto;
    if |b| > 0 && b[0] != 0 { ScanFollows(g, e, Pointee(d, Zero(g, e)), b[1..]); }
  }

  lemma {:induction false} MapFollows(g: Gen, kt: Ty, vt: Ty, d: Val, b: Bytes)
    ensures var r := DecMapInto(g, kt, vt, d, b); Follows(g, ScanMap(g, kt, vt, b), r.e, r.n)
    decreases |b|, 0, kt, 0
  {
    hide ScanEntries, DecEntriesInto, Uvarint;
    var (nn, cc) := Uvarint(b);
    if cc > 0 && nn > 0 { EntriesFollow(g, kt, vt, nn, [], b[cc..]); }
  }

  lemma {:induction false} UnionFollows(g: Gen, ms: seq<Name>, d: Val, b: Bytes)
    ensures var r := DecUnionInto(g, ms, d, b); Follows(g, ScanUnion(g, ms, b), r.e, r.n)
    decreases |b|, 0, TUnion(ms), 0
  {
    hide ScanStruct, DecStructInto, Uvarint, Zero;
    var (nn, cc) := Uvarint(b);
    if cc > 0 && 0 < nn <= |ms| {
      var m := ms[nn - 1];
      StructFollows(g, m, Member(d, nn - 1, Zero(g, TStruct(m))), b[cc..]);
    }
  }

  lemma {:induction false} StructFollows(g: Gen, n: Name, d: Val, b: Bytes)
    ensures var r := DecStructInto(g, n, d, b); Follows(g, ScanStruct(g, n, b), r.e, r.n)
    decreases |b|, RankOf(g, n) + 1, TStruct(n), 0
  {
    hide ScanFields, DecFieldsInto, LoadFields, FieldVals;
    StructWf(g, n);
    if !Blittable(g, n) { FieldsFollow(g, FieldsOf(g, n), FieldVals(g, d, n), b); }
  }

  lemma {:induction false} ElemsFollow(g: Gen, e: Ty, ds: seq<Val>, b: Bytes)
    ensures var r := DecElemsInto(g, e, ds, b); Follows(g, ScanElems(g, e, |ds|, b), r.e, r.n)
    decreases |b|, TyRank(g, e), e, |ds| + 3
  {
    hide ScanN, DecNInto, LoadSeq;
    if !RawElems(g, e) { NFollows(g, e, ds, b); }
  }

  lemma {:induction false} NFollows(g: Gen, e: Ty, ds: seq<Val>, b: Bytes)
    ensures var r := DecNInto(g, e, ds, b); Follows(g, ScanN(g, e, |ds|, b), r.e, r.n)
    decreases |b|, TyRank(g, e), e, |ds| + 2
  {
    hide Scan, ScanN, DecInto, DecNInto, Follows;
    ScanNStep(g, e, |ds|, b);
    if ds == [] {
      NIntoNil(g, e, b);
      NothingFollows(g);
    } else {
      NIntoStep(g, e, ds, b);
      ScanFollows(g, e, ds[0], b);
      var q, r := Scan(g, e, b), DecInto(g, e, ds[0], b);
      WentFollows(g, q, r.e, r.n);
      var t := DecNInto(g, e, ds[1..], b[r.n..]);
      if q.Went? { NFollows(g, e, ds[1..], b[r.n..]); }
      FollowsThen(g, q, r.e, r.n, ScanN(g, e, |ds| - 1, b[q.n..]), t.e, t.n);
    }
  }

  lemma {:induction false} FieldsFollow(g: Gen, tys: seq<Ty>, ds: seq<Val>, b: Bytes)
    requires |tys| == |ds|
    ensures var r := DecFieldsInto(g, tys, ds, b); Follows(g, ScanFields(g, tys, b), r.e, r.n)
    decreases |b|, FieldsRank(g, tys), tys, 1
  {
    hide Scan, ScanFields, DecInto, DecFieldsInto, Follows;
    ScanFieldsStep(g, tys, b);
    if tys == [] {
      FieldsIntoNil(g, b);
      NothingFollows(g);
    } else {
      FieldsIntoStep(g, tys, ds, b);
      ScanFollows(g, tys[0], ds[0], b);
      var q, r := Scan(g, tys[0], b), DecInto(g, tys[0], ds[0], b);
      WentFollows(g, q, r.e, r.n);
      var t := DecFieldsInto(g, tys[1..], ds[1..], b[r.n..]);
      if q.Went? { FieldsFollow(g, tys[1..], ds[1..], b[r.n..]); }
      FollowsThen(g, q, r.e, r.n, ScanFields(g, tys[1..], b[q.n..]), t.e, t.n);
    }
  }

  lemma {:induction false} PairFollows(g: Gen, kt: Ty, vt: Ty, b: Bytes)
    ensures var r := DecPairInto(g, kt, vt, b); Follows(g, ScanPair(g, kt, vt, b), r.e, r.n)
    decreases |b|, PairRank(g, kt, vt), TMap(kt, vt), 1
  {
    hide Scan, DecInto, Zero, Follows;
    ScanFollows(g, kt, Zero(g, kt), b);
    var q, k := Scan(g, kt, b), DecInto(g, kt, Zero(g, kt), b);
    WentFollows(g, q, k.e, k.n);
    var v := DecInto(g, vt, Zero(g, vt), b[k.n..]);
    if q.Went? { ScanFollows(g, vt, Zero(g, vt), b[k.n..]); }
    FollowsThen(g, q, k.e, k.n, Scan(g, vt, b[q.n..]), v.e, v.n);
  }

  lemma {:induction false} EntriesFollow(g: Gen, kt: Ty, vt: Ty, m: nat, acc: seq<Entry>, b: Bytes)
    ensures var r := DecEntriesInto(g, kt, vt, m, acc, b); Follows(g, ScanEntries(g, kt, vt, m, b), r.e, r.n)
    decreases |b|, PairRank(g, kt, vt), TMap(kt, vt), m + 1
  {
    hide ScanPair, ScanEntries, DecPairInto, DecEntriesInto, MapSet, Follows;
    ScanEntriesStep(g, kt, vt, m, b);
    if m == 0 {
      EntriesIntoNil(g, kt, vt, acc, b);
      NothingFollows(g);
    } else {
      EntriesIntoStep(g, kt, vt, m, acc, b);
      PairFollows(g, kt, vt, b);
      var q, p := ScanPair(g, kt, vt, b), DecPairInto(g, kt, vt, b);
      WentFollows(g, q, p.e, p.n);
      var acc' := MapSet(acc, p.v.k, p.v.v);
      var t := DecEntriesInto(g, kt, vt, m - 1, acc', b[p.n..]);
      if q.Went? { EntriesFollow(g, kt, vt, m - 1, acc', b[p.n..]); }
      FollowsThen(g, q, p.e, p.n, ScanEntries(g, kt, vt, m - 1, b[q.n..]), t.e, t.n);
    }
  }

  /** In safe mode strict decoding is the reference decoder's. */
  lemma StrictIsSafe(g: Gen, ty: Ty, b: Bytes)
    requires g.mode.Safe? && WfTy(ty)
    ensures match Dec(g, ty, b)
            case Ok(_, n) => Scan(g, ty, b) == Went(n)
            case Fail(e, n) => var q := Scan(g, ty, b); q.Stopped? && q.e == e && q.n == n
  {
    hide Dec, DecInto, Scan, WfTy;
    ScanFollows(g, ty, Zero(g, ty), b);
    ReuseIndependent(g, {}, ty, Zero(g, ty), b);
  }

  // ---------------------------------------------------------------------
  // Two destinations
  // ---------------------------------------------------------------------

  /** The same offset and error, and the same serialized content unless an error was met. */
  ghost predicate Same(q: Stop, r: Out<Val>, r': Out<Val>) {
    && r.n == r'.n && r.e == r'.e
    && (q.Went? ==> r.e == NoErr && r.n == q.n && View(r.v) == View(r'.v))
  }

  ghost predicate SameSeq(q: Stop, r: Out<seq<Val>>, r': Out<seq<Val>>) {
    && r.n == r'.n && r.e == r'.e
    && (q.Went? ==> r.e == NoErr && r.n == q.n && CleanSeq(r.v, false) == CleanSeq(r'.v, false))
  }

  /** What two destinations held does not show in the offset or the error, in either mode
      and on any input, nor in the content that was read without an error. */
  lemma {:induction false} DestinationsAgree(g: Gen, ty: Ty, d: Val, d': Val, b: Bytes)
    ensures Same(Scan(g, ty, b), DecInto(g, ty, d, b), DecInto(g, ty, d', b))
    decreases |b|, TyRank(g, ty), ty, 1
  {
    hide ScanSlice, ScanArray, ScanPtr, ScanMap, ScanStruct, ScanUnion;
    hide DecSliceInto, DecArrayInto, DecPtrInto, DecMapInto, DecStructInto, DecUnionInto;
    match ty
    case TSlice(e, _) => SlicesAgree(g, e, d, d', b);
    case TArray(m, e, _) => ArraysAgree(g, m, e, d, d', b);
    case TPtr(e, _) => PtrsAgree(g, e, d, d', b);
    case TMap(kt, vt, _) => MapsAgree(g, kt, vt, d, d', b);
    case TStruct(n) => StructsAgree(g, n, d, d', b);
    case TUnion(ms) => UnionsAgree(g, ms, d, d', b);
    case _ =>
  }

  lemma {:induction false} SlicesAgree(g: Gen, e: Ty, d: Val, d': Val, b: Bytes)
    ensures Same(ScanSlice(g, e, b), DecSliceInto(g, e, d, b), DecSliceInto(g, e, d', b))
    decreases |b|, 0, e, 0
  {
    hide ScanSlice, DecSliceInto, ScanElems, DecElemsInto, Grow, Uvarint, Same, SameSeq;
    var (nn, cc) := Uvarint(b);
    if cc > 0 && nn > 0 {
      BlocksAgree(g, e, Grow(d, nn, Zero(g, e)).elems, Grow(d', nn, Zero(g, e)).elems, b[cc..]);
    }
    SlicesSame(g, e, d, d', b);
  }

  lemma SlicesSame(g: Gen, e: Ty, d: Val, d': Val, b: Bytes)
    requires var (nn, cc) := Uvarint(b);
             cc > 0 && nn > 0 ==>
               var z := Zero(g, e);
               SameSeq(ScanElems(g, e, nn, b[cc..]), DecElemsInto(g, e, Grow(d, nn, z).elems, b[cc..]),
                       DecElemsInto(g, e, Grow(d', nn, z).elems, b[cc..]))
    ensures Same(ScanSlice(g, e, b), DecSliceInto(g, e, d, b), DecSliceInto(g, e, d', b))
  {
    hide ScanElems, DecElemsInto, Grow, AppendAll, ByteVals, CleanSeq, Zero, Uvarint;
  }

  lemma {:induction false} ArraysAgree(g: Gen, m: nat, e: Ty, d: Val, d': Val, b: Bytes)
    ensures Same(ScanArray(g, m, e, b), DecArrayInto(g, m, e, d, b), DecArrayInto(g, m, e, d', b))
    decreases |b|, TyRank(g, e), e, m + 9
  {
    hide ScanElems, DecElemsInto, ArrElems, LoadSeq;
    if !IsByte(e) { BlocksAgree(g, e, ArrElems(d, m, Zero(g, e)), ArrElems(d', m, Zero(g, e)), b); }
  }

  lemma {:induction false} PtrsAgree(g: Gen, e: Ty, d: Val, d': Val, b: Bytes)
    ensures Same(ScanPtr(g, e, b), DecPtrInto(g, e, d, b), DecPtrInto(g, e, d', b))
    decreases |b|, 0, e, 0
  {
    hide Scan, ScanPtr, DecInto, DecPtrInto, Same;
    if |b| > 0 && b[0] != 0 { DestinationsAgree(g, e, Pointee(d, Zero(g, e)), Pointee(d', Zero(g, e)), b[1..]); }
    PtrsSame(g, e, d, d', b);
  }

  lemma PtrsSame(g: Gen, e: Ty, d: Val, d': Val, b: Bytes)
    requires |b| > 0 && b[0] != 0 ==>
               var z := Zero(g, e); Same(Scan(g, e, b[1..]), DecInto(g, e, Pointee(d, z), b[1..]), DecInto(g, e, Pointee(d', z), b[1..]))
    ensures Same(ScanPtr(g, e, b), DecPtrInto(g, e, d, b), DecPtrInto(g, e, d', b))
  {
    hide Scan, DecInto, Pointee, Zero;
  }

  /** Keys and values go into fresh variables. */
  lemma MapsAgree(g: Gen, kt: Ty, vt: Ty, d: Val, d': Val, b: Bytes)
    ensures Same(ScanMap(g, kt, vt, b), DecMapInto(g, kt, vt, d, b), DecMapInto(g, kt, vt, d', b))
    decreases |b|, 0, kt, 0
  {
    hide ScanMap, DecEntriesInto, Uvarint;
    MapFollows(g, kt, vt, d, b);
    MapFollows(g, kt, vt, d', b);
  }

  lemma {:induction false} UnionsAgree(g: Gen, ms: seq<Name>, d: Val, d': Val, b: Bytes)
    ensures Same(ScanUnion(g, ms, b), DecUnionInto(g, ms, d, b), DecUnionInto(g, ms, d', b))
    decreases |b|, 0, TUnion(ms), 0
  {
    hide ScanUnion, DecUnionInto, ScanStruct, DecStructInto, Uvarint, Zero, Same;
    var (nn, cc) := Uvarint(b);
    if cc > 0 && 0 < nn <= |ms| {
      var z := Zero(g, TStruct(ms[nn - 1]));
      StructsAgree(g, ms[nn - 1], Member(d, nn - 1, z), Member(d', nn - 1, z), b[cc..]);
    }
    UnionsSame(g, ms, d, d', b);
  }

  lemma UnionsSame(g: Gen, ms: seq<Name>, d: Val, d': Val, b: Bytes)
    requires var (nn, cc) := Uvarint(b);
             cc > 0 && 0 < nn <= |ms| ==>
               var m, z := ms[nn - 1], Zero(g, TStruct(ms[nn - 1]));
               Same(ScanStruct(g, m, b[cc..]), DecStructInto(g, m, Member(d, nn - 1, z), b[cc..]),
                    DecStructInto(g, m, Member(d', nn - 1, z), b[cc..]))
    ensures Same(ScanUnion(g, ms, b), DecUnionInto(g, ms, d, b), DecUnionInto(g, ms, d', b))
  {
    hide ScanStruct, DecStructInto, Uvarint, Zero, Member;
  }

  lemma {:induction false} StructsAgree(g: Gen, n: Name, d: Val, d': Val, b: Bytes)
    ensures Same(ScanStruct(g, n, b), DecStructInto(g, n, d, b), DecStructInto(g, n, d', b))
    decreases |b|, RankOf(g, n) + 1, TStruct(n), 0
  {
    hide ScanStruct, DecStructInto, ScanFields, DecFieldsInto, FieldVals, Same, SameSeq;
    StructWf(g, n);
    if !Blittable(g, n) { FieldListsAgree(g, FieldsOf(g, n), FieldVals(g, d, n), FieldVals(g, d', n), b); }
    StructsSame(g, n, d, d', b);
  }

  lemma StructsSame(g: Gen, n: Name, d: Val, d': Val, b: Bytes)
    requires !Blittable(g, n) ==>
               var tys := FieldsOf(g, n);
               SameSeq(ScanFields(g, tys, b), DecFieldsInto(g, tys, FieldVals(g, d, n), b), DecFieldsInto(g, tys, FieldVals(g, d', n), b))
    ensures Same(ScanStruct(g, n, b), DecStructInto(g, n, d, b), DecStructInto(g, n, d', b))
  {
    hide ScanFields, DecFieldsInto, LoadFields, FieldVals, CleanSeq;
  }

  lemma {:induction false} BlocksAgree(g: Gen, e: Ty, ds: seq<Val>, ds': seq<Val>, b: Bytes)
    requires |ds| == |ds'|
    ensures SameSeq(ScanElems(g, e, |ds|, b), DecElemsInto(g, e, ds, b), DecElemsInto(g, e, ds', b))
    decreases |b|, TyRank(g, e), e, |ds| + 3
  {
    hide ScanN, DecNInto, LoadSeq, CleanSeq;
    if !RawElems(g, e) { RowsAgree(g, e, ds, ds', b); }
  }

  lemma {:induction false} RowsAgree(g: Gen, e: Ty, ds: seq<Val>, ds': seq<Val>, b: Bytes)
    requires |ds| == |ds'|
    ensures SameSeq(ScanN(g, e, |ds|, b), DecNInto(g, e, ds, b), DecNInto(g, e, ds', b))
    decreases |b|, TyRank(g, e), e, |ds| + 2
  {
    hide Scan, ScanN, DecInto, DecNInto, Clean;
    ScanNStep(g, e, |ds|, b);
    if ds == [] {
      NIntoNil(g, e, b);
    } else {
      NIntoStep(g, e, ds, b);
      NIntoStep(g, e, ds', b);
      DestinationsAgree(g, e, ds[0], ds'[0], b);
      var r := DecInto(g, e, ds[0], b);
      if r.e == NoErr { RowsAgree(g, e, ds[1..], ds'[1..], b[r.n..]); }
    }
  }

  lemma {:induction false} FieldListsAgree(g: Gen, tys: seq<Ty>, ds: seq<Val>, ds': seq<Val>, b: Bytes)
    requires |tys| == |ds| == |ds'|
    ensures SameSeq(ScanFields(g, tys, b), DecFieldsInto(g, tys, ds, b), DecFieldsInto(g, tys, ds', b))
    decreases |b|, FieldsRank(g, tys), tys, 1
  {
    hide Scan, ScanFields, DecInto, DecFieldsInto, Clean;
    ScanFieldsStep(g, tys, b);
    if tys == [] {
      FieldsIntoNil(g, b);
    } else {
      FieldsIntoStep(g, tys, ds, b);
      FieldsIntoStep(g, tys, ds', b);
      DestinationsAgree(g, tys[0], ds[0], ds'[0], b);
      var r := DecInto(g, tys[0], ds[0], b);
      if r.e == NoErr { FieldListsAgree(g, tys[1..], ds[1..], ds'[1..], b[r.n..]); }
    }
  }
}
