/** What the safe decoder decides does not change when bytes are added, and what
    it returns is well typed. */
module Stability {
  import opened Bytes
  import opened Varint
  import opened Schema
  import opened Codec

  /** Success, or an unknown tag: the outcomes more input cannot change. */
  predicate Settled<T>(r: Result<T>) { r.Ok? || r.e == UnknownUnionTag }

  /** A settled decode of `b` is the decode of `b` followed by anything, with the
      same value or error and the same offset. */
  lemma {:induction false} DecExtends(g: Gen, ty: Ty, b: Bytes, s: Bytes)
    requires Settled(Dec(g, ty, b))
    ensures Dec(g, ty, b + s) == Dec(g, ty, b)
    decreases |b|, TyRank(g, ty), ty, 1
  {
    hide DecSlice, DecArray, DecPtr, DecMap, DecStruct, DecUnion;
    match ty
    case TScalar(k, _) => assert (b + s)[..Width(k)] == b[..Width(k)];
    case TStr(_) =>
      var (nn, cc) := Uvarint(b);
      UvarintExtends(b, s);
      assert (b + s)[cc..cc + nn] == b[cc..cc + nn];
    case TSlice(e, _) => DecSliceExtends(g, e, b, s);
    case TArray(m, e, _) => DecArrayExtends(g, m, e, b, s);
    case TPtr(e, _) => DecPtrExtends(g, e, b, s);
    case TMap(kt, vt, _) => DecMapExtends(g, kt, vt, b, s);
    case TStruct(n) => DecStructExtends(g, n, b, s);
    case TUnion(ms) => DecUnionExtends(g, ms, b, s);
    case TSkip =>
  }

  lemma {:induction false} DecSliceExtends(g: Gen, e: Ty, b: Bytes, s: Bytes)
    requires Settled(DecSlice(g, e, b))
    ensures DecSlice(g, e, b + s) == DecSlice(g, e, b)
    decreases |b|, 0, e, 0
  {
    hide DecN, Uvarint;
    var (nn, cc) := Uvarint(b);
    UvarintExtends(b, s);
    if nn > 0 { DropExtended(b, s, cc); DecNExtends(g, e, nn, b[cc..], s); }
  }

  lemma {:induction false} DecArrayExtends(g: Gen, m: nat, e: Ty, b: Bytes, s: Bytes)
    requires Settled(DecArray(g, m, e, b))
    ensures DecArray(g, m, e, b + s) == DecArray(g, m, e, b)
    decreases |b|, TyRank(g, e), e, m + 9
  {
    hide DecN;
    DecNExtends(g, e, m, b, s);
  }

  lemma {:induction false} DecPtrExtends(g: Gen, e: Ty, b: Bytes, s: Bytes)
    requires Settled(DecPtr(g, e, b))
    ensures DecPtr(g, e, b + s) == DecPtr(g, e, b)
    decreases |b|, 0, e, 0
  {
    hide Dec;
    if b[0] != 0 { DropExtended(b, s, 1); DecExtends(g, e, b[1..], s); }
  }

  lemma {:induction false} DecMapExtends(g: Gen, kt: Ty, vt: Ty, b: Bytes, s: Bytes)
    requires Settled(DecMap(g, kt, vt, b))
    ensures DecMap(g, kt, vt, b + s) == DecMap(g, kt, vt, b)
    decreases |b|, 0, kt, 0
  {
    hide DecEntries, Uvarint, Sound;
    var (nn, cc) := Uvarint(b);
    UvarintExtends(b, s);
    if nn > 0 {
      DropExtended(b, s, cc);
      DecEntriesExtends(g, kt, vt, nn, [], b[cc..], s);
      assert DecEntries(g, kt, vt, nn, [], (b + s)[cc..]) == DecEntries(g, kt, vt, nn, [], b[cc..]);
    }
  }

  lemma {:induction false} DecUnionExtends(g: Gen, ms: seq<Name>, b: Bytes, s: Bytes)
    requires Settled(DecUnion(g, ms, b))
    ensures DecUnion(g, ms, b + s) == DecUnion(g, ms, b)
    decreases |b|, 0, TUnion(ms), 0
  {
    hide DecStruct, Uvarint;
    var (nn, cc) := Uvarint(b);
    UvarintExtends(b, s);
    if 0 < nn <= |ms| { DropExtended(b, s, cc); DecStructExtends(g, ms[nn - 1], b[cc..], s); }
  }

  lemma {:induction false} DecStructExtends(g: Gen, n: Name, b: Bytes, s: Bytes)
    requires Settled(DecStruct(g, n, b))
    ensures DecStruct(g, n, b + s) == DecStruct(g, n, b)
    decreases |b|, RankOf(g, n) + 1, TStruct(n), 0
  {
    hide DecFields;
    StructWf(g, n);
    DecFieldsExtends(g, FieldsOf(g, n), b, s);
  }

  lemma {:induction false} DecNExtends(g: Gen, e: Ty, m: nat, b: Bytes, s: Bytes)
    requires Settled(DecN(g, e, m, b))
    ensures DecN(g, e, m, b + s) == DecN(g, e, m, b)
    decreases |b|, TyRank(g, e), e, m + 2
  {
    hide Dec;
    if m > 0 {
      var r := Dec(g, e, b);
      DecExtends(g, e, b, s);
      if r.Ok? {
        DropExtended(b, s, r.n);
        DecNExtends(g, e, m - 1, b[r.n..], s);
        assert DecN(g, e, m - 1, (b + s)[r.n..]) == DecN(g, e, m - 1, b[r.n..]);
      }
    }
  }

  lemma {:induction false} DecFieldsExtends(g: Gen, tys: seq<Ty>, b: Bytes, s: Bytes)
    requires Settled(DecFields(g, tys, b))
    ensures DecFields(g, tys, b + s) == DecFields(g, tys, b)
    decreases |b|, FieldsRank(g, tys), tys, 0
  {
    hide Dec;
    if tys != [] {
      var r := Dec(g, tys[0], b);
      DecExtends(g, tys[0], b, s);
      if r.Ok? {
        DropExtended(b, s, r.n);
        DecFieldsExtends(g, tys[1..], b[r.n..], s);
        assert DecFields(g, tys[1..], (b + s)[r.n..]) == DecFields(g, tys[1..], b[r.n..]);
      }
    }
  }

  lemma DecPairStep(g: Gen, kt: Ty, vt: Ty, b: Bytes)
    ensures var k := Dec(g, kt, b);
            DecPair(g, kt, vt, b) ==
              if k.Fail? then Fail(k.e, k.n)
              else
                var v := Dec(g, vt, b[k.n..]);
                if v.Fail? then Fail(v.e, k.n + v.n) else Ok(Entry(k.v, v.v), k.n + v.n)
  {
    hide Dec;
  }

  lemma {:induction false} DecPairExtends(g: Gen, kt: Ty, vt: Ty, b: Bytes, s: Bytes)
    requires Settled(DecPair(g, kt, vt, b))
    ensures DecPair(g, kt, vt, b + s) == DecPair(g, kt, vt, b)
    decreases |b|, PairRank(g, kt, vt), TMap(kt, vt), 0
  {
    hide Dec, DecPair;
    DecPairStep(g, kt, vt, b);
    DecPairStep(g, kt, vt, b + s);
    var k := Dec(g, kt, b);
    DecExtends(g, kt, b, s);
    if k.Ok? {
      DropExtended(b, s, k.n);
      DecExtends(g, vt, b[k.n..], s);
    }
  }

  lemma {:induction false} DecEntriesExtends(g: Gen, kt: Ty, vt: Ty, m: nat, acc: seq<Entry>, b: Bytes, s: Bytes)
    requires Settled(DecEntries(g, kt, vt, m, acc, b))
    ensures DecEntries(g, kt, vt, m, acc, b + s) == DecEntries(g, kt, vt, m, acc, b)
    decreases |b|, PairRank(g, kt, vt), TMap(kt, vt), m
  {
    hide DecEntries, DecPair, MapSet;
    DecEntriesNil(g, kt, vt, acc, b);
    DecEntriesNil(g, kt, vt, acc, b + s);
    if m > 0 {
      var r := DecPair(g, kt, vt, b);
      DecEntriesStep(g, kt, vt, m, acc, b);
      DecEntriesStep(g, kt, vt, m, acc, b + s);
      DecPairExtends(g, kt, vt, b, s);
      if r.Ok? {
        DropExtended(b, s, r.n);
        DecEntriesExtends(g, kt, vt, m - 1, MapSet(acc, r.v.k, r.v.v), b[r.n..], s);
      }
    }
  }

  lemma DecEntriesNil(g: Gen, kt: Ty, vt: Ty, acc: seq<Entry>, b: Bytes)
    ensures DecEntries(g, kt, vt, 0, acc, b) == Ok(acc, 0)
  {}

  lemma DecEntriesStep(g: Gen, kt: Ty, vt: Ty, m: nat, acc: seq<Entry>, b: Bytes)
    requires m > 0
    ensures var p := DecPair(g, kt, vt, b);
            DecEntries(g, kt, vt, m, acc, b) ==
              if p.Fail? then Fail(p.e, p.n)
              else
                var t := DecEntries(g, kt, vt, m - 1, MapSet(acc, p.v.k, p.v.v), b[p.n..]);
                if t.Ok? then Ok(t.v, p.n + t.n) else Fail(t.e, p.n + t.n)
  {
    hide DecPair, MapSet;
  }

  /** A decoded value has its type and is already in normal form. */
  lemma {:induction false} DecTyped(g: Gen, ty: Ty, b: Bytes)
    requires WfTy(ty) && |b| <= MAX_LEN
    requires Dec(g, ty, b).Ok?
    ensures HasTy(g, ty, Dec(g, ty, b).v)
    ensures Norm(Dec(g, ty, b).v) == Dec(g, ty, b).v
    decreases |b|, TyRank(g, ty), ty, 1
  {
    hide DecSlice, DecArray, DecPtr, DecMap, DecStruct, DecUnion;
    match ty
    case TScalar(k, _) => ScalarInRange(k, b[..Width(k)]);
    case TStr(_) =>
    case TSlice(e, _) => DecSliceTyped(g, e, b);
    case TArray(m, e, _) => DecArrayTyped(g, m, e, b);
    case TPtr(e, _) => DecPtrTyped(g, e, b);
    case TMap(kt, vt, _) => DecMapTyped(g, kt, vt, b);
    case TStruct(n) => DecStructTyped(g, n, b);
    case TUnion(ms) => DecUnionTyped(g, ms, b);
    case TSkip =>
  }

  lemma {:induction false} DecSliceTyped(g: Gen, e: Ty, b: Bytes)
    requires WfTy(e) && |b| <= MAX_LEN
    requires DecSlice(g, e, b).Ok?
    ensures HasTy(g, TSlice(e), DecSlice(g, e, b).v)
    ensures Norm(DecSlice(g, e, b).v) == DecSlice(g, e, b).v
    decreases |b|, 0, e, 0
  {
    hide DecN, Uvarint;
    var (nn, cc) := Uvarint(b);
    if nn > 0 {
      DecNTyped(g, e, nn, b[cc..]);
      var vs := DecN(g, e, nn, b[cc..]).v;
      assert CleanSeq(vs, true) == vs;
    }
  }

  lemma {:induction false} DecArrayTyped(g: Gen, m: nat, e: Ty, b: Bytes)
    requires WfTy(e) && |b| <= MAX_LEN
    requires DecArray(g, m, e, b).Ok?
    ensures HasTy(g, TArray(m, e), DecArray(g, m, e, b).v)
    ensures Norm(DecArray(g, m, e, b).v) == DecArray(g, m, e, b).v
    decreases |b|, TyRank(g, e), e, m + 9
  {
    hide DecN;
    DecNTyped(g, e, m, b);
    var vs := DecN(g, e, m, b).v;
    assert CleanSeq(vs, true) == vs;
  }

  lemma {:induction false} DecPtrTyped(g: Gen, e: Ty, b: Bytes)
    requires WfTy(e) && |b| <= MAX_LEN
    requires DecPtr(g, e, b).Ok?
    ensures HasTy(g, TPtr(e), DecPtr(g, e, b).v)
    ensures Norm(DecPtr(g, e, b).v) == DecPtr(g, e, b).v
    decreases |b|, 0, e, 0
  {
    hide Dec;
    if b[0] != 0 { DecTyped(g, e, b[1..]); }
  }

  lemma {:induction false} DecMapTyped(g: Gen, kt: Ty, vt: Ty, b: Bytes)
    requires WfTy(TMap(kt, vt)) && |b| <= MAX_LEN
    requires DecMap(g, kt, vt, b).Ok?
    ensures HasTy(g, TMap(kt, vt), DecMap(g, kt, vt, b).v)
    ensures Norm(DecMap(g, kt, vt, b).v) == DecMap(g, kt, vt, b).v
    decreases |b|, 0, kt, 0
  {
    hide DecEntries, Uvarint;
    var (nn, cc) := Uvarint(b);
    if nn > 0 {
      DecEntriesTyped(g, kt, vt, nn, [], b[cc..]);
      var es := DecEntries(g, kt, vt, nn, [], b[cc..]).v;
    }
  }

  lemma {:induction false} DecUnionTyped(g: Gen, ms: seq<Name>, b: Bytes)
    requires |b| <= MAX_LEN
    requires DecUnion(g, ms, b).Ok?
    ensures HasTy(g, TUnion(ms), DecUnion(g, ms, b).v)
    ensures Norm(DecUnion(g, ms, b).v) == DecUnion(g, ms, b).v
    decreases |b|, 0, TUnion(ms), 0
  {
    hide DecStruct, Uvarint, HasTy, Clean;
    assert HasTy(g, TUnion(ms), VNil) && Norm(VNil) == VNil by { NilTyped(g, ms); }
    var (nn, cc) := Uvarint(b);
    if nn > 0 {
      DecStructTyped(g, ms[nn - 1], b[cc..]);
      MemberTyped(g, ms, nn - 1, DecStruct(g, ms[nn - 1], b[cc..]).v);
    }
  }

  lemma NilTyped(g: Gen, ms: seq<Name>)
    ensures HasTy(g, TUnion(ms), VNil) && Norm(VNil) == VNil
  {}

  lemma MemberTyped(g: Gen, ms: seq<Name>, t: nat, v: Val)
    requires t < |ms| && HasTy(g, TStruct(ms[t]), v) && Norm(v) == v
    ensures HasTy(g, TUnion(ms), VMem(t, v)) && Norm(VMem(t, v)) == VMem(t, v)
  {}

  lemma {:induction false} DecStructTyped(g: Gen, n: Name, b: Bytes)
    requires |b| <= MAX_LEN
    requires DecStruct(g, n, b).Ok?
    ensures HasTy(g, TStruct(n), DecStruct(g, n, b).v)
    ensures Norm(DecStruct(g, n, b).v) == DecStruct(g, n, b).v
    decreases |b|, RankOf(g, n) + 1, TStruct(n), 0
  {
    hide DecFields;
    StructWf(g, n);
    DecFieldsTyped(g, FieldsOf(g, n), b);
    var vs := DecFields(g, FieldsOf(g, n), b).v;
    assert CleanSeq(vs, true) == vs;
  }

  ghost predicate AllNormal(vs: seq<Val>) {
    forall i :: 0 <= i < |vs| ==> Norm(vs[i]) == vs[i]
  }

  lemma {:induction false} DecNTyped(g: Gen, e: Ty, m: nat, b: Bytes)
    requires WfTy(e) && |b| <= MAX_LEN
    requires DecN(g, e, m, b).Ok?
    ensures AllHaveTy(g, e, DecN(g, e, m, b).v) && AllNormal(DecN(g, e, m, b).v)
    decreases |b|, TyRank(g, e), e, m + 2
  {
    hide Dec;
    if m > 0 {
      DecTyped(g, e, b);
      DecNTyped(g, e, m - 1, b[Dec(g, e, b).n..]);
    }
  }

  lemma {:induction false} DecFieldsTyped(g: Gen, tys: seq<Ty>, b: Bytes)
    requires WfFields(tys) && |b| <= MAX_LEN
    requires DecFields(g, tys, b).Ok?
    ensures FieldsHaveTy(g, tys, DecFields(g, tys, b).v) && AllNormal(DecFields(g, tys, b).v)
    decreases |b|, FieldsRank(g, tys), tys, 0
  {
    hide Dec;
    if tys != [] {
      DecTyped(g, tys[0], b);
      DecFieldsTyped(g, tys[1..], b[Dec(g, tys[0], b).n..]);
    }
  }

  ghost predicate NormalEntry(g: Gen, kt: Ty, vt: Ty, e: Entry) {
    EntryHasTy(g, kt, vt, e) && CleanEntry(e, true) == e
  }

  ghost predicate NormalEntries(g: Gen, kt: Ty, vt: Ty, es: seq<Entry>) {
    EntriesHaveTy(g, kt, vt, es) && CleanEntries(es, true) == es
  }

  lemma {:induction false} MapSetTyped(g: Gen, kt: Ty, vt: Ty, es: seq<Entry>, k: Val, v: Val)
    requires EntriesHaveTy(g, kt, vt, es) && EntryHasTy(g, kt, vt, Entry(k, v))
    ensures EntriesHaveTy(g, kt, vt, MapSet(es, k, v))
  {
    hide EntryHasTy;
    if es != [] && es[0].k != k {
      MapSetTyped(g, kt, vt, es[1..], k, v);
      assert MapSet(es, k, v)[1..] == MapSet(es[1..], k, v);
    } else {
      assert MapSet(es, k, v)[1..] == if es == [] then [] else es[1..];
    }
  }

  lemma {:induction false} MapSetClean(es: seq<Entry>, k: Val, v: Val)
    requires CleanEntries(es, true) == es && CleanEntry(Entry(k, v), true) == Entry(k, v)
    ensures CleanEntries(MapSet(es, k, v), true) == MapSet(es, k, v)
  {
    hide CleanEntry;
    if es != [] && es[0].k != k {
      assert CleanEntries(es, true)[1..] == CleanEntries(es[1..], true);
      MapSetClean(es[1..], k, v);
    }
  }

  lemma MapSetNormal(g: Gen, kt: Ty, vt: Ty, es: seq<Entry>, k: Val, v: Val)
    requires NormalEntries(g, kt, vt, es) && NormalEntry(g, kt, vt, Entry(k, v))
    ensures NormalEntries(g, kt, vt, MapSet(es, k, v))
  {
    MapSetTyped(g, kt, vt, es, k, v);
    MapSetClean(es, k, v);
  }

  lemma {:induction false} DecPairTyped(g: Gen, kt: Ty, vt: Ty, b: Bytes)
    requires KeyTy(kt) && WfTy(kt) && WfTy(vt) && |b| <= MAX_LEN
    requires DecPair(g, kt, vt, b).Ok?
    ensures NormalEntry(g, kt, vt, DecPair(g, kt, vt, b).v)
    decreases |b|, PairRank(g, kt, vt), TMap(kt, vt), 0
  {
    hide Dec;
    DecTyped(g, kt, b);
    DecTyped(g, vt, b[Dec(g, kt, b).n..]);
  }

  lemma {:induction false} DecEntriesTyped(g: Gen, kt: Ty, vt: Ty, m: nat, acc: seq<Entry>, b: Bytes)
    requires KeyTy(kt) && WfTy(kt) && WfTy(vt) && |b| <= MAX_LEN
    requires NormalEntries(g, kt, vt, acc) && DistinctKeys(acc)
    requires DecEntries(g, kt, vt, m, acc, b).Ok?
    ensures NormalEntries(g, kt, vt, DecEntries(g, kt, vt, m, acc, b).v)
    ensures DistinctKeys(DecEntries(g, kt, vt, m, acc, b).v)
    ensures |acc| <= |DecEntries(g, kt, vt, m, acc, b).v| <= |acc| + m
    ensures m > 0 ==> DecEntries(g, kt, vt, m, acc, b).v != []
    decreases |b|, PairRank(g, kt, vt), TMap(kt, vt), m
  {
    hide Dec, DecPair, MapSet, Uvarint;
    if m > 0 {
      DecPairTyped(g, kt, vt, b);
      var r := DecPair(g, kt, vt, b);
      MapSetNormal(g, kt, vt, acc, r.v.k, r.v.v);
      MapSetDistinct(acc, r.v.k, r.v.v);
      assert MapSet(acc, r.v.k, r.v.v) != [];
      DecEntriesTyped(g, kt, vt, m - 1, MapSet(acc, r.v.k, r.v.v), b[r.n..]);
    }
  }
}
