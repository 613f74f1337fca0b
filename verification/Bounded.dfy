/** How much a safe decode reads: an input cannot announce more than it carries. */
module Bounded {
  import opened Bytes
  import opened Varint
  import opened Schema
  import opened Codec
  import opened Guarantees

  /** Slice elements and map entries read, at every depth, while decoding `ty` from `b`,
      up to the point where a failing decode stops. A fixed array adds nothing itself. */
  ghost function Reads(g: Gen, ty: Ty, b: Bytes): nat
    decreases |b|, TyRank(g, ty), ty, 1
  {
    match ty
    case TSlice(e, _) =>
      var (nn, cc) := Uvarint(b);
      if cc <= 0 || nn == 0 || |b| - cc < nn then 0 else ReadsN(g, e, 1, nn, b[cc..])
    case TArray(m, e, _) => if IsByte(e) && |b| < m then 0 else ReadsN(g, e, 0, m, b)
    case TPtr(e, _) => if |b| < 1 || b[0] == 0 then 0 else Reads(g, e, b[1..])
    case TMap(kt, vt, _) =>
      var (nn, cc) := Uvarint(b);
      if cc <= 0 || nn == 0 || |b| - cc < nn then 0 else ReadsEntries(g, kt, vt, nn, b[cc..])
    case TStruct(n) => ReadsFields(g, FieldsOf(g, n), b)
    case TUnion(ms) =>
      var (nn, cc) := Uvarint(b);
      if cc <= 0 || nn == 0 || nn > |ms| then 0 else ReadsFields(g, FieldsOf(g, ms[nn - 1]), b[cc..])
    case _ => 0
  }

  /** `m` values in a row, each counting `unit` itself. */
  ghost function ReadsN(g: Gen, e: Ty, unit: nat, m: nat, b: Bytes): nat
    decreases |b|, TyRank(g, e), e, m + 1
  {
    if m == 0 then 0 else
      match Dec(g, e, b)
      case Fail(_, _) => Reads(g, e, b)
      case Ok(_, n) => unit + Reads(g, e, b) + ReadsN(g, e, unit, m - 1, b[n..])
  }

  ghost function ReadsFields(g: Gen, tys: seq<Ty>, b: Bytes): nat
    decreases |b|, FieldsRank(g, tys), tys, 0
  {
    if tys == [] then 0 else
      match Dec(g, tys[0], b)
      case Fail(_, _) => Reads(g, tys[0], b)
      case Ok(_, n) => Reads(g, tys[0], b) + ReadsFields(g, tys[1..], b[n..])
  }

  ghost function ReadsPair(g: Gen, kt: Ty, vt: Ty, b: Bytes): nat
    decreases |b|, PairRank(g, kt, vt), TMap(kt, vt), 0
  {
    match Dec(g, kt, b)
    case Fail(_, _) => Reads(g, kt, b)
    case Ok(_, n) => Reads(g, kt, b) + Reads(g, vt, b[n..])
  }

  /** Entries, each counting one, a repeated key included. */
  ghost function ReadsEntries(g: Gen, kt: Ty, vt: Ty, m: nat, b: Bytes): nat
    decreases |b|, PairRank(g, kt, vt), TMap(kt, vt), m
  {
    if m == 0 then 0 else
      match DecPair(g, kt, vt, b)
      case Fail(_, _) => ReadsPair(g, kt, vt, b)
      case Ok(_, n) => 1 + ReadsPair(g, kt, vt, b) + ReadsEntries(g, kt, vt, m - 1, b[n..])
  }

  /** `count` elements are paid for: by the bytes a success consumed, with `spare` left
      over, or by the bytes there were. */
  ghost predicate Paid<T>(count: nat, spare: nat, r: Result<T>, b: Bytes) {
    match r
    case Ok(_, n) => count + spare <= n
    case Fail(_, _) => count <= |b|
  }

  function One(c: bool): nat { if c then 1 else 0 }

  /** Where every slice element and map entry takes at least one byte, a decode reads no
      more of them in the whole tree than it consumes bytes. */
  lemma {:induction false} ReadsAreBounded(g: Gen, ty: Ty, b: Bytes)
    requires WideRun(g) && Wide(g, ty)
    ensures Paid(Reads(g, ty, b), One(Occupies(g, ty)), Dec(g, ty, b), b)
    decreases |b|, TyRank(g, ty), ty, 1
  {
    hide DecN, DecEntries, DecFields, DecStruct, ReadsN, ReadsFields, ReadsEntries, Uvarint, SomeOccupies;
    match ty
    case TSlice(e, _) =>
      var (nn, cc) := Uvarint(b);
      if cc > 0 { NBounded(g, e, 1, nn, b[cc..]); }
    case TArray(m, e, _) => NBounded(g, e, 0, m, b);
    case TPtr(e, _) => if |b| > 0 { ReadsAreBounded(g, e, b[1..]); }
    case TMap(kt, vt, _) =>
      var (nn, cc) := Uvarint(b);
      if cc > 0 { EntriesBounded(g, kt, vt, nn, [], b[cc..]); }
    case TStruct(n) =>
      StructWf(g, n);
      FieldsWide(g, n);
      FieldsBounded(g, FieldsOf(g, n), b);
      StructPays(g, n, b);
    case TUnion(ms) =>
      var (nn, cc) := Uvarint(b);
      if cc > 0 && 0 < nn <= |ms| {
        FieldsWide(g, ms[nn - 1]);
        FieldsBounded(g, FieldsOf(g, ms[nn - 1]), b[cc..]);
        StructPays(g, ms[nn - 1], b[cc..]);
      }
    case _ =>
  }

  lemma StructPays(g: Gen, n: Name, b: Bytes)
    ensures var r, q := DecStruct(g, n, b), DecFields(g, FieldsOf(g, n), b);
            r.Ok? == q.Ok? && (r.Ok? ==> r.n == q.n)
  {
    hide DecFields;
  }

  ghost predicate AllWide(g: Gen, tys: seq<Ty>) {
    forall k :: 0 <= k < |tys| ==> Wide(g, tys[k])
  }

  lemma FieldsWide(g: Gen, n: Name)
    requires WideRun(g)
    ensures AllWide(g, FieldsOf(g, n))
  {}

  lemma {:induction false} NBounded(g: Gen, e: Ty, unit: nat, m: nat, b: Bytes)
    requires WideRun(g) && Wide(g, e) && unit <= One(Occupies(g, e))
    ensures Paid(ReadsN(g, e, unit, m, b), if unit == 0 then One(m > 0 && Occupies(g, e)) else 0, DecN(g, e, m, b), b)
    decreases |b|, TyRank(g, e), e, m + 1
  {
    hide Dec, Reads, WideRun, Wide, Occupies;
    if m > 0 {
      ReadsAreBounded(g, e, b);
      var r := Dec(g, e, b);
      if r.Ok? { NBounded(g, e, unit, m - 1, b[r.n..]); }
    }
  }

  lemma {:induction false} FieldsBounded(g: Gen, tys: seq<Ty>, b: Bytes)
    requires WideRun(g) && AllWide(g, tys)
    ensures Paid(ReadsFields(g, tys, b), One(SomeOccupies(g, tys)), DecFields(g, tys, b), b)
    decreases |b|, FieldsRank(g, tys), tys, 1
  {
    hide Dec, Reads, WideRun, Wide, Occupies;
    if tys != [] {
      ReadsAreBounded(g, tys[0], b);
      var r := Dec(g, tys[0], b);
      if r.Ok? { FieldsBounded(g, tys[1..], b[r.n..]); }
    }
  }

  lemma {:induction false} PairBounded(g: Gen, kt: Ty, vt: Ty, b: Bytes)
    requires WideRun(g) && Wide(g, TMap(kt, vt))
    ensures Paid(ReadsPair(g, kt, vt, b), 1, DecPair(g, kt, vt, b), b)
    decreases |b|, PairRank(g, kt, vt), TMap(kt, vt), 0
  {
    hide Dec, Reads, WideRun, Occupies;
    ReadsAreBounded(g, kt, b);
    var r := Dec(g, kt, b);
    if r.Ok? { ReadsAreBounded(g, vt, b[r.n..]); }
  }

  lemma {:induction false} EntriesBounded(g: Gen, kt: Ty, vt: Ty, m: nat, acc: seq<Entry>, b: Bytes)
    requires WideRun(g) && Wide(g, TMap(kt, vt))
    ensures Paid(ReadsEntries(g, kt, vt, m, b), 0, DecEntries(g, kt, vt, m, acc, b), b)
    decreases |b|, PairRank(g, kt, vt), TMap(kt, vt), m + 1
  {
    hide DecPair, ReadsPair, WideRun, Wide;
    if m > 0 {
      PairBounded(g, kt, vt, b);
      var r := DecPair(g, kt, vt, b);
      if r.Ok? { EntriesBounded(g, kt, vt, m - 1, MapSet(acc, r.v.k, r.v.v), b[r.n..]); }
    }
  }

  // ---------------------------------------------------------------------
  // What was read is what the value holds
  // ---------------------------------------------------------------------

  /** Slice elements and map entries in a value, at every depth. */
  function Held(v: Val): nat
    decreases v, 0
  {
    match v
    case VSlice(_, es, _) => |es| + HeldSeq(es)
    case VArr(es) => HeldSeq(es)
    case VRef(w) => Held(w)
    case VMem(_, w) => Held(w)
    case VMap(_, es) => |es| + HeldEntries(es)
    case VStruct(fs, _) => HeldSeq(fs)
    case _ => 0
  }

  function HeldSeq(vs: seq<Val>): nat
    decreases vs
  {
    if vs == [] then 0 else Held(vs[0]) + HeldSeq(vs[1..])
  }

  function HeldEntry(e: Entry): nat
    decreases e
  {
    Held(e.k) + Held(e.v)
  }

  function HeldEntries(es: seq<Entry>): nat
    decreases es
  {
    if es == [] then 0 else HeldEntry(es[0]) + HeldEntries(es[1..])
  }

  /** A decoded value holds no more than was read for it: the count leaves nothing out. */
  lemma {:induction false} HeldWasRead(g: Gen, ty: Ty, b: Bytes)
    requires Dec(g, ty, b).Ok?
    ensures Held(Dec(g, ty, b).v) <= Reads(g, ty, b)
    decreases |b|, TyRank(g, ty), ty, 1
  {
    hide DecN, DecEntries, DecFields, DecStruct, ReadsN, ReadsFields, ReadsEntries, Uvarint, HeldSeq, HeldEntries;
    match ty
    case TSlice(e, _) =>
      NothingHeld();
      var (nn, cc) := Uvarint(b);
      if cc > 0 && nn > 0 { NHeld(g, e, 1, nn, b[cc..]); }
    case TArray(m, e, _) => NHeld(g, e, 0, m, b);
    case TPtr(e, _) => if b[0] != 0 { HeldWasRead(g, e, b[1..]); }
    case TMap(kt, vt, _) =>
      NothingHeld();
      var (nn, cc) := Uvarint(b);
      if cc > 0 && nn > 0 { EntriesHeld(g, kt, vt, nn, [], b[cc..]); }
    case TStruct(n) => StructHeld(g, n, b);
    case TUnion(ms) =>
      var (nn, cc) := Uvarint(b);
      if cc > 0 && 0 < nn <= |ms| { StructHeld(g, ms[nn - 1], b[cc..]); }
    case _ =>
  }

  lemma NothingHeld()
    ensures HeldSeq([]) == 0 && HeldEntries([]) == 0
  {}

  lemma {:induction false} StructHeld(g: Gen, n: Name, b: Bytes)
    ensures DecStruct(g, n, b).Ok? ==> Held(DecStruct(g, n, b).v) <= ReadsFields(g, FieldsOf(g, n), b)
    decreases |b|, RankOf(g, n) + 1, TStruct(n), 0
  {
    hide DecFields, ReadsFields, HeldSeq;
    StructWf(g, n);
    if DecFields(g, FieldsOf(g, n), b).Ok? { FieldsHeld(g, FieldsOf(g, n), b); }
  }

  lemma {:induction false} NHeld(g: Gen, e: Ty, unit: nat, m: nat, b: Bytes)
    ensures DecN(g, e, m, b).Ok? ==> unit * m + HeldSeq(DecN(g, e, m, b).v) <= ReadsN(g, e, unit, m, b)
    decreases |b|, TyRank(g, e), e, m + 1
  {
    hide Dec, Reads, Held;
    if m > 0 && DecN(g, e, m, b).Ok? {
      HeldWasRead(g, e, b);
      var r := Dec(g, e, b);
      NHeld(g, e, unit, m - 1, b[r.n..]);
      var t := DecN(g, e, m - 1, b[r.n..]);
      assert ([r.v] + t.v)[1..] == t.v;
      assert unit * m == unit + unit * (m - 1);
    }
  }

  lemma {:induction false} FieldsHeld(g: Gen, tys: seq<Ty>, b: Bytes)
    requires DecFields(g, tys, b).Ok?
    ensures HeldSeq(DecFields(g, tys, b).v) <= ReadsFields(g, tys, b)
    decreases |b|, FieldsRank(g, tys), tys, 1
  {
    hide Dec, Reads, Held;
    if tys != [] {
      HeldWasRead(g, tys[0], b);
      var r := Dec(g, tys[0], b);
      FieldsHeld(g, tys[1..], b[r.n..]);
      var t := DecFields(g, tys[1..], b[r.n..]);
      assert ([r.v] + t.v)[1..] == t.v;
    }
  }

  lemma {:induction false} PairHeld(g: Gen, kt: Ty, vt: Ty, b: Bytes)
    requires DecPair(g, kt, vt, b).Ok?
    ensures HeldEntry(DecPair(g, kt, vt, b).v) <= ReadsPair(g, kt, vt, b)
    decreases |b|, PairRank(g, kt, vt), TMap(kt, vt), 0
  {
    hide Dec, Reads, Held;
    HeldWasRead(g, kt, b);
    HeldWasRead(g, vt, b[Dec(g, kt, b).n..]);
  }

  /** Assigning over a key replaces what was held there. */
  lemma {:induction false} AssignHeld(es: seq<Entry>, e: Entry)
    ensures |MapSet(es, e.k, e.v)| + HeldEntries(MapSet(es, e.k, e.v)) <= |es| + HeldEntries(es) + 1 + HeldEntry(e)
  {
    hide HeldEntry;
    if es == [] {
      assert [e][1..] == [];
    } else if es[0].k == e.k {
      assert ([e] + es[1..])[1..] == es[1..];
    } else {
      AssignHeld(es[1..], e);
      var t := MapSet(es[1..], e.k, e.v);
      assert ([es[0]] + t)[1..] == t;
    }
  }

  lemma {:induction false} EntriesHeld(g: Gen, kt: Ty, vt: Ty, m: nat, acc: seq<Entry>, b: Bytes)
    ensures var r := DecEntries(g, kt, vt, m, acc, b);
            r.Ok? ==> |r.v| + HeldEntries(r.v) <= |acc| + HeldEntries(acc) + ReadsEntries(g, kt, vt, m, b)
    decreases |b|, PairRank(g, kt, vt), TMap(kt, vt), m + 1
  {
    hide DecPair, ReadsPair, MapSet, HeldEntries, HeldEntry;
    if m > 0 && DecEntries(g, kt, vt, m, acc, b).Ok? {
      PairHeld(g, kt, vt, b);
      var p := DecPair(g, kt, vt, b);
      AssignHeld(acc, p.v);
      EntriesHeld(g, kt, vt, m - 1, MapSet(acc, p.v.k, p.v.v), b[p.n..]);
    }
  }
}
