/** Unknown union tags: where the modes report them, and where fast mode does not. */
module Tags {
  import opened Bytes
  import opened Varint
  import opened Schema
  import opened Ways
  import opened Memory
  import opened Codec
  import opened Reuse
  import opened Strict
  import opened Program
  import opened EmitCorrect
  import opened Agreement

  ghost predicate Reports(o: Outcome, k: nat) { o.Return? && o.e == UnknownUnionTag && o.st.i == k }

  ghost predicate Unknown(q: Stop) { q.Stopped? && q.e == UnknownUnionTag }

  /** The tag was read by the method itself, or below it. */
  ghost predicate Owned(q: Stop) { Unknown(q) && q.own }

  ghost predicate Dropped(q: Stop) { Unknown(q) && !q.own }

  // ---------------------------------------------------------------------
  // Whole methods
  // ---------------------------------------------------------------------

  /** How a method ends, by the strict decoder. */
  ghost predicate Ends(g: RawGen, q: Stop, o: Outcome) {
    match q
    case Went(m) => o.Next? && o.st.i == m
    case Stopped(e, k, own) =>
      if e == Unchecked then o.Crash?
      else if own || g.mode.Safe? then o.Return? && o.e == e && o.st.i == k
      else o.Crash? || ((o.Next? || o.Return?) && o.st.i > k)
  }

  /** Every emitted method, in either mode and byte order, raw copies included. */
  lemma MethodStops(g: Gen, starts: Starts, fuel: nat, n: Name, d: Val, b: Bytes)
    requires HasTy(g, TStruct(n), d) && fuel >= Need(g, |b|, RankOf(g, n) + 1)
    ensures Ends(g, ScanMethod(g, n, b), Invoke(g, starts, fuel, n, d, b))
  {
    hide Invoke, ScanFields, DecFieldsInto, FieldsHaveTy, LoadFields;
    if Blittable(g, n) {
      MemmoveCode(g, starts, fuel, n, d, b);
    } else {
      MethodCode(g, starts, fuel, n, d, b);
      FieldsFollow(g, FieldsOf(g, n), d.fields, b);
    }
  }

  /** For every fast run: the method returns an unknown tag at offset k if and only if the
      strict decoder stops there with a tag that was the method's own to read. The one
      exception: past a tag below it, which it drops, it can only end further on, be it
      with a tag of its own. */
  lemma FastReportsOwnTags(g: Gen, starts: Starts, fuel: nat, n: Name, d: Val, b: Bytes)
    requires g.mode.Fast? && HasTy(g, TStruct(n), d) && fuel >= Need(g, |b|, RankOf(g, n) + 1)
    ensures var q, o := ScanMethod(g, n, b), Invoke(g, starts, fuel, n, d, b);
            if Dropped(q) then o.Crash? || ((o.Next? || o.Return?) && o.st.i > q.n)
            else forall k :: Reports(o, k) <==> q == Stopped(UnknownUnionTag, k, true)
  {
    hide Invoke, ScanMethod, HasTy;
    MethodStops(g, starts, fuel, n, d, b);
  }

  // ---------------------------------------------------------------------
  // Schemas on which nothing is lost
  // ---------------------------------------------------------------------

  /** The way leads to a union; an array of length 0 has no elements to go into. */
  ghost predicate Leads(g: RawGen, ty: Ty, p: Path)
    decreases p
  {
    match p
    case Here => ty.TUnion?
    case Elem(q) => (ty.TSlice? || (ty.TArray? && ty.len > 0)) && Leads(g, ty.elem, q)
    case Deref(q) => ty.TPtr? && Leads(g, ty.elem, q)
    case Key(q) => ty.TMap? && Leads(g, ty.key, q)
    case Value(q) => ty.TMap? && Leads(g, ty.val, q)
    case In(k, q) => ty.TStruct? && k < |FieldsOf(g, ty.name)| && Leads(g, FieldsOf(g, ty.name)[k], q)
    case Into(t, k, q) =>
      ty.TUnion? && t < |ty.members| && k < |FieldsOf(g, ty.members[t])| && Leads(g, FieldsOf(g, ty.members[t])[k], q)
  }

  /** The way enters a struct, whose decoding is another method's. */
  predicate Nested(p: Path) {
    match p
    case Here => false
    case In(_, _) => true
    case Into(_, _, _) => true
    case _ => Nested(p.rest)
  }

  /** Some way from a target's fields reaches a union, through a nested struct or member,
      or through none. */
  ghost predicate UnionBelow(g: RawGen, n: Name, nested: bool) {
    exists k, p :: 0 <= k < |FieldsOf(g, n)| && Leads(g, FieldsOf(g, n)[k], p) && Nested(p) == nested
  }

  lemma {:induction false} FixedLeadsNowhere(g: RawGen, ty: Ty, p: Path)
    requires IsFixedWidth(ty)
    ensures !Leads(g, ty, p)
    decreases p
  {
    if p.Elem? && ty.TArray? { FixedLeadsNowhere(g, ty.elem, p.rest); }
  }

  // Where the strict decoder stopped, there was a way.

  lemma {:induction false} TagHasPath(g: Gen, ty: Ty, b: Bytes) returns (p: Path)
    requires Unknown(Scan(g, ty, b))
    ensures Leads(g, ty, p) && (Nested(p) <==> !Scan(g, ty, b).own)
    decreases |b|, TyRank(g, ty), ty, 1
  {
    hide ScanElems, ScanEntries, ScanFields, ScanStruct, Uvarint;
    match ty
    case TSlice(e, _) =>
      p := TagHasPathElems(g, e, Uvarint(b).0, b[Uvarint(b).1..]);
      p := Elem(p);
    case TArray(m, e, _) =>
      p := TagHasPathElems(g, e, m, b);
      p := Elem(p);
    case TPtr(e, _) =>
      p := TagHasPath(g, e, b[1..]);
      p := Deref(p);
    case TMap(kt, vt, _) =>
      p := TagHasPathEntries(g, kt, vt, Uvarint(b).0, b[Uvarint(b).1..]);
    case TStruct(n) =>
      StructWf(g, n);
      StructIs(g, n, b);
      var k;
      k, p := TagHasPathFields(g, FieldsOf(g, n), b);
      p := In(k, p);
    case TUnion(ms) =>
      p := Here;
      if Uvarint(b).0 <= |ms| {
        var t := Uvarint(b).0 - 1;
        StructWf(g, ms[t]);
        StructIs(g, ms[t], b[Uvarint(b).1..]);
        var k;
        k, p := TagHasPathFields(g, FieldsOf(g, ms[t]), b[Uvarint(b).1..]);
        p := Into(t, k, p);
      }
    case _ =>
  }

  lemma StructIs(g: Gen, n: Name, b: Bytes)
    ensures ScanStruct(g, n, b).Stopped? ==> !ScanStruct(g, n, b).own
    ensures Unknown(ScanStruct(g, n, b)) ==> Unknown(ScanFields(g, FieldsOf(g, n), b))
    ensures !Blittable(g, n) && ScanFields(g, FieldsOf(g, n), b).Went? ==> ScanStruct(g, n, b) == ScanFields(g, FieldsOf(g, n), b)
    ensures Blittable(g, n) && |b| >= Sizeof(g, n) ==> ScanStruct(g, n, b) == Went(Sizeof(g, n))
  {
    hide ScanFields;
  }

  lemma {:induction false} TagHasPathElems(g: Gen, e: Ty, m: nat, b: Bytes) returns (p: Path)
    requires Unknown(ScanElems(g, e, m, b))
    ensures m > 0 && Leads(g, e, p) && (Nested(p) <==> !ScanElems(g, e, m, b).own)
    decreases |b|, TyRank(g, e), e, m + 3
  {
    hide ScanN, Leads, Nested;
    p := TagHasPathN(g, e, m, b);
  }

  lemma {:induction false} TagHasPathN(g: Gen, e: Ty, m: nat, b: Bytes) returns (p: Path)
    requires Unknown(ScanN(g, e, m, b))
    ensures m > 0 && Leads(g, e, p) && (Nested(p) <==> !ScanN(g, e, m, b).own)
    decreases |b|, TyRank(g, e), e, m + 2
  {
    hide Scan, ScanN, Leads, Nested;
    ScanNStep(g, e, m, b);
    var q := Scan(g, e, b);
    if q.Went? { p := TagHasPathN(g, e, m - 1, b[q.n..]); } else { p := TagHasPath(g, e, b); }
  }

  lemma {:induction false} TagHasPathFields(g: Gen, tys: seq<Ty>, b: Bytes) returns (k: nat, p: Path)
    requires Unknown(ScanFields(g, tys, b))
    ensures k < |tys| && Leads(g, tys[k], p) && (Nested(p) <==> !ScanFields(g, tys, b).own)
    decreases |b|, FieldsRank(g, tys), tys, 1
  {
    hide Scan, ScanFields, Leads, Nested;
    ScanFieldsStep(g, tys, b);
    var q := Scan(g, tys[0], b);
    if q.Went? {
      k, p := TagHasPathFields(g, tys[1..], b[q.n..]);
      k := k + 1;
    } else {
      k := 0;
      p := TagHasPath(g, tys[0], b);
    }
  }

  lemma {:induction false} TagHasPathEntries(g: Gen, kt: Ty, vt: Ty, m: nat, b: Bytes) returns (p: Path)
    requires Unknown(ScanEntries(g, kt, vt, m, b))
    ensures Leads(g, TMap(kt, vt), p) && (Nested(p) <==> !ScanEntries(g, kt, vt, m, b).own)
    decreases |b|, PairRank(g, kt, vt), TMap(kt, vt), m + 1
  {
    hide ScanPair, ScanEntries, Leads, Nested;
    ScanEntriesStep(g, kt, vt, m, b);
    var q := ScanPair(g, kt, vt, b);
    if q.Went? {
      p := TagHasPathEntries(g, kt, vt, m - 1, b[q.n..]);
    } else {
      p := TagHasPathPair(g, kt, vt, b);
    }
  }

  lemma {:induction false} TagHasPathPair(g: Gen, kt: Ty, vt: Ty, b: Bytes) returns (p: Path)
    requires Unknown(ScanPair(g, kt, vt, b))
    ensures Leads(g, TMap(kt, vt), p) && (Nested(p) <==> !ScanPair(g, kt, vt, b).own)
    decreases |b|, PairRank(g, kt, vt), TMap(kt, vt), 0
  {
    hide Scan;
    var q := Scan(g, kt, b);
    if q.Went? {
      p := TagHasPath(g, vt, b[q.n..]);
      p := Value(p);
    } else {
      p := TagHasPath(g, kt, b);
      p := Key(p);
    }
  }

  // Where there is a way, some input stops the strict decoder at its end.

  function Nulls(m: nat): (s: Bytes)
    ensures |s| == m
  {
    seq(m, _ => 0)
  }

  /** Bytes that decode to the zero value. */
  function ZeroBytes(g: Gen, ty: Ty): Bytes
    decreases TyRank(g, ty), ty, 0
  {
    match ty
    case TScalar(k, _) => Nulls(Width(k))
    case TArray(m, e, _) => ZeroBytesN(g, e, m)
    case TStruct(n) => if Blittable(g, n) then Nulls(Sizeof(g, n)) else ZeroBytesFields(g, FieldsOf(g, n))
    case TSkip => []
    case _ => [0]
  }

  function ZeroBytesN(g: Gen, e: Ty, m: nat): Bytes
    decreases TyRank(g, e), e, m + 1
  {
    if IsByte(e) || RawElems(g, e) then Nulls(m * RawWidth(e))
    else if m == 0 then []
    else ZeroBytes(g, e) + ZeroBytesN(g, e, m - 1)
  }

  function ZeroBytesFields(g: Gen, tys: seq<Ty>): Bytes
    decreases FieldsRank(g, tys), tys
  {
    if tys == [] then [] else ZeroBytes(g, tys[0]) + ZeroBytesFields(g, tys[1..])
  }

  lemma {:induction false} ZeroScans(g: Gen, ty: Ty, w: Bytes)
    ensures Scan(g, ty, ZeroBytes(g, ty) + w) == Went(|ZeroBytes(g, ty)|)
    decreases TyRank(g, ty), ty, 1
  {
    hide ScanFields, ScanElems, ScanStruct, ZeroBytesN, ZeroBytesFields;
    NoCount(w);
    match ty
    case TArray(m, e, _) =>
      ZeroScansElems(g, e, m, w);
      BytesZeros(g, e, m);
    case TStruct(n) =>
      StructWf(g, n);
      StructIs(g, n, ZeroBytes(g, ty) + w);
      if !Blittable(g, n) { ZeroScansFields(g, FieldsOf(g, n), w); }
    case _ =>
  }

  lemma NoCount(w: Bytes)
    ensures Uvarint([0] + w) == (0, 1)
  {
    UvarintInvertsLeb(0, w);
    assert Leb(0) == [0];
  }

  lemma BytesZeros(g: Gen, e: Ty, m: nat)
    ensures IsByte(e) ==> |ZeroBytesN(g, e, m)| == m
  {}

  lemma {:induction false} ZeroScansElems(g: Gen, e: Ty, m: nat, w: Bytes)
    ensures !IsByte(e) ==> ScanElems(g, e, m, ZeroBytesN(g, e, m) + w) == Went(|ZeroBytesN(g, e, m)|)
    decreases TyRank(g, e), e, m + 2
  {
    hide ScanN, ZeroBytes;
    if !RawElems(g, e) && !IsByte(e) { ZeroScansN(g, e, m, w); }
  }

  lemma {:induction false} ZeroScansN(g: Gen, e: Ty, m: nat, w: Bytes)
    requires !RawElems(g, e) && !IsByte(e)
    ensures ScanN(g, e, m, ZeroBytesN(g, e, m) + w) == Went(|ZeroBytesN(g, e, m)|)
    decreases TyRank(g, e), e, m + 1
  {
    hide Scan, ScanN, ZeroBytes, RawElems;
    ScanNStep(g, e, m, ZeroBytesN(g, e, m) + w);
    if m > 0 {
      var z, rest := ZeroBytes(g, e), ZeroBytesN(g, e, m - 1) + w;
      assert ZeroBytesN(g, e, m) + w == z + rest;
      assert (z + rest)[|z|..] == rest;
      ZeroScans(g, e, rest);
      ZeroScansN(g, e, m - 1, w);
    }
  }

  lemma {:induction false} ZeroScansFields(g: Gen, tys: seq<Ty>, w: Bytes)
    ensures ScanFields(g, tys, ZeroBytesFields(g, tys) + w) == Went(|ZeroBytesFields(g, tys)|)
    decreases FieldsRank(g, tys), tys, 2
  {
    hide Scan, ScanFields, ZeroBytes;
    ScanFieldsStep(g, tys, ZeroBytesFields(g, tys) + w);
    if tys != [] {
      var z, rest := ZeroBytes(g, tys[0]), ZeroBytesFields(g, tys[1..]) + w;
      assert ZeroBytesFields(g, tys) + w == z + rest;
      assert (z + rest)[|z|..] == rest;
      ZeroScans(g, tys[0], rest);
      ZeroScansFields(g, tys[1..], w);
    }
  }

  /** The bad tag at the end of the way, with zero values before it. */
  lemma {:induction false} PathHasTag(g: Gen, ty: Ty, p: Path) returns (b: Bytes)
    requires WfTy(ty) && Leads(g, ty, p)
    ensures |b| > 0 && Tag(Scan(g, ty, b), !Nested(p))
    decreases p
  {
    hide ScanSlice, ScanArray, ScanPtr, ScanMap, ScanStruct, ScanUnion, ScanFields, Leb;
    match p
    case Here =>
      b := Leb(|ty.members| + 1);
      OwnTag(g, ty.members);
    case Elem(q) =>
      b := PathHasTag(g, ty.elem, q);
      ElemTag(g, ty, q, b, !Nested(q));
      if ty.TSlice? { b := Leb(1) + b; }
    case Deref(q) =>
      var w := PathHasTag(g, ty.elem, q);
      b := [1] + w;
      PtrTag(g, ty.elem, w, !Nested(q));
    case Key(q) =>
      var w := PathHasTag(g, ty.key, q);
      b := Leb(1) + w;
      KeyTag(g, ty.key, ty.val, w, !Nested(q));
    case Value(q) =>
      var w := PathHasTag(g, ty.val, q);
      b := Leb(1) + (ZeroBytes(g, ty.key) + w);
      ValueTag(g, ty.key, ty.val, w, !Nested(q));
    case In(k, q) =>
      StructWf(g, ty.name);
      var w := PathHasTag(g, FieldsOf(g, ty.name)[k], q);
      b := FieldTag(g, FieldsOf(g, ty.name), k, w, !Nested(q));
      StructTag(g, ty.name, k, q, b, !Nested(q));
    case Into(t, k, q) =>
      var m := ty.members[t];
      StructWf(g, m);
      var w := PathHasTag(g, FieldsOf(g, m)[k], q);
      w := FieldTag(g, FieldsOf(g, m), k, w, !Nested(q));
      StructTag(g, m, k, q, w, !Nested(q));
      b := Leb(t + 1) + w;
      MemberTag(g, ty.members, t, w);
  }

  lemma OwnTag(g: Gen, ms: seq<Name>)
    requires WfTy(TUnion(ms))
    ensures |Leb(|ms| + 1)| > 0 && Tag(ScanUnion(g, ms, Leb(|ms| + 1)), true)
  {
    hide Leb, ScanStruct, Uvarint;
    assert Leb(|ms| + 1) + [] == Leb(|ms| + 1);
    UvarintInvertsLeb(|ms| + 1, []);
  }

  /** The announcement of one element. */
  lemma OneCount(w: Bytes)
    ensures Uvarint(Leb(1) + w) == (1, 1) && |Leb(1)| == 1 && (Leb(1) + w)[1..] == w
  {
    assert Leb(1) == [1];
    UvarintInvertsLeb(1, w);
  }

  lemma ElemTag(g: Gen, ty: Ty, p: Path, w: Bytes, own: bool)
    requires Leads(g, ty, Elem(p)) && |w| > 0 && Tag(Scan(g, ty.elem, w), own)
    ensures var b := if ty.TSlice? then Leb(1) + w else w; |b| > 0 && Tag(Scan(g, ty, b), own)
  {
    hide Scan, ScanN, ScanElems, Leb, Uvarint;
    if RawElems(g, ty.elem) { MemCopyableIsFixed(ty.elem); FixedLeadsNowhere(g, ty.elem, p); assert false; }
    if IsByte(ty.elem) { FixedLeadsNowhere(g, ty.elem, p); assert false; }
    if ty.TSlice? {
      OneCount(w);
      OneElem(g, ty.elem, 1, w, own);
      SliceIs(g, ty, Leb(1) + w);
    } else {
      OneElem(g, ty.elem, ty.len, w, own);
      ArrayIs(g, ty, w);
    }
  }

  lemma OneElem(g: Gen, e: Ty, m: nat, w: Bytes, own: bool)
    requires !RawElems(g, e) && m > 0 && Tag(Scan(g, e, w), own)
    ensures Tag(ScanElems(g, e, m, w), own)
  {
    hide Scan, ScanN;
    ScanNStep(g, e, m, w);
  }

  lemma SliceIs(g: Gen, ty: Ty, b: Bytes)
    requires ty.TSlice? && !IsByte(ty.elem) && Uvarint(b) == (1, 1) && |b| > 1
    ensures Scan(g, ty, b) == After(1, ScanElems(g, ty.elem, 1, b[1..]))
  {
    hide ScanElems, Uvarint;
  }

  lemma ArrayIs(g: Gen, ty: Ty, b: Bytes)
    requires ty.TArray? && !IsByte(ty.elem)
    ensures Scan(g, ty, b) == ScanElems(g, ty.elem, ty.len, b)
  {
    hide ScanElems;
  }

  lemma PtrTag(g: Gen, e: Ty, w: Bytes, own: bool)
    requires Tag(Scan(g, e, w), own)
    ensures Tag(ScanPtr(g, e, [1] + w), own)
  {
    hide Scan;
    assert ([1] + w)[1..] == w;
  }

  lemma MapIs(g: Gen, kt: Ty, vt: Ty, b: Bytes)
    requires Uvarint(b) == (1, 1) && |b| > 1 && ScanPair(g, kt, vt, b[1..]).Stopped?
    ensures ScanMap(g, kt, vt, b) == After(1, ScanPair(g, kt, vt, b[1..]))
  {
    hide ScanPair, ScanEntries, Uvarint;
    ScanEntriesStep(g, kt, vt, 1, b[1..]);
  }

  lemma KeyTag(g: Gen, kt: Ty, vt: Ty, w: Bytes, own: bool)
    requires |w| > 0 && Tag(Scan(g, kt, w), own)
    ensures Tag(ScanMap(g, kt, vt, Leb(1) + w), own)
  {
    hide Scan, ScanMap, Leb, Uvarint;
    OneCount(w);
    MapIs(g, kt, vt, Leb(1) + w);
  }

  lemma ValueTag(g: Gen, kt: Ty, vt: Ty, w: Bytes, own: bool)
    requires |w| > 0 && Tag(Scan(g, vt, w), own)
    ensures Tag(ScanMap(g, kt, vt, Leb(1) + (ZeroBytes(g, kt) + w)), own)
  {
    hide Scan, ScanMap, Leb, Uvarint, ZeroBytes;
    var z := ZeroBytes(g, kt);
    OneCount(z + w);
    ZeroScans(g, kt, w);
    assert (z + w)[|z|..] == w;
    MapIs(g, kt, vt, Leb(1) + (z + w));
  }

  lemma StructTag(g: Gen, n: Name, k: nat, p: Path, b: Bytes, own: bool)
    requires k < |FieldsOf(g, n)| && Leads(g, FieldsOf(g, n)[k], p)
    requires Tag(ScanFields(g, FieldsOf(g, n), b), own)
    ensures Tag(ScanMethod(g, n, b), own) && Tag(ScanStruct(g, n, b), false)
  {
    hide ScanFields, Leads;
    if Blittable(g, n) { FixedLeadsNowhere(g, FieldsOf(g, n)[k], p); assert false; }
  }

  lemma MemberTag(g: Gen, ms: seq<Name>, t: nat, w: Bytes)
    requires WfTy(TUnion(ms)) && t < |ms| && Tag(ScanStruct(g, ms[t], w), false)
    ensures Tag(ScanUnion(g, ms, Leb(t + 1) + w), false)
  {
    hide ScanStruct, Leb, Uvarint;
    UvarintInvertsLeb(t + 1, w);
    assert (Leb(t + 1) + w)[|Leb(t + 1)|..] == w;
  }

  /** A field's bad tag, behind the zero values of the fields before it. */
  lemma {:induction false} FieldTag(g: Gen, tys: seq<Ty>, k: nat, w: Bytes, own: bool) returns (b: Bytes)
    requires k < |tys| && |w| > 0 && Tag(Scan(g, tys[k], w), own)
    ensures |b| > 0 && Tag(ScanFields(g, tys, b), own)
  {
    hide Scan, ScanFields, ZeroBytes;
    if k == 0 {
      b := w;
    } else {
      var rest := FieldTag(g, tys[1..], k - 1, w, own);
      var z := ZeroBytes(g, tys[0]);
      ZeroScans(g, tys[0], rest);
      b := z + rest;
      assert b[|z|..] == rest;
    }
    ScanFieldsStep(g, tys, b);
  }

  /** The tags a method loses and those it reads itself, off the schema: some input stops
      strict decoding of the target at an unknown tag that is not its own if and only if
      some way from its fields reaches a union through a nested struct or member, and at
      one that is if and only if some way does not. */
  lemma StopsExactly(g: Gen, n: Name)
    ensures UnionBelow(g, n, true) <==> exists b :: Dropped(ScanMethod(g, n, b))
    ensures UnionBelow(g, n, false) <==> exists b :: Owned(ScanMethod(g, n, b))
  {
    hide ScanMethod, Leads, Nested;
    if UnionBelow(g, n, true) {
      var b := WayHasTag(g, n, true);
      assert Dropped(ScanMethod(g, n, b));
    }
    if UnionBelow(g, n, false) {
      var b := WayHasTag(g, n, false);
      assert Owned(ScanMethod(g, n, b));
    }
    if b :| Dropped(ScanMethod(g, n, b)) { TagHasWay(g, n, b); }
    if b :| Owned(ScanMethod(g, n, b)) { TagHasWay(g, n, b); }
  }

  lemma WayHasTag(g: Gen, n: Name, nested: bool) returns (b: Bytes)
    requires UnionBelow(g, n, nested)
    ensures Tag(ScanMethod(g, n, b), !nested)
  {
    hide ScanMethod, ScanFields, Leads, Nested, Scan;
    var tys := FieldsOf(g, n);
    var k, p :| 0 <= k < |tys| && Leads(g, tys[k], p) && Nested(p) == nested;
    StructWf(g, n);
    var w := PathHasTag(g, tys[k], p);
    b := FieldTag(g, tys, k, w, !nested);
    StructTag(g, n, k, p, b, !nested);
  }

  lemma TagHasWay(g: Gen, n: Name, b: Bytes)
    requires Unknown(ScanMethod(g, n, b))
    ensures UnionBelow(g, n, !ScanMethod(g, n, b).own)
  {
    hide ScanFields, Leads, Nested;
    var k, p := TagHasPathFields(g, FieldsOf(g, n), b);
    assert Leads(g, FieldsOf(g, n)[k], p) && Nested(p) == !ScanMethod(g, n, b).own;
  }

  /** The method returns the unknown tag at which strict decoding stops. */
  ghost predicate ReportsTag(g: Gen, starts: Starts, n: Name, d: Val, b: Bytes) {
    var q, o := ScanMethod(g, n, b), Invoke(g, starts, Need(g, |b|, RankOf(g, n) + 1), n, d, b);
    Unknown(q) ==> Reports(o, q.n)
  }

  /** Fast Unmarshal returns every unknown tag, as the error's documentation promises,
      exactly for targets with no union below a nested struct or member. */
  lemma ReportedExactly(g: Gen, starts: Starts, n: Name, d: Val)
    requires g.mode.Fast? && HasTy(g, TStruct(n), d)
    ensures (forall b :: ReportsTag(g, starts, n, d, b)) <==> !UnionBelow(g, n, true)
  {
    hide Invoke, ScanMethod, HasTy, UnionBelow;
    if UnionBelow(g, n, true) {
      var b := WayHasTag(g, n, true);
      FastReportsOwnTags(g, starts, Need(g, |b|, RankOf(g, n) + 1), n, d, b);
      assert !ReportsTag(g, starts, n, d, b);
    } else {
      forall b ensures ReportsTag(g, starts, n, d, b) {
        FastReportsOwnTags(g, starts, Need(g, |b|, RankOf(g, n) + 1), n, d, b);
        if Unknown(ScanMethod(g, n, b)) { TagHasWay(g, n, b); }
      }
    }
  }

  // ---------------------------------------------------------------------
  // Both modes on the same bytes
  // ---------------------------------------------------------------------

  /** What fast mode's missing guards cannot change. */
  ghost predicate Decided(s: Stop, f: Stop) { s.Went? || Unknown(s) ==> f == s }

  lemma DecidedThen(q: Stop, q': Stop, s: Stop, f: Stop)
    requires Decided(q, q') && (q.Went? ==> Decided(s, f))
    ensures Decided(Then(q, s), Then(q', f))
  {}

  /** Where nothing is copied whole, in either byte order: strict decoding of bytes that
      safe mode accepts, or rejects for a tag, is the same in fast mode. */
  lemma {:induction false} ScansAgree(g: Gen, R: set<Name>, ty: Ty, b: Bytes)
    requires g.mode.Fast? && FieldByField(g, R) && Within(R, ty)
    ensures Decided(Scan(WithSafe(g), ty, b), Scan(g, ty, b))
    decreases |b|, TyRank(g, ty), ty, 1
  {
    hide ScanElems, ScanEntries, ScanStruct, Uvarint, WithSafe, FieldByField;
    SameStructs(g);
    match ty
    case TSlice(e, _) =>
      var (nn, cc) := Uvarint(b);
      if cc > 0 { ElemScansAgree(g, R, e, nn, b[cc..]); }
    case TArray(m, e, _) => ElemScansAgree(g, R, e, m, b);
    case TPtr(e, _) => if |b| > 0 { ScansAgree(g, R, e, b[1..]); }
    case TMap(kt, vt, _) =>
      var (nn, cc) := Uvarint(b);
      if cc > 0 { EntryScansAgree(g, R, kt, vt, nn, b[cc..]); }
    case TStruct(n) => StructScansAgree(g, R, n, b);
    case TUnion(ms) =>
      var (nn, cc) := Uvarint(b);
      if cc > 0 && 0 < nn <= |ms| { StructScansAgree(g, R, ms[nn - 1], b[cc..]); }
    case _ =>
  }

  lemma {:induction false} StructScansAgree(g: Gen, R: set<Name>, n: Name, b: Bytes)
    requires g.mode.Fast? && FieldByField(g, R) && n in R
    ensures Decided(ScanMethod(WithSafe(g), n, b), ScanMethod(g, n, b))
    ensures Decided(ScanStruct(WithSafe(g), n, b), ScanStruct(g, n, b))
    decreases |b|, RankOf(g, n) + 1, TStruct(n), 0
  {
    hide ScanFields, WithSafe, Within;
    SameStructs(g);
    StructWf(g, n);
    FieldScansAgree(g, R, FieldsOf(g, n), b);
  }

  lemma {:induction false} ElemScansAgree(g: Gen, R: set<Name>, e: Ty, m: nat, b: Bytes)
    requires g.mode.Fast? && FieldByField(g, R) && Within(R, e)
    ensures Decided(ScanElems(WithSafe(g), e, m, b), ScanElems(g, e, m, b))
    decreases |b|, TyRank(g, e), e, m + 3
  {
    hide ScanN, WithSafe, FieldByField, Within;
    SameStructs(g);
    if RawElems(g, e) { FixedScanN(WithSafe(g), e, m, b); } else { NScansAgree(g, R, e, m, b); }
  }

  /** Element by element, fixed-width types take their memory's width. */
  lemma {:induction false} FixedScan(g: Gen, ty: Ty, b: Bytes)
    requires g.mode.Safe? && MemCopyable(ty)
    ensures if |b| >= RawWidth(ty) then Scan(g, ty, b) == Went(RawWidth(ty)) else Scan(g, ty, b).Stopped? && !Unknown(Scan(g, ty, b))
    decreases ty, 0
  {
    hide ScanN;
    if ty.TArray? {
      FixedScanN(g, ty.elem, ty.len, b);
      if !IsByte(ty.elem) { ArrayIs(g, ty, b); }
    }
  }

  lemma {:induction false} FixedScanN(g: Gen, e: Ty, m: nat, b: Bytes)
    requires g.mode.Safe? && MemCopyable(e)
    ensures var q := ScanN(g, e, m, b);
            if |b| >= m * RawWidth(e) then q == Went(m * RawWidth(e)) else q.Stopped? && !Unknown(q)
    decreases e, m + 1
  {
    hide Scan, ScanN;
    ScanNStep(g, e, m, b);
    if m > 0 {
      MulStep(m, RawWidth(e));
      FixedScan(g, e, b);
      if |b| >= RawWidth(e) { FixedScanN(g, e, m - 1, b[RawWidth(e)..]); }
    }
  }

  lemma {:induction false} NScansAgree(g: Gen, R: set<Name>, e: Ty, m: nat, b: Bytes)
    requires g.mode.Fast? && FieldByField(g, R) && Within(R, e)
    ensures Decided(ScanN(WithSafe(g), e, m, b), ScanN(g, e, m, b))
    decreases |b|, TyRank(g, e), e, m + 2
  {
    hide Scan, ScanN, WithSafe, FieldByField, Within;
    ScanNStep(g, e, m, b);
    ScanNStep(WithSafe(g), e, m, b);
    if m > 0 {
      ScansAgree(g, R, e, b);
      var s, f := Scan(WithSafe(g), e, b), Scan(g, e, b);
      if s.Went? { NScansAgree(g, R, e, m - 1, b[s.n..]); }
      DecidedThen(s, f, ScanN(WithSafe(g), e, m - 1, b[s.n..]), ScanN(g, e, m - 1, b[f.n..]));
    }
  }

  lemma {:induction false} FieldScansAgree(g: Gen, R: set<Name>, tys: seq<Ty>, b: Bytes)
    requires g.mode.Fast? && FieldByField(g, R) && forall k :: 0 <= k < |tys| ==> Within(R, tys[k])
    ensures Decided(ScanFields(WithSafe(g), tys, b), ScanFields(g, tys, b))
    decreases |b|, FieldsRank(g, tys), tys, 1
  {
    hide Scan, ScanFields, WithSafe, FieldByField, Within;
    ScanFieldsStep(g, tys, b);
    ScanFieldsStep(WithSafe(g), tys, b);
    if tys != [] {
      ScansAgree(g, R, tys[0], b);
      var s, f := Scan(WithSafe(g), tys[0], b), Scan(g, tys[0], b);
      if s.Went? { FieldScansAgree(g, R, tys[1..], b[s.n..]); }
      DecidedThen(s, f, ScanFields(WithSafe(g), tys[1..], b[s.n..]), ScanFields(g, tys[1..], b[f.n..]));
    }
  }

  lemma {:induction false} PairScansAgree(g: Gen, R: set<Name>, kt: Ty, vt: Ty, b: Bytes)
    requires g.mode.Fast? && FieldByField(g, R) && Within(R, kt) && Within(R, vt)
    ensures Decided(ScanPair(WithSafe(g), kt, vt, b), ScanPair(g, kt, vt, b))
    decreases |b|, PairRank(g, kt, vt), TMap(kt, vt), 0
  {
    hide Scan, WithSafe, FieldByField, Within;
    ScansAgree(g, R, kt, b);
    var s, f := Scan(WithSafe(g), kt, b), Scan(g, kt, b);
    if s.Went? { ScansAgree(g, R, vt, b[s.n..]); }
    DecidedThen(s, f, Scan(WithSafe(g), vt, b[s.n..]), Scan(g, vt, b[f.n..]));
  }

  lemma {:induction false} EntryScansAgree(g: Gen, R: set<Name>, kt: Ty, vt: Ty, m: nat, b: Bytes)
    requires g.mode.Fast? && FieldByField(g, R) && Within(R, kt) && Within(R, vt)
    ensures Decided(ScanEntries(WithSafe(g), kt, vt, m, b), ScanEntries(g, kt, vt, m, b))
    decreases |b|, PairRank(g, kt, vt), TMap(kt, vt), m + 1
  {
    hide ScanPair, ScanEntries, WithSafe, FieldByField, Within;
    ScanEntriesStep(g, kt, vt, m, b);
    ScanEntriesStep(WithSafe(g), kt, vt, m, b);
    if m > 0 {
      PairScansAgree(g, R, kt, vt, b);
      var s, f := ScanPair(WithSafe(g), kt, vt, b), ScanPair(g, kt, vt, b);
      if s.Went? { EntryScansAgree(g, R, kt, vt, m - 1, b[s.n..]); }
      DecidedThen(s, f, ScanEntries(WithSafe(g), kt, vt, m - 1, b[s.n..]), ScanEntries(g, kt, vt, m - 1, b[f.n..]));
    }
  }

  /** Safe Unmarshal, on the safe codec, ends where strict decoding does. */
  lemma SafeStops(g: Gen, starts: Starts, fuel: nat, n: Name, d: Val, b: Bytes)
    requires HasTy(g, TStruct(n), d) && fuel >= Need(g, |b|, RankOf(g, n) + 1)
    ensures Ends(WithSafe(g), ScanMethod(WithSafe(g), n, b), Invoke(WithSafe(g), starts, fuel, n, d, b))
  {
    hide Invoke, ScanMethod, HasTy, WithSafe;
    SameDepth(g, n);
    TypedInBoth(g, TStruct(n), d);
    MethodStops(WithSafe(g), starts, fuel, n, d, b);
  }

  lemma SameDepth(g: Gen, n: Name)
    ensures WithSafe(g).height == g.height && RankOf(WithSafe(g), n) == RankOf(g, n)
  {}

  /** What safe Unmarshal of the target reports, fast Unmarshal reports too. */
  ghost predicate ReportsLikeSafe(g: Gen, starts: Starts, n: Name, d: Val, b: Bytes) {
    var fuel := Need(g, |b|, RankOf(g, n) + 1);
    var s, o := Invoke(WithSafe(g), starts, fuel, n, d, b), Invoke(g, starts, fuel, n, d, b);
    s.Return? && s.e == UnknownUnionTag ==> Reports(o, s.st.i)
  }

  /** The two modes' methods on the same bytes, where nothing is copied whole: a tag that
      safe Unmarshal reports is reported by fast Unmarshal, there, exactly when it is the
      target's own. */
  lemma OwnTagsLikeSafe(g: Gen, R: set<Name>, starts: Starts, n: Name, d: Val, b: Bytes)
    requires g.mode.Fast? && FieldByField(g, R) && n in R && HasTy(g, TStruct(n), d)
    ensures ReportsLikeSafe(g, starts, n, d, b) <==> !Dropped(ScanMethod(WithSafe(g), n, b))
  {
    hide Invoke, ScanMethod, ScanStruct, HasTy, WithSafe, FieldByField;
    var fuel := Need(g, |b|, RankOf(g, n) + 1);
    SameStructs(g);
    SafeStops(g, starts, fuel, n, d, b);
    FastReportsOwnTags(g, starts, fuel, n, d, b);
    StructScansAgree(g, R, n, b);
  }

  /** Both modes report the same unknown tags on every input exactly for targets with no
      union below a nested struct or member. */
  lemma ModesReportAlike(g: Gen, R: set<Name>, starts: Starts, n: Name, d: Val)
    requires g.mode.Fast? && FieldByField(g, R) && n in R && HasTy(g, TStruct(n), d)
    ensures (forall b :: ReportsLikeSafe(g, starts, n, d, b)) <==> !UnionBelow(g, n, true)
  {
    hide ScanMethod, HasTy, WithSafe, FieldByField, UnionBelow, ReportsLikeSafe;
    UnionsInBoth(g, n);
    if UnionBelow(g, n, true) {
      var b := WayHasTag(WithSafe(g), n, true);
      OwnTagsLikeSafe(g, R, starts, n, d, b);
      assert !ReportsLikeSafe(g, starts, n, d, b);
    } else {
      forall b ensures ReportsLikeSafe(g, starts, n, d, b) {
        OwnTagsLikeSafe(g, R, starts, n, d, b);
        if Dropped(ScanMethod(WithSafe(g), n, b)) { TagHasWay(WithSafe(g), n, b); }
      }
    }
  }

  lemma UnionsInBoth(g: Gen, n: Name)
    ensures UnionBelow(WithSafe(g), n, true) == UnionBelow(g, n, true)
  {
    hide Leads, Nested, WithSafe;
    SameStructs(g);
    forall ty, p ensures Leads(WithSafe(g), ty, p) == Leads(g, ty, p) { LeadsInBoth(g, ty, p); }
  }

  lemma {:induction false} LeadsInBoth(g: Gen, ty: Ty, p: Path)
    ensures Leads(WithSafe(g), ty, p) == Leads(g, ty, p)
    decreases p
  {
    hide WithSafe;
    SameStructs(g);
    match p
    case Here =>
    case Elem(q) => if ty.TSlice? || ty.TArray? { LeadsInBoth(g, ty.elem, q); }
    case Deref(q) => if ty.TPtr? { LeadsInBoth(g, ty.elem, q); }
    case Key(q) => if ty.TMap? { LeadsInBoth(g, ty.key, q); }
    case Value(q) => if ty.TMap? { LeadsInBoth(g, ty.val, q); }
    case In(k, q) => if ty.TStruct? && k < |FieldsOf(g, ty.name)| { LeadsInBoth(g, FieldsOf(g, ty.name)[k], q); }
    case Into(t, k, q) =>
      if ty.TUnion? && t < |ty.members| && k < |FieldsOf(g, ty.members[t])| {
        LeadsInBoth(g, FieldsOf(g, ty.members[t])[k], q);
      }
  }

  // ---------------------------------------------------------------------
  // A tag that is lost
  // ---------------------------------------------------------------------

  const UNION := TUnion(["Leaf"])
  const STRUCTS: map<Name, seq<Ty>> := map["Out" := [TStruct("In"), UNION], "In" := [UNION], "Leaf" := []]

  /** A package in which `Out` holds an `In` and a union, and `In` holds one, of the one
      member `Leaf`. */
  function NestedUnion(mode: Mode): (g: Gen)
    ensures g.mode == mode && FieldsOf(g, "Out") == [TStruct("In"), UNION] && FieldsOf(g, "In") == [UNION]
    ensures !Blittable(g, "Out") && !Blittable(g, "In")
  {
    NestedUnionWf(mode);
    Gen(STRUCTS, map["Out" := 1], 2, mode)
  }

  lemma NestedUnionWf(mode: Mode)
    ensures var g := Gen(STRUCTS, map["Out" := 1], 2, mode); Wf(g) && !Blittable(g, "Out") && !Blittable(g, "In")
  {
    var g := Gen(STRUCTS, map["Out" := 1], 2, mode);
    assert FieldsRank(g, [UNION]) == 0 by { assert [UNION][1..] == []; }
    assert FieldsRank(g, [TStruct("In"), UNION]) == 1 by { assert [TStruct("In"), UNION][1..] == [UNION]; }
    assert !IsFixedWidth([TStruct("In"), UNION][0]) && !IsFixedWidth([UNION][0]);
  }

  /** Tag 2 names no member. Safe mode reports it; fast mode, whose documentation promises
      the same error, returns success with the old member in place. Where another unknown
      tag follows, fast mode reports that one. */
  lemma FastDropsNestedTag(mode: Mode, starts: Starts, fuel: nat, u: Val)
    requires fuel >= 12 && HasTy(NestedUnion(mode), UNION, u)
    ensures var g, d := NestedUnion(mode), VStruct([VStruct([u], []), VNil], []);
            var o, p := Invoke(g, starts, fuel, "Out", d, [2, 0]), Invoke(g, starts, fuel, "Out", d, [2, 2]);
            if mode.Safe? then Reports(o, 0) && Reports(p, 0)
            else o.Next? && o.st.i == 2 && o.st.recv == d && Reports(p, 2)
  {
    hide Invoke, DecFieldsInto, FieldsHaveTy, NestedUnion, HasTy;
    var g, inner := NestedUnion(mode), VStruct([u], []);
    var d := VStruct([inner, VNil], []);
    NestedTyped(mode, u);
    NestedNeed(mode);
    forall t: byte ensures DecFieldsInto(g, [TStruct("In"), UNION], [inner, VNil], [2, t]) ==
                     if mode.Safe? then Out([inner, VNil], 0, UnknownUnionTag)
                     else var q := DecInto(g, UNION, VNil, [t]); Out([inner, q.v], 1 + q.n, q.e)
    {
      InnerFails(mode, u, [t]);
      TwoFieldsInto(g, TStruct("In"), UNION, inner, VNil, [2, t]);
      assert [2, t][1..] == [t] && [2] + [t] == [2, t];
    }
    OuterTag(g);
    MethodCode(g, starts, fuel, "Out", d, [2, 0]);
    MethodCode(g, starts, fuel, "Out", d, [2, 2]);
    assert d.fields[..0] + [inner, VNil] == [inner, VNil];
  }

  lemma NestedNeed(mode: Mode)
    ensures Need(NestedUnion(mode), 2, RankOf(NestedUnion(mode), "Out") + 1) <= 12
  {}

  lemma NestedTyped(mode: Mode, u: Val)
    requires HasTy(NestedUnion(mode), UNION, u)
    ensures HasTy(NestedUnion(mode), TStruct("Out"), VStruct([VStruct([u], []), VNil], []))
  {
    hide NestedUnion;
    var g, inner := NestedUnion(mode), VStruct([u], []);
    assert FieldsHaveTy(g, [UNION], [u]) by { assert [UNION][1..] == [] && [u][1..] == []; }
    assert HasTy(g, TStruct("In"), inner);
    assert HasTy(g, UNION, VNil);
    assert FieldsHaveTy(g, [UNION], [VNil]) by { assert [UNION][1..] == [] && [VNil][1..] == []; }
    var ds := [inner, VNil];
    assert [TStruct("In"), UNION][1..] == [UNION] && ds[1..] == [VNil];
    assert FieldsHaveTy(g, [TStruct("In"), UNION], ds);
  }

  lemma InnerFails(mode: Mode, u: Val, w: Bytes)
    ensures DecInto(NestedUnion(mode), TStruct("In"), VStruct([u], []), [2] + w)
         == Out(VStruct([u], []), if mode.Safe? then 0 else 1, if mode.Safe? then UnknownUnionTag else NoErr)
  {
    hide DecFieldsInto, Uvarint, NestedUnion;
    var g := NestedUnion(mode);
    UvarintInvertsLeb(2, w);
    assert Leb(2) == [2];
    assert DecUnionInto(g, ["Leaf"], u, [2] + w) == Out(u, 1, UnknownUnionTag);
    OneFieldInto(g, UNION, u, [2] + w);
  }

  lemma OuterTag(g: Gen)
    ensures DecInto(g, UNION, VNil, [0]) == Out(VNil, 1, NoErr)
    ensures DecInto(g, UNION, VNil, [2]) == Out(VNil, 1, UnknownUnionTag)
  {
    hide Uvarint, DecStructInto;
    UvarintInvertsLeb(0, []);
    UvarintInvertsLeb(2, []);
    assert Leb(0) + [] == [0] && Leb(2) + [] == [2];
  }
}
