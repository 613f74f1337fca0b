/** What the generated Unmarshal methods promise their callers. */
module Unmarshal {
  import opened Bytes
  import opened Schema
  import opened Memory
  import opened Codec
  import opened Reuse
  import opened Strict
  import opened Program
  import opened EmitCorrect
  import opened RoundTrip
  import opened Destination
  import opened Stability
  import opened Guarantees

  /** The method ended as the reference decoder of the target's fields says: the same
      offset and error, and on success the same serialized content. */
  ghost predicate Decoded(q: Result<seq<Val>>, o: Outcome) {
    match q
    case Ok(vs, n) =>
      && o.Next? && o.st.i == n && o.st.recv.VStruct?
      && CleanSeq(o.st.recv.fields, false) == vs
    case Fail(e, n) => o.Return? && o.e == e && o.st.i == n
  }

  /** Safe mode: on every input and into every destination, within a call depth linear in
      the input, the emitted program decodes exactly as the reference decoder does. It
      follows that it never indexes outside `b`, never asks for more elements than bytes
      remain, and never fails but with one of the two errors. */
  lemma SafeUnmarshal(g: Gen, starts: Starts, fuel: nat, n: Name, d: Val, b: Bytes)
    requires g.mode.Safe? && HasTy(g, TStruct(n), d) && fuel >= Need(g, |b|, RankOf(g, n) + 1)
    ensures Decoded(DecFields(g, FieldsOf(g, n), b), Invoke(g, starts, fuel, n, d, b))
  {
    hide Invoke, DecFields, DecFieldsInto, FieldsHaveTy;
    StructWf(g, n);
    MethodCode(g, starts, fuel, n, d, b);
    FieldsIndependent(g, {}, FieldsOf(g, n), d.fields, b);
    var q := DecFieldsInto(g, FieldsOf(g, n), d.fields, b);
    assert d.fields[..0] + q.v == q.v;
  }

  /** Safe mode is total on arbitrary bytes. */
  lemma SafeTotal(g: Gen, starts: Starts, n: Name, d: Val, b: Bytes)
    requires g.mode.Safe? && HasTy(g, TStruct(n), d)
    ensures var o := Invoke(g, starts, Need(g, |b|, RankOf(g, n) + 1), n, d, b);
            && (o.Next? || (o.Return? && o.e in {ShortBuffer, UnknownUnionTag}))
            && 0 <= o.st.i <= |b|
  {
    hide Invoke, DecFields, HasTy;
    SafeUnmarshal(g, starts, Need(g, |b|, RankOf(g, n) + 1), n, d, b);
    var q := DecFields(g, FieldsOf(g, n), b);
  }

  /** However a safe Unmarshal ends, the receiver is still a value of its type, ready for
      the next decode, and every skipped field it keeps is untouched. */
  lemma ReceiverKept(g: Gen, starts: Starts, fuel: nat, n: Name, d: Val, b: Bytes)
    requires g.mode.Safe? && HasTy(g, TStruct(n), d) && fuel >= Need(g, |b|, RankOf(g, n) + 1) && |b| <= MAX_LEN
    ensures var o := Invoke(g, starts, fuel, n, d, b);
            (o.Next? || o.Return?) && HasTy(g, TStruct(n), o.st.recv) && Kept(g, TStruct(n), d, o.st.recv)
  {
    hide Invoke, DecFields, DecFieldsInto, FieldsHaveTy, FieldsKept;
    SafeUnmarshal(g, starts, fuel, n, d, b);
    MethodCode(g, starts, fuel, n, d, b);
    StructWf(g, n);
    FieldsAreTyped(g, n, d);
    FieldsStaySane(g, FieldsOf(g, n), d.fields, b);
    var q := DecFieldsInto(g, FieldsOf(g, n), d.fields, b);
    assert d.fields[..0] + q.v == q.v;
  }

  /** A skipped field is the same after Unmarshal as before, in either mode, however it
      ends. */
  lemma SkippedUntouched(g: Gen, starts: Starts, fuel: nat, n: Name, d: Val, b: Bytes, k: nat)
    requires HasTy(g, TStruct(n), d) && fuel >= Need(g, |b|, RankOf(g, n) + 1)
    requires k < |FieldsOf(g, n)| && FieldsOf(g, n)[k].TSkip?
    ensures var o := Invoke(g, starts, fuel, n, d, b);
            || o.Crash?
            || ((o.Next? || o.Return?) && o.st.recv.VStruct? && d.VStruct? && k < |o.st.recv.fields| == |d.fields|
                && o.st.recv.fields[k] == d.fields[k])
  {
    hide Invoke, DecFieldsInto, FieldsHaveTy, FieldsKept;
    var tys := FieldsOf(g, n);
    assert !Blittable(g, n) by { assert !IsFixedWidth(tys[k]); }
    StructWf(g, n);
    FieldsAreTyped(g, n, d);
    MethodCode(g, starts, fuel, n, d, b);
    FieldsStaySane(g, tys, d.fields, b);
    var q := DecFieldsInto(g, tys, d.fields, b);
    FieldsKeptAt(g, tys, d.fields, q.v, k);
    assert d.fields[..0] + q.v == q.v;
  }

  /** What Marshal wrote, followed by anything, the emitted Unmarshal reads back: in fast
      mode always, in safe mode exactly when the length guards allow it. */
  lemma MethodRoundTrip(g: Gen, starts: Starts, fuel: nat, n: Name, d: Val, v: Val, s: Bytes)
    requires HasTy(g, TStruct(n), d) && HasTy(g, TStruct(n), v)
    requires fuel >= Need(g, |EncStruct(g, n, v) + s|, RankOf(g, n) + 1)
    ensures var o := Invoke(g, starts, fuel, n, d, EncStruct(g, n, v) + s);
            if g.mode.Safe? && !FitsStruct(g, n, v, |s|) then o.Return? && o.e == ShortBuffer
            else o.Next? && o.st.i == |EncStruct(g, n, v)| && View(o.st.recv) == Norm(v)
  {
    hide Invoke, DecStructInto, EncFields, FitsFields, HasTy, Image, LoadFields;
    FieldsOfTyped(g, n, v);
    if Blittable(g, n) {
      MemmoveRoundTrip(g, starts, fuel, n, d, v, s);
    } else {
      StructWf(g, n);
      FieldsOfTyped(g, n, d);
      FieldsRoundTrip(g, FieldsOf(g, n), d.fields, v.fields, s);
      MethodCode(g, starts, fuel, n, d, EncStruct(g, n, v) + s);
      FieldsRestored(g, n, d, v, DecFieldsInto(g, FieldsOf(g, n), d.fields, EncStruct(g, n, v) + s), FitsStruct(g, n, v, |s|),
                     Invoke(g, starts, fuel, n, d, EncStruct(g, n, v) + s), |EncStruct(g, n, v)|);
    }
  }

  lemma MemmoveRoundTrip(g: Gen, starts: Starts, fuel: nat, n: Name, d: Val, v: Val, s: Bytes)
    requires Blittable(g, n) && HasTy(g, TStruct(n), v) && fuel > 0
    ensures var o := Invoke(g, starts, fuel, n, d, EncStruct(g, n, v) + s);
            o.Next? && o.st.i == |EncStruct(g, n, v)| && View(o.st.recv) == Norm(v)
  {
    hide Invoke, LoadFields, Image;
    StructRoundTrips(g, n, d, v, s);
    MemmoveCode(g, starts, fuel, n, d, EncStruct(g, n, v) + s);
  }

  lemma FieldsRestored(g: Gen, n: Name, d: Val, v: Val, q: Out<seq<Val>>, fits: bool, o: Outcome, len: nat)
    requires d.VStruct? && v.VStruct? && FieldsMatch(Frame(d), 0, q, o) && RestoresSeq(g, fits, q, v.fields, len)
    ensures if g.mode.Safe? && !fits then o.Return? && o.e == ShortBuffer
            else o.Next? && o.st.i == len && View(o.st.recv) == Norm(v)
  {
    hide CleanSeq;
    assert d.fields[..0] + q.v == q.v;
  }

  /** The reference decoder of a target, in terms of its fields. */
  lemma DecIsFields(g: Gen, n: Name, b: Bytes)
    ensures var q := DecFields(g, FieldsOf(g, n), b);
            Dec(g, TStruct(n), b) == if q.Ok? then Ok(VStruct(q.v, []), q.n) else Fail(q.e, 0)
  {
    hide DecFields;
  }

  /** A strict prefix of what Marshal wrote is a short buffer to the emitted Unmarshal. */
  lemma MethodTruncated(g: Gen, starts: Starts, fuel: nat, n: Name, d: Val, v: Val, k: nat)
    requires g.mode.Safe? && HasTy(g, TStruct(n), d) && HasTy(g, TStruct(n), v) && k < |EncStruct(g, n, v)|
    requires fuel >= Need(g, k, RankOf(g, n) + 1)
    ensures var o := Invoke(g, starts, fuel, n, d, EncStruct(g, n, v)[..k]);
            o.Return? && o.e == ShortBuffer
  {
    hide Invoke, Dec, DecFields, EncStruct, HasTy;
    var b := EncStruct(g, n, v)[..k];
    TruncationDetected(g, TStruct(n), v, k);
    DecIsFields(g, n, b);
    SafeUnmarshal(g, starts, fuel, n, d, b);
  }

  /** A success, and an unknown tag at any depth, do not depend on what follows. */
  lemma {:induction false} MethodExtends(g: Gen, starts: Starts, fuel: nat, n: Name, d: Val, b: Bytes, s: Bytes)
    requires g.mode.Safe? && HasTy(g, TStruct(n), d) && fuel >= Need(g, |b + s|, RankOf(g, n) + 1)
    requires var o := Invoke(g, starts, fuel, n, d, b); o.Next? || (o.Return? && o.e == UnknownUnionTag)
    ensures var o, p := Invoke(g, starts, fuel, n, d, b), Invoke(g, starts, fuel, n, d, b + s);
            if o.Next? then p.Next? && p.st.i == o.st.i && View(p.st.recv) == View(o.st.recv)
            else p.Return? && p.e == UnknownUnionTag && p.st.i == o.st.i
  {
    hide Invoke, DecFields, HasTy;
    NeedSame(g, |b + s|, |b|, RankOf(g, n) + 1, RankOf(g, n) + 1);
    SafeUnmarshal(g, starts, fuel, n, d, b);
    SafeUnmarshal(g, starts, fuel, n, d, b + s);
    DecFieldsExtends(g, FieldsOf(g, n), b, s);
  }

  /** After any successful safe decode, duplicate keys and overlong counts included, the
      receiver encodes to no more bytes than were read, and decoding that encoding again,
      into any destination and before any trailing bytes, reads the same content. */
  lemma MethodNormalises(g: Gen, starts: Starts, fuel: nat, n: Name, d: Val, d': Val, b: Bytes, s: Bytes)
    requires g.mode.Safe? && WideRun(g) && |b| <= MAX_LEN && HasTy(g, TStruct(n), d) && HasTy(g, TStruct(n), d')
    requires Invoke(g, starts, fuel, n, d, b).Next? && fuel >= Need(g, |b|, RankOf(g, n) + 1)
    ensures var o := Invoke(g, starts, fuel, n, d, b);
            var w := EncStruct(g, n, o.st.recv);
            |w| <= o.st.i &&
            forall fuel' :: fuel' >= Need(g, |w + s|, RankOf(g, n) + 1) ==>
              var p := Invoke(g, starts, fuel', n, d', w + s);
              p.Next? && p.st.i == |w| && View(p.st.recv) == View(o.st.recv)
  {
    hide Invoke, Dec, DecFields, EncStruct, HasTy;
    var v := Invoke(g, starts, fuel, n, d, b).st.recv;
    SafeUnmarshal(g, starts, fuel, n, d, b);
    DecIsFields(g, n, b);
    DecodeNormalises(g, TStruct(n), b, s);
    StructOfView(g, n, v);
    var w := EncStruct(g, n, v);
    DecIsFields(g, n, w + s);
    forall fuel' | fuel' >= Need(g, |w + s|, RankOf(g, n) + 1)
      ensures var p := Invoke(g, starts, fuel', n, d', w + s);
              p.Next? && p.st.i == |w| && View(p.st.recv) == View(v)
    {
      SafeUnmarshal(g, starts, fuel', n, d', w + s);
    }
  }

  /** Two calls that ended alike: the same offset, and the same error or none. */
  ghost predicate EndAlike(o: Outcome, p: Outcome) {
    match o
    case Next(st) => p.Next? && p.st.i == st.i
    case Return(st, e) => p.Return? && p.e == e && p.st.i == st.i
    case Crash => p.Crash?
    case NoFuel => false
  }

  /** In either mode and byte order, and on any bytes, what the receiver held does not show
      in how Unmarshal ends; nor in the content, unless an error was met on the way. */
  lemma ReceiversAgree(g: Gen, starts: Starts, fuel: nat, n: Name, d: Val, d': Val, b: Bytes)
    requires HasTy(g, TStruct(n), d) && HasTy(g, TStruct(n), d') && fuel >= Need(g, |b|, RankOf(g, n) + 1)
    ensures var o, p := Invoke(g, starts, fuel, n, d, b), Invoke(g, starts, fuel, n, d', b);
            EndAlike(o, p) && (ScanMethod(g, n, b).Went? ==> o.Next? && View(o.st.recv) == View(p.st.recv))
  {
    hide Invoke, ScanFields, DecFieldsInto, FieldsHaveTy, LoadFields, CleanSeq;
    if Blittable(g, n) {
      MemmoveCode(g, starts, fuel, n, d, b);
      MemmoveCode(g, starts, fuel, n, d', b);
    } else {
      MethodCode(g, starts, fuel, n, d, b);
      MethodCode(g, starts, fuel, n, d', b);
      FieldListsAgree(g, FieldsOf(g, n), d.fields, d'.fields, b);
      var q, q' := DecFieldsInto(g, FieldsOf(g, n), d.fields, b), DecFieldsInto(g, FieldsOf(g, n), d'.fields, b);
      assert d.fields[..0] + q.v == q.v && d'.fields[..0] + q'.v == q'.v;
    }
  }

  // ---------------------------------------------------------------------
  // The encoding sees only the serialized content
  // ---------------------------------------------------------------------

  lemma {:induction false} EncOfView(g: Gen, ty: Ty, v: Val)
    requires g.mode.Safe?
    ensures Enc(g, ty, View(v)) == Enc(g, ty, v)
    decreases v, 1
  {
    hide EncSeq, EncStruct, EncEntries, CleanSeq, CleanEntries;
    match ty
    case TSlice(e, _) => if v.VSlice? { SeqOfView(g, e, v.elems); }
    case TArray(_, e, _) => if v.VArr? { SeqOfView(g, e, v.elems); }
    case TPtr(e, _) => if v.VRef? { EncOfView(g, e, v.v); }
    case TMap(kt, vt, _) => if v.VMap? { EntriesOfView(g, kt, vt, v.entries); }
    case TStruct(n) => StructOfView(g, n, v);
    case TUnion(ms) => if v.VMem? && v.tag < |ms| { StructOfView(g, ms[v.tag], v.v); }
    case _ =>
  }

  lemma {:induction false} StructOfView(g: Gen, n: Name, v: Val)
    requires g.mode.Safe?
    ensures EncStruct(g, n, View(v)) == EncStruct(g, n, v)
    decreases v, 0
  {
    hide EncFields;
    if v.VStruct? && |v.fields| == |FieldsOf(g, n)| { FieldsOfView(g, FieldsOf(g, n), v.fields); }
  }

  lemma {:induction false} FieldsOfView(g: Gen, tys: seq<Ty>, vs: seq<Val>)
    requires g.mode.Safe? && |tys| == |vs|
    ensures EncFields(g, tys, CleanSeq(vs, false)) == EncFields(g, tys, vs)
    decreases vs, 0
  {
    hide Enc, Clean;
    if vs != [] {
      EncOfView(g, tys[0], vs[0]);
      FieldsOfView(g, tys[1..], vs[1..]);
    }
  }

  lemma {:induction false} SeqOfView(g: Gen, e: Ty, vs: seq<Val>)
    requires g.mode.Safe?
    ensures EncSeq(g, e, CleanSeq(vs, false)) == EncSeq(g, e, vs)
    decreases vs, 0
  {
    hide Enc, Clean;
    if vs != [] {
      EncOfView(g, e, vs[0]);
      SeqOfView(g, e, vs[1..]);
    }
  }

  lemma {:induction false} EntriesOfView(g: Gen, kt: Ty, vt: Ty, es: seq<Entry>)
    requires g.mode.Safe?
    ensures EncEntries(g, kt, vt, CleanEntries(es, false)) == EncEntries(g, kt, vt, es)
    decreases es, 1
  {
    hide EncEntry, CleanEntry;
    if es != [] {
      EntryOfView(g, kt, vt, es[0]);
      EntriesOfView(g, kt, vt, es[1..]);
    }
  }

  lemma {:induction false} EntryOfView(g: Gen, kt: Ty, vt: Ty, e: Entry)
    requires g.mode.Safe?
    ensures EncEntry(g, kt, vt, CleanEntry(e, false)) == EncEntry(g, kt, vt, e)
    decreases e, 0
  {
    hide Enc, Clean;
    EncOfView(g, kt, e.k);
    EncOfView(g, vt, e.v);
  }
}
