/** What encoding reads of a value, in both modes. */
module Content {
  import opened Bytes
  import opened Schema
  import opened Memory
  import opened Codec

  /** The value without the content of skipped fields and without stale capacity; the raw
      memory between a struct's fields stays. */
  function Strip(v: Val): Val
    decreases v, 0
  {
    match v
    case VSlice(isNil, es, _) => VSlice(isNil, StripSeq(es), [])
    case VArr(es) => VArr(StripSeq(es))
    case VRef(w) => VRef(Strip(w))
    case VMem(t, w) => VMem(t, Strip(w))
    case VMap(isNil, es) => VMap(isNil, StripEntries(es))
    case VStruct(fs, pad) => VStruct(StripSeq(fs), pad)
    case VOpaque(_) => VOpaque(0)
    case _ => v
  }

  function StripSeq(vs: seq<Val>): (r: seq<Val>)
    ensures |r| == |vs|
    decreases vs
  {
    if vs == [] then [] else [Strip(vs[0])] + StripSeq(vs[1..])
  }

  function StripEntry(e: Entry): Entry
    decreases e
  {
    Entry(Strip(e.k), Strip(e.v))
  }

  function StripEntries(es: seq<Entry>): (r: seq<Entry>)
    ensures |r| == |es|
    decreases es
  {
    if es == [] then [] else [StripEntry(es[0])] + StripEntries(es[1..])
  }

  lemma {:induction false} StripAt(vs: seq<Val>, k: nat)
    requires k < |vs|
    ensures StripSeq(vs)[k] == Strip(vs[k])
  {
    if k > 0 { StripAt(vs[1..], k - 1); }
  }

  // ---------------------------------------------------------------------
  // Raw memory
  // ---------------------------------------------------------------------

  lemma {:induction false} RawOfStrip(big: bool, ty: Ty, v: Val)
    ensures Raw(big, ty, Strip(v)) == Raw(big, ty, v)
    decreases ty, 0
  {
    if ty.TArray? && v.VArr? { RawSeqOfStrip(big, ty.elem, ty.len, v.elems); }
  }

  lemma {:induction false} RawSeqOfStrip(big: bool, e: Ty, n: nat, vs: seq<Val>)
    ensures RawSeq(big, e, n, StripSeq(vs)) == RawSeq(big, e, n, vs)
    decreases e, n + 1
  {
    hide Raw;
    if n > 0 {
      if vs == [] {
        RawSeqOfStrip(big, e, n - 1, []);
      } else {
        RawOfStrip(big, e, vs[0]);
        RawSeqOfStrip(big, e, n - 1, vs[1..]);
      }
    }
  }

  lemma {:induction false} OverlayOfStrip(big: bool, tys: seq<Ty>, offs: seq<nat>, vs: seq<Val>, k: nat, m: Bytes)
    requires |vs| == |tys| == |offs| && k <= |tys|
    requires forall j :: 0 <= j < |tys| ==> offs[j] + RawWidth(tys[j]) <= |m|
    ensures Overlay(big, tys, offs, StripSeq(vs), k, m) == Overlay(big, tys, offs, vs, k, m)
  {
    hide Raw, RawWidth;
    if k > 0 {
      OverlayOfStrip(big, tys, offs, vs, k - 1, m);
      StripAt(vs, k - 1);
      RawOfStrip(big, tys[k - 1], vs[k - 1]);
    }
  }

  // ---------------------------------------------------------------------
  // Encodings
  // ---------------------------------------------------------------------

  lemma {:induction false} EncOfStrip(g: Gen, ty: Ty, v: Val)
    ensures Enc(g, ty, Strip(v)) == Enc(g, ty, v)
    decreases v, 2
  {
    hide EncElems, EncStruct, EncEntries, StripSeq, StripEntries;
    match ty
    case TSlice(e, _) => if v.VSlice? { ElemsOfStrip(g, e, v.elems); }
    case TArray(_, e, _) => if v.VArr? { ElemsOfStrip(g, e, v.elems); }
    case TPtr(e, _) => if v.VRef? { EncOfStrip(g, e, v.v); }
    case TMap(kt, vt, _) => if v.VMap? { EntriesOfStrip(g, kt, vt, v.entries); }
    case TStruct(n) => StructOfStrip(g, n, v);
    case TUnion(ms) => if v.VMem? && v.tag < |ms| { StructOfStrip(g, ms[v.tag], v.v); }
    case _ =>
  }

  lemma {:induction false} StructOfStrip(g: Gen, n: Name, v: Val)
    ensures EncStruct(g, n, Strip(v)) == EncStruct(g, n, v)
    decreases v, 1
  {
    hide EncFields, Overlay;
    if v.VStruct? && |v.fields| == |FieldsOf(g, n)| {
      if Blittable(g, n) {
        OverlayOfStrip(g.mode.lay.big, FieldsOf(g, n), Offsets(g, n), v.fields, |v.fields|, Background(v.pad, Sizeof(g, n)));
      } else {
        FieldsOfStrip(g, FieldsOf(g, n), v.fields);
      }
    }
  }

  lemma {:induction false} FieldsOfStrip(g: Gen, tys: seq<Ty>, vs: seq<Val>)
    requires |tys| == |vs|
    ensures EncFields(g, tys, StripSeq(vs)) == EncFields(g, tys, vs)
    decreases vs, 0
  {
    hide Enc, Strip;
    if vs != [] {
      EncOfStrip(g, tys[0], vs[0]);
      FieldsOfStrip(g, tys[1..], vs[1..]);
    }
  }

  lemma {:induction false} ElemsOfStrip(g: Gen, e: Ty, vs: seq<Val>)
    ensures EncElems(g, e, StripSeq(vs)) == EncElems(g, e, vs)
    decreases vs, 1
  {
    hide EncSeq, RawSeq, StripSeq;
    if RawElems(g, e) { RawSeqOfStrip(g.mode.lay.big, e, |vs|, vs); } else { SeqOfStrip(g, e, vs); }
  }

  lemma {:induction false} SeqOfStrip(g: Gen, e: Ty, vs: seq<Val>)
    ensures EncSeq(g, e, StripSeq(vs)) == EncSeq(g, e, vs)
    decreases vs, 0
  {
    hide Enc, Strip;
    if vs != [] {
      EncOfStrip(g, e, vs[0]);
      SeqOfStrip(g, e, vs[1..]);
    }
  }

  lemma {:induction false} EntriesOfStrip(g: Gen, kt: Ty, vt: Ty, es: seq<Entry>)
    ensures EncEntries(g, kt, vt, StripEntries(es)) == EncEntries(g, kt, vt, es)
    decreases es, 1
  {
    hide EncEntry, StripEntry;
    if es != [] {
      EntryOfStrip(g, kt, vt, es[0]);
      EntriesOfStrip(g, kt, vt, es[1..]);
    }
  }

  lemma {:induction false} EntryOfStrip(g: Gen, kt: Ty, vt: Ty, e: Entry)
    ensures EncEntry(g, kt, vt, StripEntry(e)) == EncEntry(g, kt, vt, e)
    decreases e, 0
  {
    hide Enc, Strip;
    EncOfStrip(g, kt, e.k);
    EncOfStrip(g, vt, e.v);
  }

  /** In both modes, values that differ only in skipped fields and stale capacity have the
      same encoding: no byte of either reaches the wire. */
  lemma SkippedNeverWritten(g: Gen, n: Name, v: Val, w: Val)
    requires Strip(v) == Strip(w)
    ensures EncStruct(g, n, v) == EncStruct(g, n, w)
  {
    StructOfStrip(g, n, v);
    StructOfStrip(g, n, w);
  }
}
