/** Go walks a map in an order of its own each time; what does not depend on it. */
module Orders {
  import opened Schema
  import opened Codec

  /** The same value, its maps walked in other orders. */
  ghost predicate Reordered(v: Val, w: Val)
    decreases v, 0
  {
    match v
    case VSlice(isNil, es, _) => w.VSlice? && w.isNil == isNil && AllReordered(es, w.elems)
    case VArr(es) => w.VArr? && AllReordered(es, w.elems)
    case VRef(x) => w.VRef? && Reordered(x, w.v)
    case VMem(t, x) => w.VMem? && w.tag == t && Reordered(x, w.v)
    case VMap(isNil, es) => w.VMap? && w.isNil == isNil && EntriesReordered(es, w.entries)
    case VStruct(fs, pad) => w.VStruct? && w.pad == pad && AllReordered(fs, w.fields)
    case _ => v == w
  }

  ghost predicate AllReordered(vs: seq<Val>, ws: seq<Val>)
    decreases vs, 0
  {
    |vs| == |ws| && (vs == [] || (Reordered(vs[0], ws[0]) && AllReordered(vs[1..], ws[1..])))
  }

  ghost predicate EntryReordered(e: Entry, f: Entry)
    decreases e, 0
  {
    Reordered(e.k, f.k) && Reordered(e.v, f.v)
  }

  function Without(es: seq<Entry>, j: nat): (r: seq<Entry>)
    requires j < |es|
    ensures |r| == |es| - 1
  {
    es[..j] + es[j + 1..]
  }

  ghost predicate EntriesReordered(es: seq<Entry>, fs: seq<Entry>)
    decreases es, 0
  {
    && |es| == |fs|
    && (es == [] || exists j :: 0 <= j < |fs| && EntryReordered(es[0], fs[j]) && EntriesReordered(es[1..], Without(fs, j)))
  }

  /** The encoded length is the same in every order, so Size is exact for Marshal even
      when the two walk a map differently. */
  lemma {:induction false} LengthAnyOrder(g: Gen, ty: Ty, v: Val, w: Val)
    requires Reordered(v, w)
    ensures |Enc(g, ty, v)| == |Enc(g, ty, w)|
    decreases v, 2
  {
    hide EncElems, EncStruct, EncEntries, AllReordered, EntriesReordered;
    match ty
    case TSlice(e, _) => if v.VSlice? { ElemsAnyOrder(g, e, v.elems, w.elems); }
    case TArray(_, e, _) => if v.VArr? { ElemsAnyOrder(g, e, v.elems, w.elems); }
    case TPtr(e, _) => if v.VRef? { LengthAnyOrder(g, e, v.v, w.v); }
    case TMap(kt, vt, _) => if v.VMap? { EntriesAnyOrder(g, kt, vt, v.entries, w.entries); }
    case TStruct(n) => StructAnyOrder(g, n, v, w);
    case TUnion(ms) => if v.VMem? && v.tag < |ms| { StructAnyOrder(g, ms[v.tag], v.v, w.v); }
    case _ =>
  }

  lemma {:induction false} StructAnyOrder(g: Gen, n: Name, v: Val, w: Val)
    requires Reordered(v, w)
    ensures |EncStruct(g, n, v)| == |EncStruct(g, n, w)|
    decreases v, 1
  {
    hide EncFields;
    if v.VStruct? && |v.fields| == |FieldsOf(g, n)| { FieldsAnyOrder(g, FieldsOf(g, n), v.fields, w.fields); }
  }

  lemma {:induction false} ElemsAnyOrder(g: Gen, e: Ty, vs: seq<Val>, ws: seq<Val>)
    requires AllReordered(vs, ws)
    ensures |vs| == |ws| && |EncElems(g, e, vs)| == |EncElems(g, e, ws)|
    decreases vs, 1
  {
    if !RawElems(g, e) { SeqAnyOrder(g, e, vs, ws); }
  }

  lemma {:induction false} SeqAnyOrder(g: Gen, e: Ty, vs: seq<Val>, ws: seq<Val>)
    requires AllReordered(vs, ws)
    ensures |EncSeq(g, e, vs)| == |EncSeq(g, e, ws)|
    decreases vs, 0
  {
    hide Enc, Reordered;
    if vs != [] {
      LengthAnyOrder(g, e, vs[0], ws[0]);
      SeqAnyOrder(g, e, vs[1..], ws[1..]);
    }
  }

  lemma {:induction false} FieldsAnyOrder(g: Gen, tys: seq<Ty>, vs: seq<Val>, ws: seq<Val>)
    requires AllReordered(vs, ws) && |tys| == |vs|
    ensures |vs| == |ws| && |EncFields(g, tys, vs)| == |EncFields(g, tys, ws)|
    decreases vs, 0
  {
    hide Enc, Reordered;
    if vs != [] {
      LengthAnyOrder(g, tys[0], vs[0], ws[0]);
      FieldsAnyOrder(g, tys[1..], vs[1..], ws[1..]);
    }
  }

  lemma {:induction false} EntriesAnyOrder(g: Gen, kt: Ty, vt: Ty, es: seq<Entry>, fs: seq<Entry>)
    requires EntriesReordered(es, fs)
    ensures |es| == |fs| && |EncEntries(g, kt, vt, es)| == |EncEntries(g, kt, vt, fs)|
    decreases es, 1
  {
    hide EncEntry, EntryReordered;
    if es != [] {
      var j :| 0 <= j < |fs| && EntryReordered(es[0], fs[j]) && EntriesReordered(es[1..], Without(fs, j));
      EntryAnyOrder(g, kt, vt, es[0], fs[j]);
      EntriesAnyOrder(g, kt, vt, es[1..], Without(fs, j));
      PulledOut(g, kt, vt, fs, j);
    }
  }

  lemma {:induction false} EntryAnyOrder(g: Gen, kt: Ty, vt: Ty, e: Entry, f: Entry)
    requires EntryReordered(e, f)
    ensures |EncEntry(g, kt, vt, e)| == |EncEntry(g, kt, vt, f)|
    decreases e, 0
  {
    hide Enc, Reordered;
    LengthAnyOrder(g, kt, e.k, f.k);
    LengthAnyOrder(g, vt, e.v, f.v);
  }

  lemma {:induction false} PulledOut(g: Gen, kt: Ty, vt: Ty, fs: seq<Entry>, j: nat)
    requires j < |fs|
    ensures |EncEntries(g, kt, vt, fs)| == |EncEntry(g, kt, vt, fs[j])| + |EncEntries(g, kt, vt, Without(fs, j))|
  {
    hide EncEntry;
    if j == 0 {
      assert Without(fs, 0) == fs[1..];
    } else {
      PulledOut(g, kt, vt, fs[1..], j - 1);
      assert Without(fs, j)[1..] == Without(fs[1..], j - 1);
      assert Without(fs, j)[0] == fs[0];
    }
  }

  // ---------------------------------------------------------------------
  // Every order is covered
  // ---------------------------------------------------------------------

  /** Any two walks over the same entries are related. */
  lemma {:induction false} AnyWalk(isNil: bool, es: seq<Entry>, fs: seq<Entry>)
    requires multiset(es) == multiset(fs)
    ensures Reordered(VMap(isNil, es), VMap(isNil, fs))
  {
    PermutedEntries(es, fs);
  }

  lemma {:induction false} PermutedEntries(es: seq<Entry>, fs: seq<Entry>)
    requires multiset(es) == multiset(fs)
    ensures EntriesReordered(es, fs)
  {
    hide EntryReordered, EntriesReordered;
    SameCount(es, fs);
    if es != [] {
      assert es[0] in multiset(fs);
      var j :| 0 <= j < |fs| && fs[j] == es[0];
      SameRest(es, fs, j);
      PermutedEntries(es[1..], Without(fs, j));
      EntrySame(es[0]);
      PickOne(es, fs, j);
    } else {
      NoEntries(es, fs);
    }
  }

  lemma NoEntries(es: seq<Entry>, fs: seq<Entry>)
    requires es == [] && fs == []
    ensures EntriesReordered(es, fs)
  {}

  lemma PickOne(es: seq<Entry>, fs: seq<Entry>, j: nat)
    requires |es| == |fs| && j < |fs| && es != []
    requires EntryReordered(es[0], fs[j]) && EntriesReordered(es[1..], Without(fs, j))
    ensures EntriesReordered(es, fs)
  {
    hide EntryReordered;
  }

  lemma SameRest(es: seq<Entry>, fs: seq<Entry>, j: nat)
    requires multiset(es) == multiset(fs) && es != [] && j < |fs| && fs[j] == es[0]
    ensures multiset(es[1..]) == multiset(Without(fs, j))
  {
    assert fs == fs[..j] + [es[0]] + fs[j + 1..];
    assert es == [es[0]] + es[1..];
    assert multiset(es) == multiset{es[0]} + multiset(es[1..]);
    assert multiset(fs) == multiset(fs[..j]) + multiset{es[0]} + multiset(fs[j + 1..]);
    assert multiset(Without(fs, j)) == multiset(fs[..j]) + multiset(fs[j + 1..]);
    assert multiset(es[1..]) == multiset(es) - multiset{es[0]};
    assert multiset(Without(fs, j)) == multiset(fs) - multiset{es[0]};
  }

  lemma SameCount(es: seq<Entry>, fs: seq<Entry>)
    requires multiset(es) == multiset(fs)
    ensures |es| == |fs|
  {
    assert |multiset(es)| == |es| && |multiset(fs)| == |fs|;
  }

  lemma {:induction false} ReorderedSame(v: Val)
    ensures Reordered(v, v)
    decreases v, 0
  {
    hide AllReordered, EntriesReordered;
    match v
    case VSlice(_, es, _) => AllSame(es);
    case VArr(es) => AllSame(es);
    case VRef(x) => ReorderedSame(x);
    case VMem(_, x) => ReorderedSame(x);
    case VMap(_, es) => EntriesSame(es);
    case VStruct(fs, _) => AllSame(fs);
    case _ =>
  }

  lemma {:induction false} AllSame(vs: seq<Val>)
    ensures AllReordered(vs, vs)
    decreases vs, 0
  {
    if vs != [] {
      ReorderedSame(vs[0]);
      AllSame(vs[1..]);
    }
  }

  lemma {:induction false} EntrySame(e: Entry)
    ensures EntryReordered(e, e)
    decreases e, 0
  {
    ReorderedSame(e.k);
    ReorderedSame(e.v);
  }

  lemma {:induction false} EntriesSame(es: seq<Entry>)
    ensures EntriesReordered(es, es)
    decreases es, 1
  {
    hide EntryReordered;
    if es != [] {
      EntrySame(es[0]);
      EntriesSame(es[1..]);
      assert Without(es, 0) == es[1..];
    }
  }
}
