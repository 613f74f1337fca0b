/** The hand-written reference codec: the same wire format as a generated one, but for an
    empty Blob, which it decodes to a non-nil slice. */
module Record {
  import opened Bytes
  import opened Varint
  import opened Words
  import opened Schema
  import opened Memory
  import opened Codec
  import opened Reuse
  import opened RoundTrip
  import opened Destination
  import Marshal

  const U32E := TScalar(KUint32, Builtin)

  const RECORD: seq<Ty> :=
    [TScalar(KUint64, Builtin), TScalar(KFloat64, Builtin), TScalar(KBool, Builtin), TStr(Builtin), TSlice(U32E), TSlice(BYTE)]

  /** A fast-mode run over no target: all a record needs is the machine's byte order. */
  function Machine(big: bool): Gen {
    Gen(map[], map[], 1, Fast(Layout(big, map[], map[])))
  }

  /** uint32 elements as values. */
  function Vals(s: seq<u32>): (vs: seq<Val>)
    ensures |vs| == |s|
  {
    seq(|s|, k requires 0 <= k < |s| => VNum(s[k]))
  }

  function Flag(b: bool): nat { if b then 1 else 0 }

  /** The memory of the Tags backing array. */
  function TagBytes(big: bool, tags: seq<u32>): (m: Bytes)
    ensures |m| == 4 * |tags|
  {
    RawSeq(big, U32E, |tags|, Vals(tags))
  }

  /** The wire form, in declaration order. */
  function WireForm(big: bool, id: u64, score: u64, active: bool, name: Bytes, tags: seq<u32>, blob: Bytes): Bytes {
    LE(id, 8) + LE(score, 8) + [Flag(active)] + Leb(|name|) + name + Leb(|tags|) + TagBytes(big, tags) + Leb(|blob|) + blob
  }

  /** The words in `n * 4` bytes of memory. */
  function TagWords(big: bool, n: nat, m: Bytes): (s: seq<u32>)
    requires |m| == n * 4
    ensures |s| == n
  {
    if n == 0 then [] else
      FromLEBound(Native(big, m[..4]));
      WordPowers();
      [FromLE(Native(big, m[..4]))] + TagWords(big, n - 1, m[4..])
  }

  lemma {:induction false} WordsAreLoaded(big: bool, n: nat, m: Bytes)
    requires |m| == n * 4
    ensures Vals(TagWords(big, n, m)) == LoadSeq(big, U32E, n, m)
  {
    hide FromLE;
    if n > 0 {
      WordsAreLoaded(big, n - 1, m[4..]);
      var s := TagWords(big, n, m);
      assert Vals(s)[0] == VNum(FromLE(Native(big, m[..4])));
      assert Vals(s) == [Vals(s)[0]] + Vals(s[1..]);
    } else {
      assert Vals([]) == [];
    }
  }

  lemma ValsNil()
    ensures Vals([]) == []
  {}

  lemma ValsJoin(s: seq<u32>, t: seq<u32>)
    ensures Vals(s) + Vals(t) == Vals(s + t)
  {}

  lemma ValsDrop(s: seq<u32>, n: nat)
    ensures n <= |s| ==> Vals(s)[n..] == Vals(s[n..])
  {}

  /** What fast mode does with a []uint32. */
  lemma TagsDecode(big: bool, d: Val, b: Bytes)
    requires DecInto(Machine(big), TSlice(U32E), d, b).e == NoErr
    ensures var (nn, cc) := Uvarint(b);
            cc > 0 && (nn > 0 ==> cc + 4 * nn <= |b|) &&
            DecInto(Machine(big), TSlice(U32E), d, b) ==
              if nn == 0 then Out(NIL_SLICE, cc, NoErr)
              else
                Out(VSlice(false, LoadSeq(big, U32E, nn, b[cc..cc + 4 * nn]),
                           if |Backing(d)| >= nn then Backing(d)[nn..] else []), cc + 4 * nn, NoErr)
  {
    hide Uvarint, LoadSeq, DecElemsInto;
    var (nn, cc) := Uvarint(b);
    if cc > 0 && nn > 0 { WordsDecode(big, Grow(d, nn, Zero(Machine(big), U32E)).elems, b[cc..]); }
    if cc > 0 && cc + 4 * nn <= |b| { assert b[cc..][..4 * nn] == b[cc..cc + 4 * nn]; }
  }

  lemma WordsDecode(big: bool, ds: seq<Val>, b: Bytes)
    ensures DecElemsInto(Machine(big), U32E, ds, b) ==
              if |b| < 4 * |ds| then Out(ds, 0, Unchecked)
              else Out(LoadSeq(big, U32E, |ds|, b[..4 * |ds|]), 4 * |ds|, NoErr)
  {
    hide LoadSeq, DecNInto, TyRank;
    assert RawElems(Machine(big), U32E) && RawWidth(U32E) == 4;
  }

  /** What fast generated code decodes into `ds`, but for an empty Blob: the fields, and
      the bytes read. */
  ghost function Reread(big: bool, ds: seq<Val>, b: Bytes): (seq<Val>, nat)
    requires |ds| == |RECORD|
  {
    var q := DecFieldsInto(Machine(big), RECORD, ds, b);
    (if q.v[5] == NIL_SLICE then q.v[5 := VSlice(false, [], [])] else q.v, q.n)
  }

  class Record {
    const big: bool
    var ID: u64
    var Score: u64
    var Active: bool
    var Name: Bytes
    var Tags: seq<u32>
    var TagsNil: bool
    var TagsStale: seq<u32>
    var Blob: Bytes
    var BlobNil: bool

    /** Lengths are Go ints; a nil slice is empty. */
    ghost predicate Valid()
      reads this
    {
      && |Name| <= MAX_LEN && |Tags| + |TagsStale| <= MAX_LEN && |Blob| <= MAX_LEN
      && (TagsNil ==> Tags == [] && TagsStale == [])
      && (BlobNil ==> Blob == [])
    }

    ghost function Fields(): (vs: seq<Val>)
      reads this
      ensures |vs| == |RECORD|
    {
      [VNum(ID), VNum(Score), VNum(Flag(Active)), VStr(Name),
       TagsVal(), BlobVal()]
    }

    ghost function Encoding(): Bytes
      reads this
    {
      WireForm(big, ID, Score, Active, Name, Tags, Blob)
    }

    method Size() returns (s: nat)
      requires Valid()
      ensures s == |Encoding()|
    {
      UvarintSizeIsLength(|Name|);
      UvarintSizeIsLength(|Tags|);
      UvarintSizeIsLength(|Blob|);
      s := 8 + 8 + 1;
      s := s + UvarintSize(|Name|) + |Name|;
      s := s + UvarintSize(|Tags|) + 4 * |Tags|;
      s := s + UvarintSize(|Blob|) + |Blob|;
    }

    /** Writes exactly Size bytes and nothing past them. */
    method MarshalTo(b: array<byte>) returns (i: nat)
      requires Valid() && |Encoding()| <= b.Length
      modifies b
      ensures i == |Encoding()| && b[..] == Splice(old(b[..]), 0, Encoding())
    {
      hide Splice, LE, Leb, RawSeq, TagBytes;
      ghost var b0, w := b[..], LE(ID, 8) + LE(Score, 8) + [Flag(Active)];
      i := MarshalHead(b);
      var n := PutUvarint(b, i, |Name|);
      w := Written(b0, w, Leb(|Name|));
      i := i + n;
      n := Marshal.Copy(b, i, Name);
      assert Name[..n] == Name;
      w := Written(b0, w, Name);
      i := i + n;
      n := PutUvarint(b, i, |Tags|);
      w := Written(b0, w, Leb(|Tags|));
      i := i + n;
      if |Tags| > 0 {
        n := Marshal.Copy(b, i, TagBytes(big, Tags));
        assert TagBytes(big, Tags)[..n] == TagBytes(big, Tags);
        w := Written(b0, w, TagBytes(big, Tags));
        i := i + n;
      } else {
        assert w + TagBytes(big, Tags) == w;
      }
      n := PutUvarint(b, i, |Blob|);
      w := Written(b0, w, Leb(|Blob|));
      i := i + n;
      n := Marshal.Copy(b, i, Blob);
      assert Blob[..n] == Blob;
      w := Written(b0, w, Blob);
      i := i + n;
      assert w == Encoding();
    }

    /** The fixed-width fields at their constant offsets. */
    method MarshalHead(b: array<byte>) returns (i: nat)
      requires 17 <= b.Length
      modifies b
      ensures i == 17 && b[..] == Splice(old(b[..]), 0, LE(ID, 8) + LE(Score, 8) + [Flag(Active)])
    {
      hide Splice, LE;
      ghost var b0, w := b[..], LE(ID, 8);
      PutU64(b, 0, ID);
      PutU64(b, 8, Score);
      w := Written(b0, w, LE(Score, 8));
      Marshal.PutByte(b, 16, if Active then 1 else 0);
      w := Written(b0, w, [Flag(Active)]);
      i := 17;
    }

    /** `b` followed by the bytes MarshalTo writes. */
    method Append(b: Bytes) returns (r: Bytes)
      requires Valid()
      ensures r == b + Encoding()
    {
      hide LE, Leb, RawSeq, TagBytes;
      AppendsLE(b, 0, 0, ID);
      r := AppendU64(b, ID);
      ghost var w := LE(ID, 8);
      AppendsLE(r, 0, 0, Score);
      r := AppendU64(r, Score);
      w := Appended(b, w, LE(Score, 8));
      r := r + [if Active then 1 else 0];
      w := Appended(b, w, [Flag(Active)]);
      r := AppendUvarint(r, |Name|);
      w := Appended(b, w, Leb(|Name|));
      r := r + Name;
      w := Appended(b, w, Name);
      r := AppendUvarint(r, |Tags|);
      w := Appended(b, w, Leb(|Tags|));
      if |Tags| > 0 {
        r := r + TagBytes(big, Tags);
        w := Appended(b, w, TagBytes(big, Tags));
      } else {
        assert w + TagBytes(big, Tags) == w;
      }
      r := AppendUvarint(r, |Blob|);
      w := Appended(b, w, Leb(|Blob|));
      r := r + Blob;
      w := Appended(b, w, Blob);
    }

    ghost function BlobVal(): Val
      reads this
    {
      VSlice(BlobNil, ByteVals(Blob), [])
    }

    ghost function TagsVal(): Val
      reads this
    {
      VSlice(TagsNil, Vals(Tags), Vals(TagsStale))
    }

    method ReadName(b: Bytes) returns (i: nat)
      requires DecInto(Machine(big), TStr(Builtin), VStr(Name), b).e == NoErr
      modifies this`Name
      ensures DecInto(Machine(big), TStr(Builtin), old(VStr(Name)), b) == Out(VStr(Name), i, NoErr) && |Name| <= |b|
    {
      hide Uvarint;
      var (n, c) := Uvarint(b);
      i := c;
      Name := b[i..i + n];
      i := i + n;
    }

    /** Reuses the backing array of Tags when it is large enough. */
    method ReadTags(b: Bytes) returns (i: nat)
      requires DecInto(Machine(big), TSlice(U32E), TagsVal(), b).e == NoErr
      modifies this`Tags, this`TagsNil, this`TagsStale
      ensures DecInto(Machine(big), TSlice(U32E), old(TagsVal()), b) == Out(TagsVal(), i, NoErr)
      ensures TagsNil ==> Tags == [] && TagsStale == []
      ensures |Tags| <= |b| && (|Tags| + |TagsStale| <= |b| || |Tags| + |TagsStale| <= old(|Tags| + |TagsStale|))
    {
      hide Uvarint, LoadSeq, TagWords, Vals;
      ghost var d := TagsVal();
      ValsJoin(Tags, TagsStale);
      TagsDecode(big, d, b);
      var (n, c) := Uvarint(b);
      i := c;
      if n == 0 {
        Tags, TagsNil, TagsStale := [], true, [];
        ValsNil();
      } else {
        TagsStale := if |Tags + TagsStale| >= n then (Tags + TagsStale)[n..] else [];
        ValsDrop(old(Tags + TagsStale), n);
        Tags, TagsNil := TagWords(big, n, b[i..i + 4 * n]), false;
        WordsAreLoaded(big, n, b[i..i + 4 * n]);
        i := i + 4 * n;
      }
    }

    method ReadBlob(b: Bytes, ghost d: Val) returns (i: nat)
      requires DecInto(Machine(big), TSlice(BYTE), d, b).e == NoErr
      modifies this`Blob, this`BlobNil
      ensures var r := DecInto(Machine(big), TSlice(BYTE), d, b);
              i == r.n && BlobVal() == if r.v == NIL_SLICE then VSlice(false, [], []) else r.v
      ensures !BlobNil && |Blob| <= |b|
    {
      hide Uvarint, LoadSeq, ByteVals;
      var (n, c) := Uvarint(b);
      i := c;
      Blob, BlobNil := b[i..i + n], false;
      i := i + n;
    }

    /** The fixed-width fields at their constant offsets. */
    method ReadHead(b: Bytes)
      requires |b| >= 17
      modifies this`ID, this`Score, this`Active
      ensures ID == FromLE(b[0..][..8]) && Score == FromLE(b[8..][..8]) && Active == (b[16] != 0)
    {
      hide FromLE, U64;
      ReadsLE(b[0..]);
      ReadsLE(b[8..]);
      ID := U64(b[0..]);
      Score := U64(b[8..]);
      Active := b[16] != 0;
    }

    /** Decodes what fast mode would accept, field by field. The one difference from
        generated code is an empty Blob. */
    method UnmarshalFrom(b: Bytes) returns (i: nat)
      requires DecFieldsInto(Machine(big), RECORD, Fields(), b).e == NoErr
      modifies this
      ensures (Fields(), i) == Reread(big, old(Fields()), b)
      ensures old(Valid()) && |b| <= MAX_LEN ==> Valid()
    {
      hide DecFieldsInto, DecInto, ByteVals, Vals, FromLE;
      ghost var ds := Fields();
      AllFields(Machine(big), ds, b);
      ReadHead(b);
      i := 17;
      var n := ReadName(b[i..]);
      i := i + n;
      n := ReadTags(b[i..]);
      i := i + n;
      n := ReadBlob(b[i..], ds[5]);
      i := i + n;
      ghost var q := DecFieldsInto(Machine(big), RECORD, ds, b);
      assert Fields() == if q.v[5] == NIL_SLICE then q.v[5 := VSlice(false, [], [])] else q.v;
    }
  }

  lemma Appended(b: Bytes, w: Bytes, u: Bytes) returns (r: Bytes)
    ensures r == w + u && (b + w) + u == b + r
  {
    r := w + u;
  }

  lemma Written(b0: Bytes, w: Bytes, u: Bytes) returns (r: Bytes)
    requires |w| + |u| <= |b0|
    ensures r == w + u && Splice(Splice(b0, 0, w), |w|, u) == Splice(b0, 0, r)
  {
    r := w + u;
    SpliceConcat(b0, 0, w, u);
  }

  /** `q` is the first `k` fields, then whatever the rest decode to from `b[i..]`. */
  ghost predicate Going(g: Gen, q: Out<seq<Val>>, ds: seq<Val>, k: nat, done: seq<Val>, i: nat, b: Bytes) {
    |ds| == |RECORD| && k <= |RECORD| && i <= |b| &&
    var t := DecFieldsInto(g, RECORD[k..], ds[k..], b[i..]);
    q == Out(done + t.v, i + t.n, t.e)
  }

  lemma Begin(g: Gen, ds: seq<Val>, b: Bytes)
    requires |ds| == |RECORD|
    ensures Going(g, DecFieldsInto(g, RECORD, ds, b), ds, 0, [], 0, b)
  {
    assert b[0..] == b && RECORD[0..] == RECORD && ds[0..] == ds;
    var t := DecFieldsInto(g, RECORD, ds, b);
    assert [] + t.v == t.v;
  }

  lemma NextField(g: Gen, q: Out<seq<Val>>, ds: seq<Val>, k: nat, done: seq<Val>, i: nat, b: Bytes)
    requires Going(g, q, ds, k, done, i, b) && k < |RECORD| && q.e == NoErr
    ensures var r := DecInto(g, RECORD[k], ds[k], b[i..]);
            r.e == NoErr && Going(g, q, ds, k + 1, done + [r.v], i + r.n, b)
  {
    hide DecFieldsInto, DecInto;
    FieldsIntoStep(g, RECORD[k..], ds[k..], b[i..]);
    assert RECORD[k..][1..] == RECORD[k + 1..] && ds[k..][1..] == ds[k + 1..];
    var r := DecInto(g, RECORD[k], ds[k], b[i..]);
    if r.e == NoErr {
      var t := DecFieldsInto(g, RECORD[k + 1..], ds[k + 1..], b[i + r.n..]);
      assert b[i..][r.n..] == b[i + r.n..];
      assert done + ([r.v] + t.v) == (done + [r.v]) + t.v;
    }
  }

  /** Everything a successful fast decode of a record read. */
  lemma AllFields(g: Gen, ds: seq<Val>, b: Bytes)
    requires |ds| == |RECORD| && DecFieldsInto(g, RECORD, ds, b).e == NoErr
    ensures |b| >= 17
    ensures var name := DecInto(g, TStr(Builtin), ds[3], b[17..]);
            name.e == NoErr &&
            var tags := DecInto(g, TSlice(U32E), ds[4], b[17 + name.n..]);
            tags.e == NoErr &&
            var blob := DecInto(g, TSlice(BYTE), ds[5], b[17 + name.n + tags.n..]);
            blob.e == NoErr &&
            DecFieldsInto(g, RECORD, ds, b) ==
              Out([VNum(FromLE(b[0..][..8])), VNum(FromLE(b[8..][..8])), VNum(Flag(b[16] != 0)), name.v, tags.v, blob.v],
                  17 + name.n + tags.n + blob.n, NoErr)
  {
    hide DecFieldsInto, DecInto, FromLE;
    var q := DecFieldsInto(g, RECORD, ds, b);
    var head := Head(g, ds, b);
    var name := DecInto(g, TStr(Builtin), ds[3], b[17..]);
    NextField(g, q, ds, 3, head, 17, b);
    var tags := DecInto(g, TSlice(U32E), ds[4], b[17 + name.n..]);
    NextField(g, q, ds, 4, head + [name.v], 17 + name.n, b);
    NextField(g, q, ds, 5, head + [name.v] + [tags.v], 17 + name.n + tags.n, b);
    var blob := DecInto(g, TSlice(BYTE), ds[5], b[17 + name.n + tags.n..]);
    var all := head + [name.v] + [tags.v] + [blob.v];
    assert RECORD[6..] == [] && ds[6..] == [] && all + [] == all;
    FieldsIntoNil(g, b[17 + name.n + tags.n + blob.n..]);
    assert q == Out(all, 17 + name.n + tags.n + blob.n, NoErr);
    assert all == [head[0], head[1], head[2], name.v, tags.v, blob.v];
  }

  lemma Head(g: Gen, ds: seq<Val>, b: Bytes) returns (head: seq<Val>)
    requires |ds| == |RECORD| && DecFieldsInto(g, RECORD, ds, b).e == NoErr
    ensures |b| >= 17 && head == [VNum(FromLE(b[0..][..8])), VNum(FromLE(b[8..][..8])), VNum(Flag(b[16] != 0))]
    ensures Going(g, DecFieldsInto(g, RECORD, ds, b), ds, 3, head, 17, b)
  {
    hide DecFieldsInto, DecInto, FromLE;
    var q := DecFieldsInto(g, RECORD, ds, b);
    Begin(g, ds, b);
    NextField(g, q, ds, 0, [], 0, b);
    WordField(g, RECORD[0], ds[0], b[0..]);
    var id := VNum(FromLE(b[0..][..8]));
    assert [] + [id] == [id];
    NextField(g, q, ds, 1, [id], 8, b);
    WordField(g, RECORD[1], ds[1], b[8..]);
    var score := VNum(FromLE(b[8..][..8]));
    NextField(g, q, ds, 2, [id] + [score], 16, b);
    FlagField(g, RECORD[2], ds[2], b[16..]);
    head := [id] + [score] + [VNum(Flag(b[16] != 0))];
  }

  lemma WordField(g: Gen, ty: Ty, d: Val, b: Bytes)
    requires ty.TScalar? && ty.kind in {KUint64, KFloat64} && DecInto(g, ty, d, b).e == NoErr
    ensures |b| >= 8 && DecInto(g, ty, d, b) == Out(VNum(FromLE(b[..8])), 8, NoErr)
  {
    hide FromLE;
  }

  lemma FlagField(g: Gen, ty: Ty, d: Val, b: Bytes)
    requires ty.TScalar? && ty.kind == KBool && DecInto(g, ty, d, b).e == NoErr
    ensures |b| >= 1 && DecInto(g, ty, d, b) == Out(VNum(Flag(b[0] != 0)), 1, NoErr)
  {
    assert b[..1][1..] == [];
    assert FromLE(b[..1]) == b[0];
  }

  // ---------------------------------------------------------------------
  // One wire format
  // ---------------------------------------------------------------------

  lemma EncFieldsNext(g: Gen, vs: seq<Val>, k: nat, w: Bytes)
    requires |vs| == |RECORD| && k < |RECORD|
    ensures w + EncFields(g, RECORD[k..], vs[k..]) == (w + Enc(g, RECORD[k], vs[k])) + EncFields(g, RECORD[k + 1..], vs[k + 1..])
  {
    hide Enc;
    assert RECORD[k..][1..] == RECORD[k + 1..] && vs[k..][1..] == vs[k + 1..];
  }

  lemma ByteValsStep(s: Bytes)
    requires s != []
    ensures ByteVals(s) == [VNum(s[0])] + ByteVals(s[1..])
  {
    hide LoadSeq;
    assert s[..1] == [s[0]];
    assert FromLE(s[..1]) == s[0] by { assert s[..1][1..] == []; }
    ByteLoad(s);
  }

  lemma ByteLoad(s: Bytes)
    requires s != []
    ensures ByteVals(s) == [Load(false, BYTE, s[..1])] + ByteVals(s[1..])
  {
    hide Load;
  }

  lemma {:induction false} BytesBack(s: Bytes)
    ensures Marshal.BytesOf(ByteVals(s)) == s
  {
    hide ByteVals;
    if s != [] {
      BytesBack(s[1..]);
      ByteValsStep(s);
      assert ByteVals(s)[1..] == ByteVals(s[1..]);
    }
  }

  lemma ScalarFieldBytes(g: Gen, w: u64, f: bool)
    ensures Enc(g, TScalar(KUint64, Builtin), VNum(w)) == LE(w, 8) == Enc(g, TScalar(KFloat64, Builtin), VNum(w))
    ensures Enc(g, TScalar(KBool, Builtin), VNum(Flag(f))) == [Flag(f)]
  {
    hide LE;
    Marshal.OneByte(Flag(f));
  }

  lemma SliceFieldBytes(big: bool, tags: seq<u32>, nil: bool, stale: seq<Val>, blob: Bytes, nil': bool)
    ensures Enc(Machine(big), TSlice(U32E), VSlice(nil, Vals(tags), stale)) == Leb(|tags|) + TagBytes(big, tags)
    ensures Enc(Machine(big), TSlice(BYTE), VSlice(nil', ByteVals(blob), [])) == Leb(|blob|) + blob
  {
    hide RawSeq, ByteVals, Leb, EncElems;
    Marshal.RawBlock(Machine(big), U32E, Vals(tags));
    ByteValsTyped(Machine(big), BYTE, blob);
    Marshal.BytesAreElems(Machine(big), BYTE, ByteVals(blob));
    BytesBack(blob);
  }

  /** What the six fields of a record encode to. */
  lemma FieldBytes(r: Record)
    ensures var g, vs := Machine(r.big), r.Fields();
            && Enc(g, RECORD[0], vs[0]) == LE(r.ID, 8)
            && Enc(g, RECORD[1], vs[1]) == LE(r.Score, 8)
            && Enc(g, RECORD[2], vs[2]) == [Flag(r.Active)]
            && Enc(g, RECORD[3], vs[3]) == Leb(|r.Name|) + r.Name
            && Enc(g, RECORD[4], vs[4]) == Leb(|r.Tags|) + TagBytes(r.big, r.Tags)
            && Enc(g, RECORD[5], vs[5]) == Leb(|r.Blob|) + r.Blob
  {
    hide Enc, LE, ByteVals, Leb, Vals, TagBytes;
    var g := Machine(r.big);
    ScalarFieldBytes(g, r.ID, r.Active);
    ScalarFieldBytes(g, r.Score, r.Active);
    SliceFieldBytes(r.big, r.Tags, r.TagsNil, Vals(r.TagsStale), r.Blob, r.BlobNil);
    assert Enc(g, RECORD[3], VStr(r.Name)) == Leb(|r.Name|) + r.Name by { NameBytes(g, r.Name); }
  }

  lemma NameBytes(g: Gen, name: Bytes)
    ensures Enc(g, TStr(Builtin), VStr(name)) == Leb(|name|) + name
  {}

  /** The bytes of the hand-written Marshal and Append are those of a generated codec for
      the same fields on the same machine. */
  lemma WireIsGenerated(r: Record)
    ensures r.Encoding() == EncFields(Machine(r.big), RECORD, r.Fields())
  {
    hide EncFields, Enc, Leb, LE, TagBytes;
    var g, vs := Machine(r.big), r.Fields();
    FieldBytes(r);
    assert RECORD[0..] == RECORD && vs[0..] == vs;
    var w: Bytes := [];
    assert w + EncFields(g, RECORD, vs) == EncFields(g, RECORD, vs);
    w := NextBytes(g, vs, 0, w, LE(r.ID, 8));
    assert w == LE(r.ID, 8);
    w := NextBytes(g, vs, 1, w, LE(r.Score, 8));
    w := NextBytes(g, vs, 2, w, [Flag(r.Active)]);
    Assoc(w, Leb(|r.Name|), r.Name);
    w := NextBytes(g, vs, 3, w, Leb(|r.Name|) + r.Name);
    Assoc(w, Leb(|r.Tags|), TagBytes(r.big, r.Tags));
    w := NextBytes(g, vs, 4, w, Leb(|r.Tags|) + TagBytes(r.big, r.Tags));
    Assoc(w, Leb(|r.Blob|), r.Blob);
    w := NextBytes(g, vs, 5, w, Leb(|r.Blob|) + r.Blob);
    NoFields(g, vs, w);
  }

  lemma NextBytes(g: Gen, vs: seq<Val>, k: nat, w: Bytes, x: Bytes) returns (r: Bytes)
    requires |vs| == |RECORD| && k < |RECORD| && x == Enc(g, RECORD[k], vs[k])
    ensures r == w + x && w + EncFields(g, RECORD[k..], vs[k..]) == r + EncFields(g, RECORD[k + 1..], vs[k + 1..])
  {
    hide Enc;
    EncFieldsNext(g, vs, k, w);
    r := w + x;
  }

  lemma NoFields(g: Gen, vs: seq<Val>, w: Bytes)
    requires |vs| == |RECORD|
    ensures w + EncFields(g, RECORD[6..], vs[6..]) == w
  {
    assert RECORD[6..] == [] && vs[6..] == [];
  }

  lemma Assoc(w: Bytes, a: Bytes, b: Bytes)
    ensures w + (a + b) == w + a + b
  {}

  /** What MarshalTo wrote, followed by anything, UnmarshalFrom accepts, and it leaves in
      any record exactly the fields written: empty Tags nil, Blob never nil. */
  lemma RecordRoundTrip(r: Record, d: Record, s: Bytes)
    requires r.Valid() && d.big == r.big
    ensures DecFieldsInto(Machine(d.big), RECORD, d.Fields(), r.Encoding() + s).e == NoErr
    ensures var (fs, n) := Reread(d.big, d.Fields(), r.Encoding() + s);
            && n == |r.Encoding()| && |fs| == 6 && (forall k :: 0 <= k < 4 ==> fs[k] == r.Fields()[k])
            && fs[4].VSlice? && fs[4].isNil == (r.Tags == []) && fs[4].elems == Vals(r.Tags)
            && fs[5].VSlice? && !fs[5].isNil && fs[5].elems == ByteVals(r.Blob)
  {
    hide DecFieldsInto, EncFields, Fits, Vals, ByteVals, FieldsHaveTy, WireForm, CleanSeq, Clean, AllNums;
    WireIsGenerated(r);
    RecordTyped(r);
    FieldsRoundTrip(Machine(r.big), RECORD, d.Fields(), r.Fields(), s);
    var q := DecFieldsInto(Machine(d.big), RECORD, d.Fields(), r.Encoding() + s);
    ValsPlain(r.Tags);
    ByteValsPlain(r.Blob);
    FieldsBack(r.Fields(), q.v);
    BlobShape(Machine(d.big), d.Fields(), r.Encoding() + s);
    assert r.Blob == [] ==> |ByteVals(r.Blob)| == 0;
  }

  /** A decoded Blob is nil or made, never a nil slice with capacity. */
  lemma BlobShape(g: Gen, ds: seq<Val>, b: Bytes)
    requires g.mode.Fast? && |ds| == |RECORD| && DecFieldsInto(g, RECORD, ds, b).e == NoErr
    ensures var v := DecFieldsInto(g, RECORD, ds, b).v[5]; v == NIL_SLICE || (v.VSlice? && !v.isNil)
  {
    hide DecFieldsInto, DecInto, FromLE;
    AllFields(g, ds, b);
    var name := DecInto(g, TStr(Builtin), ds[3], b[17..]);
    var tags := DecInto(g, TSlice(U32E), ds[4], b[17 + name.n..]);
    BlobDecodes(g, ds[5], b[17 + name.n + tags.n..]);
  }

  lemma BlobDecodes(g: Gen, d: Val, b: Bytes)
    requires g.mode.Fast? && DecInto(g, TSlice(BYTE), d, b).e == NoErr
    ensures var v := DecInto(g, TSlice(BYTE), d, b).v; v == NIL_SLICE || (v.VSlice? && !v.isNil)
  {
    hide Uvarint, ByteVals;
  }

  /** Fields that agree once cleaned are the fields. */
  lemma FieldsBack(fs: seq<Val>, vs: seq<Val>)
    requires |fs| == |vs| == 6 && CleanSeq(vs, false) == CleanSeq(fs, true)
    requires forall k :: 0 <= k < 4 ==> fs[k].VNum? || fs[k].VStr?
    requires fs[4].VSlice? && AllNums(fs[4].elems) && fs[5].VSlice? && AllNums(fs[5].elems)
    ensures forall k :: 0 <= k < 4 ==> vs[k] == fs[k]
    ensures vs[4].VSlice? && vs[4].isNil == (fs[4].isNil || fs[4].elems == []) && vs[4].elems == fs[4].elems
    ensures vs[5].VSlice? && vs[5].isNil == (fs[5].isNil || fs[5].elems == []) && vs[5].elems == fs[5].elems
  {
    hide CleanSeq, Clean, AllNums;
    forall k | 0 <= k < 4 ensures vs[k] == fs[k] {
      CleanAt(vs, fs, k);
      ScalarBack(vs[k], fs[k]);
    }
    CleanAt(vs, fs, 4);
    CleanAt(vs, fs, 5);
    SliceBack(vs[4], fs[4]);
    SliceBack(vs[5], fs[5]);
  }

  lemma CleanAt(vs: seq<Val>, fs: seq<Val>, k: nat)
    requires CleanSeq(vs, false) == CleanSeq(fs, true) && k < |vs|
    ensures k < |fs| && Clean(vs[k], false) == Clean(fs[k], true)
  {
    hide Clean;
    assert |CleanSeq(vs, false)| == |vs| && |CleanSeq(fs, true)| == |fs|;
    assert CleanSeq(vs, false)[k] == CleanSeq(fs, true)[k];
  }

  lemma ScalarBack(u: Val, v: Val)
    requires (v.VNum? || v.VStr?) && Clean(u, false) == Clean(v, true)
    ensures u == v
  {}

  lemma SliceBack(u: Val, v: Val)
    requires v.VSlice? && AllNums(v.elems) && Clean(u, false) == Clean(v, true)
    ensures u.VSlice? && u.isNil == (v.isNil || v.elems == []) && u.elems == v.elems
  {
    PlainBack(u.elems, v.elems);
  }

  predicate AllNums(vs: seq<Val>) { forall k :: 0 <= k < |vs| ==> vs[k].VNum? }

  lemma {:induction false} PlainBack(us: seq<Val>, vs: seq<Val>)
    requires AllNums(vs) && CleanSeq(us, false) == CleanSeq(vs, true)
    ensures us == vs
  {
    assert |us| == |vs|;
    forall k | 0 <= k < |vs| ensures us[k] == vs[k] {
      assert Clean(us[k], false) == CleanSeq(us, false)[k] == CleanSeq(vs, true)[k] == Clean(vs[k], true);
    }
  }

  lemma ValsPlain(s: seq<u32>)
    ensures AllNums(Vals(s))
  {}

  lemma {:induction false} ByteValsPlain(s: Bytes)
    ensures AllNums(ByteVals(s))
  {
    if s != [] {
      ByteValsPlain(s[1..]);
      ByteValsStep(s);
    }
  }

  lemma RecordTyped(r: Record)
    requires r.Valid()
    ensures FieldsHaveTy(Machine(r.big), RECORD, r.Fields())
  {
    hide Vals, ByteVals, FieldsHaveTy, HasTy;
    var g, vs := Machine(r.big), r.Fields();
    HeadTyped(g, r.ID, r.Active, r.Name);
    HeadTyped(g, r.Score, r.Active, r.Name);
    SlicesTyped(g, r.Tags, r.TagsNil, r.TagsStale, r.Blob, r.BlobNil);
    FieldsTypedEnd(g, RECORD[6..], vs[6..]);
    FieldsTypedStep(g, vs, 5); FieldsTypedStep(g, vs, 4); FieldsTypedStep(g, vs, 3);
    FieldsTypedStep(g, vs, 2); FieldsTypedStep(g, vs, 1); FieldsTypedStep(g, vs, 0);
    assert RECORD[0..] == RECORD && vs[0..] == vs;
  }

  lemma HeadTyped(g: Gen, w: u64, f: bool, name: Bytes)
    requires |name| <= MAX_LEN
    ensures HasTy(g, TScalar(KUint64, Builtin), VNum(w)) && HasTy(g, TScalar(KFloat64, Builtin), VNum(w))
    ensures HasTy(g, TScalar(KBool, Builtin), VNum(Flag(f))) && HasTy(g, TStr(Builtin), VStr(name))
  {}

  lemma SlicesTyped(g: Gen, tags: seq<u32>, nil: bool, stale: seq<u32>, blob: Bytes, nil': bool)
    requires (nil ==> tags == [] && stale == []) && (nil' ==> blob == [])
    requires |tags| + |stale| <= MAX_LEN && |blob| <= MAX_LEN
    ensures HasTy(g, TSlice(U32E), VSlice(nil, Vals(tags), Vals(stale))) && HasTy(g, TSlice(BYTE), VSlice(nil', ByteVals(blob), []))
  {
    hide AllHaveTy, LoadSeq;
    WordsTyped(g, tags);
    WordsTyped(g, stale);
    ByteValsTyped(g, BYTE, blob);
    NoneTyped(g, BYTE);
  }

  lemma FieldsTypedEnd(g: Gen, tys: seq<Ty>, vs: seq<Val>)
    requires tys == [] && vs == []
    ensures FieldsHaveTy(g, tys, vs)
  {}

  lemma FieldsTypedStep(g: Gen, vs: seq<Val>, k: nat)
    requires |vs| == |RECORD| && k < |RECORD| && HasTy(g, RECORD[k], vs[k]) && FieldsHaveTy(g, RECORD[k + 1..], vs[k + 1..])
    ensures FieldsHaveTy(g, RECORD[k..], vs[k..])
  {
    hide HasTy;
    assert RECORD[k..][1..] == RECORD[k + 1..] && vs[k..][1..] == vs[k + 1..];
  }

  lemma {:induction false} WordsTyped(g: Gen, s: seq<u32>)
    ensures AllHaveTy(g, U32E, Vals(s))
  {
    if s != [] {
      WordsTyped(g, s[1..]);
      assert Vals(s)[1..] == Vals(s[1..]);
    }
  }
}
