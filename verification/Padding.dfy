/** Raw-copied structs are handed on byte by byte, what lies between their fields too. */
module Padding {
  import opened Bytes
  import opened Schema
  import opened Memory
  import opened Codec
  import opened Reuse
  import opened Program
  import opened EmitCorrect
  import opened Marshal
  import E = Encoders

  /** Encoding what was decoded from a raw-copied struct's bytes gives those bytes. */
  lemma DecodedIsEncoded(g: Gen, n: Name, d: Val, b: Bytes)
    requires Blittable(g, n) && Sizeof(g, n) <= |b| && CanonicalStruct(g, n, b[..Sizeof(g, n)])
    ensures var r := DecStructInto(g, n, d, b);
            r.e == NoErr && r.n == Sizeof(g, n) && EncStruct(g, n, r.v) == b[..r.n]
  {
    hide LoadFields, Image, CanonicalStruct;
    ImageOfLoaded(g, n, b[..Sizeof(g, n)]);
  }

  /** `m` structs in a row, each as Go leaves it. */
  ghost predicate CanonicalStructs(g: Gen, n: Name, m: nat, w: Bytes)
    requires Blittable(g, n) && |w| == m * Sizeof(g, n)
    decreases m
  {
    if m == 0 then true else
      MulStep(m, Sizeof(g, n));
      CanonicalStruct(g, n, w[..Sizeof(g, n)]) && CanonicalStructs(g, n, m - 1, w[Sizeof(g, n)..])
  }

  /** The same of a backing array of them. */
  lemma {:induction false} CopiedIsWritten(g: Gen, n: Name, m: nat, w: Bytes)
    requires Blittable(g, n) && |w| == m * Sizeof(g, n) && CanonicalStructs(g, n, m, w)
    ensures StructImages(g, n, StructsAt(g, n, m, w)) == w
    decreases m
  {
    hide LoadFields, Image, CanonicalStruct, Sizeof;
    if m > 0 {
      var z := Sizeof(g, n);
      MulStep(m, z);
      ImageOfLoaded(g, n, w[..z]);
      CopiedIsWritten(g, n, m - 1, w[z..]);
      var vs := StructsAt(g, n, m, w);
      assert vs[0] == VStruct(LoadFields(g, n, w[..z]), w[..z]) && vs[1..] == StructsAt(g, n, m - 1, w[z..]);
      assert w[..z] + w[z..] == w;
    } else {
      NoStructs(g, n, w);
    }
  }

  lemma NoStructs(g: Gen, n: Name, w: Bytes)
    requires Blittable(g, n) && w == []
    ensures StructImages(g, n, StructsAt(g, n, 0, w)) == []
  {}

  /** What the emitted Unmarshal of a raw-copied struct received, the emitted Append sends,
      whatever the receiver held before. */
  lemma ReceivedIsSent(g: Gen, starts: map<Name, nat>, fuel: nat, n: Name, d: Val, b: Bytes, out: Bytes)
    requires Blittable(g, n) && fuel > 0 && Sizeof(g, n) <= |b| && CanonicalStruct(g, n, b[..Sizeof(g, n)])
    ensures var o := Invoke(g, starts, fuel, n, d, b);
            o.Next? && o.st.i == Sizeof(g, n) &&
            E.Delegate(g, E.Writing, starts, fuel, n, o.st.recv, E.Growing(out)) == E.Done(E.Growing(out + b[..Sizeof(g, n)]))
  {
    hide LoadFields, Image, CanonicalStruct, Invoke, E.Run, Sizeof;
    var z := Sizeof(g, n);
    MemmoveCode(g, starts, fuel, n, d, b);
    ImageOfLoaded(g, n, b[..z]);
    var v := VStruct(LoadFields(g, n, b[..z]), b[..z]);
    SelfCode(g, starts, fuel - 1, n, v, out);
    assert StructImage(g, n, v) == b[..z];
  }

  lemma SelfCode(g: Gen, starts: map<Name, nat>, fuel: nat, n: Name, v: Val, out: Bytes)
    requires Blittable(g, n)
    ensures E.Run(g, E.Writing, starts, fuel, E.Do(E.WriteSelf(n)), Frame(v), E.Growing(out)) == E.Done(E.Growing(out + StructImage(g, n, v)))
  {
    hide StructImage;
  }

  /** struct{A uint8; B uint32} where the fields lie at 0 and 4 in 8 bytes. */
  function Padded(): (g: Gen)
    ensures FieldsOf(g, "T") == [TScalar(KUint8, Builtin), TScalar(KUint32, Builtin)] && Blittable(g, "T")
    ensures Sizeof(g, "T") == 8 && Offsets(g, "T") == [0, 4] && !g.mode.lay.big
  {
    var tys := [TScalar(KUint8, Builtin), TScalar(KUint32, Builtin)];
    var g := Gen(map["T" := tys], map[], 1, Fast(Layout(false, map["T" := 8], map["T" := [0, 4]])));
    assert FieldsRank(g, tys) == 0 by { assert tys[1..] == [tys[1]] && [tys[1]][1..] == []; }
    assert RangesOk(tys, [0, 4], 8);
    g
  }

  /** The three bytes between them are written as they are in memory. */
  lemma PaddingWritten()
    ensures EncStruct(Padded(), "T", VStruct([VNum(7), VNum(1)], [0, 0xAA, 0xBB, 0xCC, 0, 0, 0, 0])) == [7, 0xAA, 0xBB, 0xCC, 1, 0, 0, 0]
  {
    hide Padded, LE;
    var g := Padded();
    var tys, offs, vs := FieldsOf(g, "T"), Offsets(g, "T"), [VNum(7), VNum(1)];
    var pad: Bytes := [0, 0xAA, 0xBB, 0xCC, 0, 0, 0, 0];
    SmallWords();
    assert Raw(false, tys[0], vs[0]) == [7] && Raw(false, tys[1], vs[1]) == [1, 0, 0, 0];
    assert Overlay(false, tys, offs, vs, 0, pad) == pad;
    assert Overlay(false, tys, offs, vs, 1, pad) == [7, 0xAA, 0xBB, 0xCC, 0, 0, 0, 0];
    assert Overlay(false, tys, offs, vs, 2, pad) == [7, 0xAA, 0xBB, 0xCC, 1, 0, 0, 0];
  }

  lemma SmallWords()
    ensures LE(7, 1) == [7] && LE(1, 4) == [1, 0, 0, 0]
  {
    assert LE(7, 1) == [7] + LE(0, 0);
    assert LE(0, 1) == [0] + LE(0, 0) && LE(0, 2) == [0] + LE(0, 1) && LE(0, 3) == [0] + LE(0, 2) && LE(1, 4) == [1] + LE(0, 3);
  }
}
