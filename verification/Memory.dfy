/** Native memory, as fast mode copies it. */
module Memory {
  import opened Bytes
  import opened Schema

  function Reverse(s: Bytes): (r: Bytes)
    ensures |r| == |s|
  {
    if s == [] then [] else Reverse(s[1..]) + [s[0]]
  }

  lemma {:induction false} ReverseSnoc(s: Bytes, c: byte)
    ensures Reverse(s + [c]) == [c] + Reverse(s)
  {
    if s != [] {
      ReverseSnoc(s[1..], c);
      assert (s + [c])[1..] == s[1..] + [c];
    }
  }

  lemma {:induction false} ReverseTwice(s: Bytes)
    ensures Reverse(Reverse(s)) == s
  {
    if s != [] {
      ReverseTwice(s[1..]);
      ReverseSnoc(Reverse(s[1..]), s[0]);
    }
  }

  /** The bytes of one word in memory order; its own inverse. */
  function Native(big: bool, s: Bytes): (r: Bytes)
    ensures |r| == |s|
  {
    if big then Reverse(s) else s
  }

  lemma MulStep(n: nat, w: nat)
    requires n > 0
    ensures n * w == w + (n - 1) * w && (n - 1) * w >= 0
  {}

  /** The memory of a fixed-width value. */
  function Raw(big: bool, ty: Ty, v: Val): (m: Bytes)
    ensures |m| == RawWidth(ty)
    decreases ty, 0
  {
    match ty
    case TScalar(k, _) => Native(big, ScalarBytes(k, if v.VNum? then v.n else 0))
    case TArray(n, e, _) => RawSeq(big, e, n, if v.VArr? then v.elems else [])
    case _ => []
  }

  /** The memory of `n` values side by side. */
  function RawSeq(big: bool, ty: Ty, n: nat, vs: seq<Val>): (m: Bytes)
    ensures |m| == n * RawWidth(ty)
    decreases ty, n + 1
  {
    if n == 0 then [] else
      MulStep(n, RawWidth(ty));
      Raw(big, ty, if vs == [] then VNil else vs[0]) + RawSeq(big, ty, n - 1, if vs == [] then [] else vs[1..])
  }

  /** The value that memory holds. */
  function Load(big: bool, ty: Ty, m: Bytes): Val
    requires |m| == RawWidth(ty)
    decreases ty, 0
  {
    match ty
    case TScalar(k, _) => VNum(ScalarOf(k, Native(big, m)))
    case TArray(n, e, _) => VArr(LoadSeq(big, e, n, m))
    case _ => VNil
  }

  function LoadSeq(big: bool, ty: Ty, n: nat, m: Bytes): (vs: seq<Val>)
    requires |m| == n * RawWidth(ty)
    ensures |vs| == n
    decreases ty, n + 1
  {
    if n == 0 then [] else
      var w := RawWidth(ty);
      MulStep(n, w);
      [Load(big, ty, m[..w])] + LoadSeq(big, ty, n - 1, m[w..])
  }

  /** Memory `m` with the first `k` fields stored at their offsets. */
  function Overlay(big: bool, tys: seq<Ty>, offs: seq<nat>, vs: seq<Val>, k: nat, m: Bytes): (r: Bytes)
    requires |vs| == |tys| == |offs| && k <= |tys|
    requires forall j :: 0 <= j < |tys| ==> offs[j] + RawWidth(tys[j]) <= |m|
    ensures |r| == |m|
  {
    if k == 0 then m
    else Splice(Overlay(big, tys, offs, vs, k - 1, m), offs[k - 1], Raw(big, tys[k - 1], vs[k - 1]))
  }

  /** The memory a struct stands on before its fields are stored. */
  function Background(pad: Bytes, size: nat): (m: Bytes)
    ensures |m| == size
  {
    if |pad| == size then pad else seq(size, _ => 0)
  }

  function Sizeof(g: Gen, n: Name): nat
    requires Blittable(g, n)
  {
    assert n in g.structs;
    g.mode.lay.sizeof[n]
  }

  function Offsets(g: Gen, n: Name): seq<nat>
    requires Blittable(g, n)
    ensures RangesOk(FieldsOf(g, n), Offsets(g, n), Sizeof(g, n))
  {
    assert n in g.structs;
    g.mode.lay.offsets[n]
  }

  /** The raw memory of a struct: its fields over whatever lies between them. */
  function Image(g: Gen, n: Name, fields: seq<Val>, pad: Bytes): (m: Bytes)
    requires Blittable(g, n) && |fields| == |FieldsOf(g, n)|
    ensures |m| == Sizeof(g, n)
  {
    Overlay(g.mode.lay.big, FieldsOf(g, n), Offsets(g, n), fields, |fields|, Background(pad, Sizeof(g, n)))
  }

  /** The fields read back out of that memory. */
  function FieldsAt(big: bool, tys: seq<Ty>, offs: seq<nat>, m: Bytes): (vs: seq<Val>)
    requires |tys| == |offs|
    requires forall j :: 0 <= j < |tys| ==> offs[j] + RawWidth(tys[j]) <= |m|
    ensures |vs| == |tys|
  {
    seq(|tys|, k requires 0 <= k < |tys| => FieldAt(big, tys[k], offs[k], m))
  }

  function FieldAt(big: bool, ty: Ty, off: nat, m: Bytes): Val
    requires off + RawWidth(ty) <= |m|
  {
    Load(big, ty, m[off..off + RawWidth(ty)])
  }

  function LoadFields(g: Gen, n: Name, m: Bytes): (vs: seq<Val>)
    requires Blittable(g, n) && |m| == Sizeof(g, n)
    ensures |vs| == |FieldsOf(g, n)|
  {
    FieldsAt(g.mode.lay.big, FieldsOf(g, n), Offsets(g, n), m)
  }

  // ---------------------------------------------------------------------
  // What a memory copy preserves
  // ---------------------------------------------------------------------

  /** Loading what was stored gives the value back, in either byte order. */
  lemma {:induction false} LoadRaw(g: Gen, big: bool, ty: Ty, v: Val)
    requires IsFixedWidth(ty) && HasTy(g, ty, v)
    ensures Load(big, ty, Raw(big, ty, v)) == v
    decreases ty, 0
  {
    match ty
    case TScalar(k, _) =>
      ReverseTwice(ScalarBytes(k, v.n));
      ScalarRoundTrip(k, v.n);
    case TArray(n, e, _) => LoadRawSeq(g, big, e, v.elems);
  }

  lemma {:induction false} LoadRawSeq(g: Gen, big: bool, ty: Ty, vs: seq<Val>)
    requires IsFixedWidth(ty) && AllHaveTy(g, ty, vs)
    ensures LoadSeq(big, ty, |vs|, RawSeq(big, ty, |vs|, vs)) == vs
    decreases ty, |vs| + 1
  {
    if vs != [] {
      LoadRaw(g, big, ty, vs[0]);
      LoadRawSeq(g, big, ty, vs[1..]);
      var m, w := RawSeq(big, ty, |vs|, vs), RawWidth(ty);
      assert m[..w] == Raw(big, ty, vs[0]);
      assert m[w..] == RawSeq(big, ty, |vs| - 1, vs[1..]);
    }
  }

  lemma SpliceElsewhere(b: Bytes, off: nat, w: Bytes, lo: nat, hi: nat)
    requires off + |w| <= |b| && lo <= hi <= |b|
    requires hi <= off || off + |w| <= lo
    ensures Splice(b, off, w)[lo..hi] == b[lo..hi]
  {}

  lemma SpliceHere(b: Bytes, off: nat, w: Bytes)
    requires off + |w| <= |b|
    ensures Splice(b, off, w)[off..off + |w|] == w
  {}

  /** A later store to a disjoint range leaves a field alone. */
  lemma {:induction false} OverlayKeeps(big: bool, tys: seq<Ty>, offs: seq<nat>, vs: seq<Val>, k: nat, j: nat, m: Bytes)
    requires RangesOk(tys, offs, |m|) && |vs| == |tys| && j < k <= |tys|
    ensures Overlay(big, tys, offs, vs, k, m)[offs[j]..offs[j] + RawWidth(tys[j])] == Raw(big, tys[j], vs[j])
  {
    hide Raw, RawWidth, Splice;
    var q := Overlay(big, tys, offs, vs, k - 1, m);
    SpliceHere(q, offs[k - 1], Raw(big, tys[k - 1], vs[k - 1]));
    if j < k - 1 {
      OverlayKeeps(big, tys, offs, vs, k - 1, j, m);
      SpliceElsewhere(q, offs[k - 1], Raw(big, tys[k - 1], vs[k - 1]), offs[j], offs[j] + RawWidth(tys[j]));
    }
  }

  /** The memmove codec restores every field, whatever the padding bytes. */
  lemma MemmoveRestores(g: Gen, n: Name, fields: seq<Val>, pad: Bytes)
    requires Blittable(g, n) && FieldsHaveTy(g, FieldsOf(g, n), fields)
    ensures LoadFields(g, n, Image(g, n, fields, pad)) == fields
  {
    hide Raw, Load, RawWidth, Overlay, HasTy;
    var tys, offs, big := FieldsOf(g, n), Offsets(g, n), g.mode.lay.big;
    var m := Image(g, n, fields, pad);
    forall k | 0 <= k < |tys|
      ensures LoadFields(g, n, m)[k] == fields[k]
    {
      OverlayKeeps(big, tys, offs, fields, |tys|, k, Background(pad, Sizeof(g, n)));
      FieldTypedAt(g, tys, fields, k);
      LoadRaw(g, big, tys[k], fields[k]);
    }
  }

  // ---------------------------------------------------------------------
  // What a memory copy hands on
  // ---------------------------------------------------------------------

  /** Memory as Go leaves it: a bool is 0 or 1. */
  ghost predicate Canonical(ty: Ty, m: Bytes)
    requires |m| == RawWidth(ty)
    decreases ty, 0
  {
    match ty
    case TScalar(k, _) => k == KBool ==> m[0] <= 1
    case TArray(n, e, _) => CanonicalSeq(e, n, m)
    case _ => true
  }

  ghost predicate CanonicalSeq(e: Ty, n: nat, m: Bytes)
    requires |m| == n * RawWidth(e)
    decreases e, n + 1
  {
    if n == 0 then true else
      MulStep(n, RawWidth(e));
      Canonical(e, m[..RawWidth(e)]) && CanonicalSeq(e, n - 1, m[RawWidth(e)..])
  }

  /** Storing what was loaded changes nothing. */
  lemma {:induction false} RawLoad(big: bool, ty: Ty, m: Bytes)
    requires IsFixedWidth(ty) && |m| == RawWidth(ty) && Canonical(ty, m)
    ensures Raw(big, ty, Load(big, ty, m)) == m
    decreases ty, 0
  {
    match ty
    case TScalar(k, _) => ScalarRawLoad(big, k, m);
    case TArray(n, e, _) => RawLoadSeq(big, e, n, m);
  }

  lemma ScalarRawLoad(big: bool, k: Kind, m: Bytes)
    requires |m| == Width(k) && (k == KBool ==> m[0] <= 1)
    ensures Native(big, ScalarBytes(k, ScalarOf(k, Native(big, m)))) == m
  {
    hide ScalarBytes, ScalarOf, Reverse;
    ReverseTwice(m);
    if k == KBool {
      assert m == [m[0]];
      OneReversed(m);
      BoolBytes(m);
    } else {
      ScalarOfBytes(k, Native(big, m));
    }
  }

  lemma OneReversed(m: Bytes)
    requires |m| == 1
    ensures Reverse(m) == m
  {
    assert m[1..] == [] && Reverse([]) == [];
  }

  lemma BoolBytes(m: Bytes)
    requires |m| == 1 && m[0] <= 1
    ensures ScalarBytes(KBool, ScalarOf(KBool, m)) == m
  {
    assert FromLE(m) == m[0] + 256 * FromLE([]) by { assert m[1..] == []; }
    assert LE(m[0], 1) == [m[0] % 256] + LE(m[0] / 256, 0);
  }

  lemma {:induction false} RawLoadSeq(big: bool, e: Ty, n: nat, m: Bytes)
    requires IsFixedWidth(e) && |m| == n * RawWidth(e) && CanonicalSeq(e, n, m)
    ensures RawSeq(big, e, n, LoadSeq(big, e, n, m)) == m
    decreases e, n + 1
  {
    hide Raw, Load, RawWidth, Canonical;
    if n > 0 {
      var w := RawWidth(e);
      MulStep(n, w);
      RawLoad(big, e, m[..w]);
      RawLoadSeq(big, e, n - 1, m[w..]);
      var vs := LoadSeq(big, e, n, m);
      assert vs[0] == Load(big, e, m[..w]) && vs[1..] == LoadSeq(big, e, n - 1, m[w..]);
    }
  }

  /** Bytes that no field covers are the background's. */
  lemma {:induction false} OverlayElsewhere(big: bool, tys: seq<Ty>, offs: seq<nat>, vs: seq<Val>, k: nat, m: Bytes, i: nat)
    requires |vs| == |tys| == |offs| && k <= |tys| && i < |m|
    requires forall j :: 0 <= j < |tys| ==> offs[j] + RawWidth(tys[j]) <= |m|
    requires forall j :: 0 <= j < k ==> !(offs[j] <= i < offs[j] + RawWidth(tys[j]))
    ensures Overlay(big, tys, offs, vs, k, m)[i] == m[i]
  {
    hide Raw, RawWidth;
    if k > 0 { OverlayElsewhere(big, tys, offs, vs, k - 1, m, i); }
  }

  /** A field covers byte `i` of a raw-copied struct. */
  ghost predicate InField(g: Gen, n: Name, i: nat)
    requires Blittable(g, n)
  {
    exists j :: 0 <= j < |FieldsOf(g, n)| && Offsets(g, n)[j] <= i < Offsets(g, n)[j] + RawWidth(FieldsOf(g, n)[j])
  }

  /** The bytes between fields are copied out as they are, whatever the fields hold. */
  lemma PaddingCopied(g: Gen, n: Name, fields: seq<Val>, pad: Bytes, i: nat)
    requires Blittable(g, n) && |fields| == |FieldsOf(g, n)| && |pad| == Sizeof(g, n) && i < |pad| && !InField(g, n, i)
    ensures Image(g, n, fields, pad)[i] == pad[i]
  {
    hide Overlay, RawWidth;
    OverlayElsewhere(g.mode.lay.big, FieldsOf(g, n), Offsets(g, n), fields, |fields|, pad, i);
  }

  ghost predicate CanonicalAt(ty: Ty, off: nat, m: Bytes)
    requires off + RawWidth(ty) <= |m|
  {
    Canonical(ty, m[off..off + RawWidth(ty)])
  }

  ghost predicate CanonicalStruct(g: Gen, n: Name, m: Bytes)
    requires Blittable(g, n) && |m| == Sizeof(g, n)
  {
    forall j :: 0 <= j < |FieldsOf(g, n)| ==> CanonicalAt(FieldsOf(g, n)[j], Offsets(g, n)[j], m)
  }

  /** Copying a struct in and out again gives the same bytes, padding included. */
  lemma ImageOfLoaded(g: Gen, n: Name, m: Bytes)
    requires Blittable(g, n) && |m| == Sizeof(g, n) && CanonicalStruct(g, n, m)
    ensures Image(g, n, LoadFields(g, n, m), m) == m
  {
    hide Overlay, RawWidth, Canonical, Load;
    LoadedOverlay(g.mode.lay.big, FieldsOf(g, n), Offsets(g, n), |FieldsOf(g, n)|, m);
  }

  lemma {:induction false} LoadedOverlay(big: bool, tys: seq<Ty>, offs: seq<nat>, k: nat, m: Bytes)
    requires |tys| == |offs| && k <= |tys| && forall j :: 0 <= j < |tys| ==> offs[j] + RawWidth(tys[j]) <= |m|
    requires forall j :: 0 <= j < |tys| ==> IsFixedWidth(tys[j]) && CanonicalAt(tys[j], offs[j], m)
    ensures Overlay(big, tys, offs, FieldsAt(big, tys, offs, m), k, m) == m
  {
    hide Raw, Load, RawWidth, Canonical;
    if k > 0 {
      var j, w := k - 1, RawWidth(tys[k - 1]);
      LoadedOverlay(big, tys, offs, j, m);
      RawLoad(big, tys[j], m[offs[j]..offs[j] + w]);
      assert m[..offs[j]] + m[offs[j]..offs[j] + w] + m[offs[j] + w..] == m;
    }
  }
}
