/** Which targets are copied as raw memory, by what their fields' types are. */
module Targets {
  import opened Schema
  import opened Declarations
  import opened Marshal
  import opened Imports

  /** What is left of a type once arrays are taken off. */
  function Innermost(ty: Ty): Ty {
    if ty.TArray? then Innermost(ty.elem) else ty
  }

  /** The generator knows the size of basics and of arrays of them. */
  lemma {:induction false} ConstantExactly(ty: Ty)
    ensures SizeConst(ty).Constant? <==> Innermost(ty).TScalar?
  {
    if ty.TArray? { ConstantExactly(ty.elem); }
  }

  /** Fixed-width is what has a generator-time size and no time.Time in it. */
  lemma {:induction false} FixedExactly(ty: Ty)
    ensures IsFixedWidth(ty) <==> SizeConst(ty).Constant? && !HasTime(ty)
  {
    if ty.TArray? { FixedExactly(ty.elem); }
  }

  /** Copied element by element's memory: what is fixed-width and as wide on every
      platform. */
  lemma {:induction false} MemCopyableExactly(ty: Ty)
    ensures MemCopyable(ty) <==>
              && Innermost(ty).TScalar?
              && Innermost(ty).kind in {KBool, KUint8, KInt8, KUint16, KInt16, KUint32, KInt32, KUint64, KInt64, KFloat32, KFloat64}
  {
    if ty.TArray? { MemCopyableExactly(ty.elem); }
    if ty.TScalar? {
      match ty.kind
      case KInt | KUint | KTime =>
      case KBool | KUint8 | KInt8 | KUint16 | KInt16 | KUint32 | KInt32 =>
      case KUint64 | KInt64 | KFloat32 | KFloat64 =>
    }
  }

  lemma {:induction false} FixedIsSupported(p: Package, t: GoType)
    requires FixedWidth(t)
    ensures Supported(p, t)
  {
    if t.Array? { FixedIsSupported(p, t.elem); }
  }

  /** A field that may be part of a raw copy. */
  ghost predicate Copyable(f: Field) {
    f.exported && !f.excluded && SizeConst(Lower(f.typ)).Constant? && !HasTime(Lower(f.typ))
  }

  lemma CopyableExactly(f: Field)
    ensures Copyable(f) <==> Kept(f) && FixedWidth(f.typ)
  {
    LowerFixed(f.typ);
    FixedExactly(Lower(f.typ));
  }

  /** The emission is the raw copy in fast mode exactly for targets with a field, none of
      them skipped, all of a generator-time size and without a time.Time. */
  lemma CopiedExactly(p: Package, n: Name)
    requires n !in p.owned
    ensures var all := FieldList(p, n);
            EmissionOf(p, n) == Memmove <==> !p.safe && |all| > 0 && forall k :: 0 <= k < |all| ==> Copyable(all[k])
  {
    hide FixedWidth, Lower, Copyable;
    var all := FieldList(p, n);
    CountTest(all);
    forall k | 0 <= k < |all| ensures Copyable(all[k]) <==> Kept(all[k]) && FixedWidth(all[k].typ) {
      CopyableExactly(all[k]);
    }
    forall k | 0 <= k < |all| && FixedWidth(all[k].typ) ensures Supported(p, all[k].typ) { FixedIsSupported(p, all[k].typ); }
  }
}
