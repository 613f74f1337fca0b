/** The generator as it runs: one counter for every temporary's name, and the flags that
    decide the imports, updated while statements are written. */
module Generator {
  import opened Varint
  import opened Schema
  import opened Codec
  import opened Program
  import opened Imports
  import opened Temporaries
  import Marshal
  import E = Encoders

  /** Statements in a row. */
  function Chain(ss: seq<Stmt>, last: Stmt): Stmt {
    if ss == [] then last else Seq(ss[0], Chain(ss[1..], last))
  }

  lemma {:induction false} ChainSnoc(ss: seq<Stmt>, s: Stmt, last: Stmt)
    ensures Chain(ss + [s], last) == Chain(ss, Seq(s, last))
  {
    if ss != [] {
      assert (ss + [s])[1..] == ss[1..] + [s];
      ChainSnoc(ss[1..], s, last);
    } else {
      assert ss + [s] == [s];
      assert [s][1..] == [];
    }
  }

  /** The same, of encoding statements. */
  function EncChain(ss: seq<E.Stmt>, last: E.Stmt): E.Stmt {
    if ss == [] then last else E.Seq(ss[0], EncChain(ss[1..], last))
  }

  lemma {:induction false} EncChainSnoc(ss: seq<E.Stmt>, s: E.Stmt, last: E.Stmt)
    ensures EncChain(ss + [s], last) == EncChain(ss, E.Seq(s, last))
  {
    if ss != [] {
      assert (ss + [s])[1..] == ss[1..] + [s];
      EncChainSnoc(ss[1..], s, last);
    } else {
      assert ss + [s] == [s];
      assert [s][1..] == [];
    }
  }

  class Generator {
    const g: Gen
    /** The number in the next temporary's name. */
    var next: nat
    var usedTime: bool
    var usedUnsafe: bool

    constructor (g: Gen)
      ensures this.g == g && next == 1 && !usedTime && !usedUnsafe
    {
      this.g := g;
      next, usedTime, usedUnsafe := 1, false, false;
    }

    method FreshIdx() returns (x: nat)
      modifies this`next
      ensures x == old(next) && next == old(next) + 1
    {
      x := next;
      next := next + 1;
    }

    // -----------------------------------------------------------------
    // Size, Marshal and Append
    // -----------------------------------------------------------------

    /** Writes the encoding of `ref`, or the statements that size it. */
    method EncodeExpr(job: E.Job, ty: Ty, ref: Ref) returns (s: E.Stmt)
      modifies this`next, this`usedTime, this`usedUnsafe
      ensures (s, next) == E.Emit(g, job, ty, ref, old(next))
      ensures usedTime == (old(usedTime) || EncTime(g, job, ty))
      ensures usedUnsafe == (old(usedUnsafe) || EncUnsafe(g, job, ty))
      decreases ty, 1
    {
      hide E.EmitElems, E.EmitArray;
      match ty {
        case TScalar(k, _) =>
          if k == KTime { usedTime := true; }
          s := E.Do(if job.Sizing? then E.Count(Width(k)) else E.WriteScalar(ref, k));
        case TStr(_) =>
          s := E.Seq(E.EmitLen(job, ref), E.Do(if job.Sizing? then E.CountItems(ref, 1) else E.WriteText(ref)));
        case TSlice(e, d) =>
          var code := EncodeElems(job, e, d, ref);
          s := E.Seq(E.EmitLen(job, ref), code);
        case TArray(m, e, d) => s := EncodeArray(job, m, e, d, ref);
        case TPtr(e, _) =>
          var code := EncodeExpr(job, e, RDeref(ref));
          if job.Sizing? {
            s := E.Seq(E.Do(E.Count(1)), E.IfNonNil(ref, code, E.Do(E.Nothing)));
          } else {
            s := E.IfNonNil(ref, E.Seq(E.Do(E.Write([1])), code), E.Do(E.Write([0])));
          }
        case TMap(_, _, _) => s := EncodeEntries(job, ty, ref);
        case TStruct(n) => s := E.Call(ref, n);
        case TUnion(ms) =>
          var arms := EncodeArms(job, ms);
          s := E.TypeSwitch(ref, arms, E.Literal(job, Leb(0)));
        case TSkip => s := E.Do(E.Nothing);
      }
    }

    method EncodeEntries(job: E.Job, ty: Ty, ref: Ref) returns (s: E.Stmt)
      requires ty.TMap?
      modifies this`next, this`usedTime, this`usedUnsafe
      ensures (s, next) == E.Emit(g, job, ty, ref, old(next))
      ensures usedTime == (old(usedTime) || EncTime(g, job, ty))
      ensures usedUnsafe == (old(usedUnsafe) || EncUnsafe(g, job, ty))
      decreases ty, 0
    {
      var k := FreshIdx();
      var v := FreshIdx();
      var keyCode := EncodeExpr(job, ty.key, RVar(k));
      var valCode := EncodeExpr(job, ty.val, RVar(v));
      s := E.Seq(E.EmitLen(job, ref), E.ForEntries(k, v, ref, E.Seq(keyCode, valCode)));
    }

    method EncodeArms(job: E.Job, ms: seq<Name>) returns (arms: seq<E.Arm>)
      ensures arms == E.Arms(job, ms)
    {
      arms := [];
      while |arms| < |ms|
        invariant |arms| <= |ms|
        invariant arms == E.Arms(job, ms)[..|arms|]
      {
        arms := arms + [E.Arm(E.Literal(job, Leb(|arms| + 1)), ms[|arms|])];
      }
    }

    method EncodeElems(job: E.Job, e: Ty, d: Decl, ref: Ref) returns (s: E.Stmt)
      modifies this`next, this`usedTime, this`usedUnsafe
      ensures (s, next) == E.EmitElems(g, job, e, ref, old(next))
      ensures usedTime == (old(usedTime) || EncTime(g, job, TSlice(e, d)))
      ensures usedUnsafe == (old(usedUnsafe) || EncUnsafe(g, job, TSlice(e, d)))
      decreases e, 2
    {
      hide E.Emit;
      if IsByte(e) {
        s := E.Do(if job.Sizing? then E.CountItems(ref, 1) else E.WriteText(ref));
      } else if job.Sizing? && Marshal.SizeConst(e).Constant? {
        s := E.Do(E.CountItems(ref, Marshal.SizeConst(e).n));
      } else if job.Writing? && RawElems(g, e) {
        usedUnsafe := true;
        RawHasNoTime(g, e);
        EncTimeIsTime(g, job, e);
        s := E.IfSome(ref, E.Do(E.WriteRaw(ref, e)));
      } else if BlitElem(g, e) {
        usedUnsafe := true;
        s := if job.Sizing? then E.Do(E.CountStructs(ref, e.name)) else E.IfSome(ref, E.Do(E.WriteStructs(ref, e.name)));
      } else {
        var x := FreshIdx();
        var byIndex := E.IndexElems(e);
        var body := EncodeExpr(job, e, if byIndex then RIndex(ref, x) else RVar(x));
        s := if byIndex then E.ForIndex(x, ref, body) else E.ForEach(x, ref, body);
      }
    }

    method EncodeArray(job: E.Job, m: nat, e: Ty, d: Decl, ref: Ref) returns (s: E.Stmt)
      modifies this`next, this`usedTime, this`usedUnsafe
      ensures (s, next) == E.EmitArray(g, job, m, e, ref, old(next))
      ensures usedTime == (old(usedTime) || EncTime(g, job, TArray(m, e, d)))
      ensures usedUnsafe == (old(usedUnsafe) || EncUnsafe(g, job, TArray(m, e, d)))
      decreases e, 2
    {
      hide E.Emit;
      if job.Sizing? && Marshal.SizeConst(e).Constant? {
        s := E.Do(E.Count(m * Marshal.SizeConst(e).n));
      } else if job.Sizing? && BlitElem(g, e) {
        usedUnsafe := true;
        s := E.Do(E.CountStructs(ref, e.name));
      } else if job.Writing? && IsByte(e) {
        s := E.Do(E.WriteText(ref));
      } else if job.Writing? && m > 0 && RawElems(g, e) {
        usedUnsafe := true;
        RawHasNoTime(g, e);
        EncTimeIsTime(g, job, e);
        s := E.Do(E.WriteRaw(ref, e));
      } else if job.Writing? && m > 0 && BlitElem(g, e) {
        usedUnsafe := true;
        s := E.Do(E.WriteStructs(ref, e.name));
      } else {
        var x := FreshIdx();
        var body := EncodeExpr(job, e, RIndex(ref, x));
        s := E.ForLen(x, m, body);
      }
    }

    /** Writes a target's Size, Marshal or Append: its fields in declaration order. */
    method EmitEncoder(job: E.Job, n: Name) returns (s: E.Stmt)
      modifies this`next, this`usedTime, this`usedUnsafe
      ensures s == E.Method(g, job, n, old(next)) && next == AfterEncode(g, job, n, old(next))
      ensures usedTime ==> old(usedTime) || MethodHasTime(g, n)
      ensures old(usedTime) ==> usedTime
      ensures usedUnsafe == (old(usedUnsafe) || EncMethodUnsafe(g, job, n))
    {
      hide E.Emit, EncTime, EncUnsafe, HasTime;
      if Blittable(g, n) {
        usedUnsafe := true;
        s := E.Do(if job.Sizing? then E.CountSelf(n) else E.WriteSelf(n));
        return;
      }
      var tys, code := FieldsOf(g, n), [];
      assert tys[0..] == tys;
      while |code| < |tys|
        invariant |code| <= |tys|
        invariant var (rest, end) := E.EmitFields(g, job, tys[|code|..], |code|, next);
                  E.EmitFields(g, job, tys, 0, old(next)) == (EncChain(code, rest), end)
        invariant old(usedTime) ==> usedTime
        invariant usedTime ==> old(usedTime) || MethodHasTime(g, n)
        invariant usedUnsafe == (old(usedUnsafe) || exists k :: 0 <= k < |code| && EncUnsafe(g, job, tys[k]))
      {
        var k := |code|;
        EncTimeIsTime(g, job, tys[k]);
        var f := EncodeExpr(job, tys[k], RField(k));
        assert tys[k..][1..] == tys[k + 1..];
        EncChainSnoc(code, f, E.EmitFields(g, job, tys[k + 1..], k + 1, next).0);
        code := code + [f];
      }
      s := EncChain(code, E.Do(E.Nothing));
    }

    // -----------------------------------------------------------------
    // Unmarshal
    // -----------------------------------------------------------------

    /** Writes the decoding of `ref`. */
    method UnmarshalExpr(ty: Ty, ref: Ref) returns (s: Stmt)
      modifies this`next, this`usedTime, this`usedUnsafe
      ensures (s, next) == Emit(g, ty, ref, old(next))
      ensures usedTime == (old(usedTime) || HasTime(ty))
      ensures usedUnsafe == (old(usedUnsafe) || NeedsUnsafe(g, ty))
      decreases ty, 1
    {
      hide RawElems, EmitElems;
      match ty {
        case TScalar(k, decl) =>
          if k == KTime { usedTime := true; }
          s := Seq(IfSafe(g, GuardN(Width(k))), Do(ReadScalar(ref, k, decl)));
        case TStr(_) =>
          s := Seq(EmitVarint(g), Seq(IfSafe(g, GuardLen), Do(ReadStr(ref))));
        case TSlice(e, d) =>
          var code := SliceElems(e, d, ref);
          s := Seq(EmitVarint(g), IfZero(Do(SetNil(ref, NIL_SLICE)), Seq(IfSafe(g, GuardLen), code)));
        case TArray(m, e, d) => s := ArrayElems(m, e, d, ref);
        case TPtr(e, _) =>
          var code := UnmarshalExpr(e, RDeref(ref));
          s := Seq(IfSafe(g, GuardN(1)), IfFlag(Seq(Do(NewIfNil(ref, e)), code), Do(SetNil(ref, VNil))));
        case TMap(_, _, _) => s := MapEntries(ty, ref);
        case TStruct(n) => s := Call(ref, n, g.mode.Safe?);
        case TUnion(ms) => s := UnionArms(ms, ref);
        case TSkip => s := Do(Skip);
      }
    }

    method ArrayElems(m: nat, e: Ty, d: Decl, ref: Ref) returns (s: Stmt)
      modifies this`next, this`usedTime, this`usedUnsafe
      ensures (s, next) == Emit(g, TArray(m, e, d), ref, old(next))
      ensures usedTime == (old(usedTime) || HasTime(TArray(m, e, d)))
      ensures usedUnsafe == (old(usedUnsafe) || NeedsUnsafe(g, TArray(m, e, d)))
      decreases e, 2
    {
      hide RawElems;
      if IsByte(e) {
        s := Seq(IfSafe(g, GuardN(m)), Do(CopyArray(ref, m)));
      } else if RawElems(g, e) && m > 0 {
        usedUnsafe := true;
        RawHasNoTime(g, e);
        s := Do(CopyRaw(ref, e));
      } else if BlitElem(g, e) && m > 0 {
        usedUnsafe := true;
        var x := FreshIdx();
        s := Do(CopyStructs(x, ref, e.name));
      } else {
        var x := FreshIdx();
        var body := UnmarshalExpr(e, RIndex(ref, x));
        s := ForLen(x, m, body);
      }
    }

    method MapEntries(ty: Ty, ref: Ref) returns (s: Stmt)
      requires ty.TMap?
      modifies this`next, this`usedTime, this`usedUnsafe
      ensures (s, next) == Emit(g, ty, ref, old(next))
      ensures usedTime == (old(usedTime) || HasTime(ty))
      ensures usedUnsafe == (old(usedUnsafe) || NeedsUnsafe(g, ty))
      decreases ty, 0
    {
      hide Emit;
      EmitMap(g, ty, ref, next);
      var cnt := FreshIdx();
      var x := FreshIdx();
      var k := FreshIdx();
      var v := FreshIdx();
      var keyCode := UnmarshalExpr(ty.key, RVar(k));
      var valCode := UnmarshalExpr(ty.val, RVar(v));
      var body := Seq(Do(Declare(k, ty.key)), Seq(Do(Declare(v, ty.val)), Seq(keyCode, Seq(valCode, Do(Assign(ref, k, v))))));
      var fill := Seq(Do(Save(cnt)), Seq(Do(ClearOrMake(ref, ty)), ForCount(x, cnt, body)));
      s := Seq(EmitVarint(g), IfZero(Do(SetNil(ref, NIL_MAP)), Seq(IfSafe(g, GuardLen), fill)));
    }

    method UnionArms(ms: seq<Name>, ref: Ref) returns (s: Stmt)
      modifies this`next, this`usedTime, this`usedUnsafe
      ensures (s, next) == Emit(g, TUnion(ms), ref, old(next))
      ensures usedTime == (old(usedTime) || HasTime(TUnion(ms)))
      ensures usedUnsafe == (old(usedUnsafe) || NeedsUnsafe(g, TUnion(ms)))
    {
      var arms: seq<Arm> := [];
      while |arms| < |ms|
        invariant |arms| <= |ms| && next == old(next) + |arms|
        invariant usedTime == old(usedTime) && usedUnsafe == old(usedUnsafe)
        invariant arms == Arms(ms, old(next))[..|arms|]
      {
        var x := FreshIdx();
        arms := arms + [Arm(x, ms[|arms|])];
      }
      assert arms == Arms(ms, old(next));
      s := Seq(EmitVarint(g), Switch(ref, arms, g.mode.Safe?));
    }

    /** The non-nil part of a slice. */
    method SliceElems(e: Ty, d: Decl, ref: Ref) returns (s: Stmt)
      modifies this`next, this`usedTime, this`usedUnsafe
      ensures (s, next) == EmitElems(g, e, d, ref, old(next))
      ensures usedTime == (old(usedTime) || HasTime(TSlice(e, d)))
      ensures usedUnsafe == (old(usedUnsafe) || NeedsUnsafe(g, TSlice(e, d)))
      decreases e, 2
    {
      hide Emit;
      if IsByte(e) {
        s := Do(if g.mode.Safe? then AppendBytes(ref) else AliasBytes(ref));
      } else if RawElems(g, e) {
        usedUnsafe := true;
        RawHasNoTime(g, e);
        s := Seq(Do(GrowSlice(ref, e, d)), Do(CopyRaw(ref, e)));
      } else if BlitElem(g, e) {
        usedUnsafe := true;
        var x := FreshIdx();
        s := Seq(Do(GrowSlice(ref, e, d)), Do(CopyStructs(x, ref, e.name)));
      } else {
        var x := FreshIdx();
        var body := UnmarshalExpr(e, RIndex(ref, x));
        s := Seq(Do(GrowSlice(ref, e, d)), ForRange(x, ref, body));
      }
    }

    /** Writes a target's Unmarshal: its fields in declaration order. */
    method EmitUnmarshal(n: Name) returns (s: Stmt)
      modifies this`next, this`usedTime, this`usedUnsafe
      ensures s == Method(g, n, old(next)) && next == AfterUnmarshal(g, n, old(next))
      ensures usedTime == (old(usedTime) || MethodHasTime(g, n))
      ensures usedUnsafe == (old(usedUnsafe) || MethodUnsafe(g, n))
    {
      hide Emit, HasTime, NeedsUnsafe;
      if Blittable(g, n) {
        usedUnsafe := true;
        BlitHasNoTime(g, n);
        s := Do(Memmove(n));
        return;
      }
      var tys, code := FieldsOf(g, n), [];
      assert tys[0..] == tys;
      while |code| < |tys|
        invariant |code| <= |tys|
        invariant var (rest, end) := EmitFields(g, tys[|code|..], |code|, next);
                  EmitFields(g, tys, 0, old(next)) == (Chain(code, rest), end)
        invariant usedTime == (old(usedTime) || exists k :: 0 <= k < |code| && HasTime(tys[k]))
        invariant usedUnsafe == (old(usedUnsafe) || exists k :: 0 <= k < |code| && NeedsUnsafe(g, tys[k]))
      {
        var k := |code|;
        var f := UnmarshalExpr(tys[k], RField(k));
        assert tys[k..][1..] == tys[k + 1..];
        ChainSnoc(code, f, EmitFields(g, tys[k + 1..], k + 1, next).0);
        code := code + [f];
      }
      s := Chain(code, Do(Skip));
    }

    // -----------------------------------------------------------------
    // The file
    // -----------------------------------------------------------------

    /** Writes a target's four methods. */
    method EmitMethods(n: Name) returns (m: Methods, s: Starts)
      modifies this`next, this`usedTime, this`usedUnsafe
      ensures m == MethodsOf(g, n, s) && Fresh(MethodsTemps(m), old(next), next)
      ensures usedTime == (old(usedTime) || MethodHasTime(g, n))
      ensures usedUnsafe == (old(usedUnsafe) || TargetUnsafe(g, n))
    {
      hide E.Method, Method, MethodHasTime, EncMethodUnsafe, MethodUnsafe, EncTemps, Temps, Fresh, AfterEncode, AfterUnmarshal;
      var c0 := next;
      var size := EmitEncoder(E.Sizing, n);
      var c1 := next;
      var marshal := EmitEncoder(E.Writing, n);
      var c2 := next;
      var append := EmitEncoder(E.Writing, n);
      var c3 := next;
      var unmarshal := EmitUnmarshal(n);
      m, s := Methods(size, marshal, append, unmarshal), Starts(c0, c1, c2, c3);
      EncodeMethodFresh(g, E.Sizing, n, c0);
      EncodeMethodFresh(g, E.Writing, n, c1);
      EncodeMethodFresh(g, E.Writing, n, c2);
      MethodFresh(g, n, c3);
      FreshConcat(EncTemps(size), EncTemps(marshal), c0, c1, c2);
      FreshConcat(EncTemps(size) + EncTemps(marshal), EncTemps(append), c0, c2, c3);
      FreshConcat(EncTemps(size) + EncTemps(marshal) + EncTemps(append), Temps(unmarshal), c0, c3, next);
    }

    /** Writes every target's methods: those the interpreters run. No two temporaries of the
        file have the same number. The flags are set for time.Time and for raw copies, which
        is all the header goes by. */
    method Generate(targets: seq<Name>) returns (code: map<Name, Methods>, starts: map<Name, Starts>)
      requires !usedTime && !usedUnsafe
      requires forall i, j :: 0 <= i < j < |targets| ==> targets[i] != targets[j]
      modifies this`next, this`usedTime, this`usedUnsafe
      ensures forall n :: n in targets ==> n in code && n in starts && code[n] == MethodsOf(g, n, starts[n])
      ensures Fresh(FileTemps(code, targets), old(next), next)
      ensures usedTime <==> exists n :: n in targets && MethodHasTime(g, n)
      ensures usedUnsafe <==> exists n :: n in targets && TargetUnsafe(g, n)
      ensures Imported(code, targets, usedTime, usedUnsafe) <==> OwnTypes(g, targets)
      ensures usedTime ==> exists n :: n in targets && Names(code[n].unmarshal, "time")
      ensures usedUnsafe ==> exists n :: n in targets && MethodsUnsafe(code[n])
    {
      hide MethodsOf, MethodHasTime, TargetUnsafe, MethodsUnsafe, OwnTypes, Imported, Names, Fresh, FileTemps, MethodsTemps;
      code, starts := map[], map[];
      var i := 0;
      NoTemps(code, next);
      while i < |targets|
        invariant 0 <= i <= |targets|
        invariant forall n :: n in targets[..i] ==> n in code && n in starts && code[n] == MethodsOf(g, n, starts[n])
        invariant Fresh(FileTemps(code, targets[..i]), old(next), next)
        invariant usedTime <==> exists n :: n in targets[..i] && MethodHasTime(g, n)
        invariant usedUnsafe <==> exists n :: n in targets[..i] && TargetUnsafe(g, n)
      {
        var n, c := targets[i], next;
        var m, s := EmitMethods(n);
        FileTempsSnoc(code, targets[..i], n, m);
        FreshConcat(FileTemps(code, targets[..i]), MethodsTemps(m), old(next), c, next);
        code, starts := code[n := m], starts[n := s];
        assert targets[..i + 1] == targets[..i] + [n];
        i := i + 1;
      }
      assert targets[..i] == targets;
      ImportsSuffice(g, targets, code, starts, usedTime, usedUnsafe);
    }
  }
}
