/** The emitted Size, Marshal and Append compute the wire format, in both modes, for every
    schema. */
module EncodeCorrect {
  import opened Bytes
  import opened Varint
  import opened Schema
  import opened Memory
  import opened Codec
  import opened Places
  import opened Marshal
  import opened Encoders
  import Program
  import EmitCorrect
  import RoundTrip
  import Unmarshal

  type Starts = map<Name, nat>

  // ---------------------------------------------------------------------
  // Sequencing and the shared snippets
  // ---------------------------------------------------------------------

  lemma RunDo(g: Gen, job: Job, starts: Starts, fuel: nat, p: Prim, st: Env, out: Sink)
    ensures Run(g, job, starts, fuel, Do(p), st, out) == Step(g, p, st, out)
  {}

  /** Two statements that put out `u` and then `w`. */
  lemma RunSeq(g: Gen, job: Job, starts: Starts, fuel: nat, s1: Stmt, s2: Stmt, st: Env, out: Sink, u: Bytes, w: Bytes)
    requires Room(job, out, u + w)
    requires Room(job, out, u) ==> Run(g, job, starts, fuel, s1, st, out) == Done(Give(out, u))
    requires Room(job, out, u) ==> Room(job, Give(out, u), w) ==>
               Run(g, job, starts, fuel, s2, st, Give(out, u)) == Done(Give(Give(out, u), w))
    ensures Run(g, job, starts, fuel, Seq(s1, s2), st, out) == Done(Give(out, u + w))
  {
    GiveMore(job, out, u, w);
  }

  lemma LenCode(g: Gen, job: Job, starts: Starts, fuel: nat, r: Ref, st: Env, out: Sink)
    requires Program.RefOk(st, r) && Room(job, out, Leb(Length(Program.Get(st, r))))
    ensures Run(g, job, starts, fuel, EmitLen(job, r), st, out) == Done(Give(out, Leb(Length(Program.Get(st, r)))))
  {
    hide Leb, UvarintSize;
    UvarintSizeIsLength(Length(Program.Get(st, r)));
  }

  lemma TextCode(g: Gen, job: Job, starts: Starts, fuel: nat, r: Ref, st: Env, out: Sink)
    requires Program.RefOk(st, r) && Room(job, out, TextOf(Program.Get(st, r)))
    requires !Program.Get(st, r).VMap?
    ensures Run(g, job, starts, fuel, Do(if job.Sizing? then CountItems(r, 1) else WriteText(r)), st, out)
         == Done(Give(out, TextOf(Program.Get(st, r))))
  {}

  lemma LiteralCode(g: Gen, job: Job, w: Bytes, st: Env, out: Sink)
    requires Room(job, out, w)
    ensures Step(g, Literal(job, w), st, out) == Done(Give(out, w))
  {}

  // ---------------------------------------------------------------------
  // The theorem, case by case
  // ---------------------------------------------------------------------

  /** The place holds a value of the type, was named before `c`, needs no deeper calls than
      there are, and the sink has room for its encoding. */
  ghost predicate Ready(g: Gen, job: Job, fuel: nat, ty: Ty, r: Ref, c: nat, st: Env, out: Sink) {
    && Program.RefOk(st, r) && Below(r, c) && WfTy(ty) && HasTy(g, ty, Program.Get(st, r))
    && Depth(Program.Get(st, r)) <= fuel && Room(job, out, Enc(g, ty, Program.Get(st, r)))
  }

  lemma {:induction false} EncodeIsCorrect(g: Gen, job: Job, starts: Starts, fuel: nat,
                                           ty: Ty, r: Ref, c: nat, st: Env, out: Sink)
    requires Ready(g, job, fuel, ty, r, c, st, out)
    ensures Run(g, job, starts, fuel, Emit(g, job, ty, r, c).0, st, out) == Done(Give(out, Enc(g, ty, Program.Get(st, r))))
    decreases Program.Get(st, r), 5
  {
    hide Run, EncElems, EncEntries, EncStruct, EmitElems, EmitArray, Leb, AllHaveTy, FieldsHaveTy, EntriesHaveTy, DistinctKeys, Below, Give, Room;
    var v := Program.Get(st, r);
    match ty
    case TScalar(k, d) => ScalarCode(g, job, starts, fuel, k, d, r, st, out);
    case TStr(_) =>
      RunSeqRoom(job, out, Leb(|v.s|), v.s);
      LenCode(g, job, starts, fuel, r, st, out);
      TextCode(g, job, starts, fuel, r, st, Give(out, Leb(|v.s|)));
      RunSeq(g, job, starts, fuel, EmitLen(job, r), Do(if job.Sizing? then CountItems(r, 1) else WriteText(r)), st, out, Leb(|v.s|), v.s);
    case TSlice(e, _) =>
      var u, w := Leb(|v.elems|), EncElems(g, e, v.elems);
      RunSeqRoom(job, out, u, w);
      LenCode(g, job, starts, fuel, r, st, out);
      ElemsCode(g, job, starts, fuel, e, r, c, st, Give(out, u));
      RunSeq(g, job, starts, fuel, EmitLen(job, r), EmitElems(g, job, e, r, c).0, st, out, u, w);
    case TArray(m, e, _) => ArrayCode(g, job, starts, fuel, m, e, r, c, st, out);
    case TPtr(e, _) => PtrCode(g, job, starts, fuel, e, r, c, st, out);
    case TMap(kt, vt, _) => MapCode(g, job, starts, fuel, kt, vt, r, c, st, out);
    case TStruct(n) =>
      DelegateCode(g, job, starts, fuel, n, v, out);
      RunCall(g, job, starts, fuel, r, n, st, out);
    case TUnion(ms) => UnionCode(g, job, starts, fuel, ms, r, st, out);
    case TSkip =>
      RunDo(g, job, starts, fuel, Nothing, st, out);
      GiveNothing(job, out);
  }

  lemma RunSeqRoom(job: Job, out: Sink, u: Bytes, w: Bytes)
    requires Room(job, out, u + w)
    ensures Room(job, out, u) && Room(job, Give(out, u), w)
  {
    GiveMore(job, out, u, w);
  }

  lemma RunCall(g: Gen, job: Job, starts: Starts, fuel: nat, r: Ref, n: Name, st: Env, out: Sink)
    requires Program.RefOk(st, r)
    ensures Run(g, job, starts, fuel, Call(r, n), st, out) == Delegate(g, job, starts, fuel, n, Program.Get(st, r), out)
  {}

  lemma ScalarCode(g: Gen, job: Job, starts: Starts, fuel: nat, k: Kind, d: Decl, r: Ref, st: Env, out: Sink)
    requires Program.RefOk(st, r) && HasTy(g, TScalar(k, d), Program.Get(st, r))
    requires Room(job, out, Enc(g, TScalar(k, d), Program.Get(st, r)))
    ensures Run(g, job, starts, fuel, Do(if job.Sizing? then Count(Width(k)) else WriteScalar(r, k)), st, out)
         == Done(Give(out, Enc(g, TScalar(k, d), Program.Get(st, r))))
  {
    hide LE;
  }

  lemma {:induction false} PtrCode(g: Gen, job: Job, starts: Starts, fuel: nat, e: Ty, r: Ref, c: nat, st: Env, out: Sink)
    requires Ready(g, job, fuel, TPtr(e), r, c, st, out)
    ensures Run(g, job, starts, fuel, Emit(g, job, TPtr(e), r, c).0, st, out)
         == Done(Give(out, Enc(g, TPtr(e), Program.Get(st, r))))
    decreases Program.Get(st, r), 4
  {
    hide Run, Give, Room;
    var v := Program.Get(st, r);
    var code := Emit(g, job, e, Program.RDeref(r), c).0;
    RunIfNonNil(g, job, starts, fuel, r, code, Do(Nothing), st, out);
    RunIfNonNil(g, job, starts, fuel, r, Seq(Do(Write([1])), code), Do(Write([0])), st, out);
    if v.VNil? {
      NilFlag(g, job, starts, fuel, r, code, st, out);
    } else {
      var w := Enc(g, e, v.v);
      RunSeqRoom(job, out, [1], w);
      FlagCode(g, job, starts, fuel, st, out);
      EncodeIsCorrect(g, job, starts, fuel, e, Program.RDeref(r), c, st, Give(out, [1]));
      RunIfNonNil(g, job, starts, fuel, r, code, Do(Nothing), st, Give(out, [1]));
      if job.Sizing? {
        RunSeq(g, job, starts, fuel, Do(Count(1)), IfNonNil(r, code, Do(Nothing)), st, out, [1], w);
      } else {
        RunSeq(g, job, starts, fuel, Do(Write([1])), code, st, out, [1], w);
      }
    }
  }

  lemma RunIfNonNil(g: Gen, job: Job, starts: Starts, fuel: nat, r: Ref, s1: Stmt, s2: Stmt, st: Env, out: Sink)
    requires Program.RefOk(st, r)
    ensures Run(g, job, starts, fuel, IfNonNil(r, s1, s2), st, out)
         == Run(g, job, starts, fuel, if Program.Get(st, r) != VNil then s1 else s2, st, out)
  {}

  lemma FlagCode(g: Gen, job: Job, starts: Starts, fuel: nat, st: Env, out: Sink)
    requires Room(job, out, [1])
    ensures Run(g, job, starts, fuel, Do(if job.Sizing? then Count(1) else Write([1])), st, out) == Done(Give(out, [1]))
  {}

  lemma NilFlag(g: Gen, job: Job, starts: Starts, fuel: nat, r: Ref, code: Stmt, st: Env, out: Sink)
    requires Program.RefOk(st, r) && Program.Get(st, r) == VNil && Room(job, out, [0])
    ensures job.Writing? ==>
              Run(g, job, starts, fuel, IfNonNil(r, Seq(Do(Write([1])), code), Do(Write([0]))), st, out) == Done(Give(out, [0]))
    ensures job.Sizing? ==>
              Run(g, job, starts, fuel, Seq(Do(Count(1)), IfNonNil(r, code, Do(Nothing))), st, out) == Done(Give(out, [0]))
  {
    assert Run(g, job, starts, fuel, Do(Write([0])), st, out) == Step(g, Write([0]), st, out);
    if job.Sizing? {
      var out' := Total(out.s + 1);
      assert Run(g, job, starts, fuel, Do(Count(1)), st, out) == Done(out');
      assert Run(g, job, starts, fuel, IfNonNil(r, code, Do(Nothing)), st, out') == Run(g, job, starts, fuel, Do(Nothing), st, out') == Done(out');
    }
  }

  // ---------------------------------------------------------------------
  // Slices and arrays
  // ---------------------------------------------------------------------

  /** What the collection cases share. */
  ghost predicate ReadyElems(g: Gen, job: Job, fuel: nat, e: Ty, r: Ref, c: nat, st: Env, out: Sink) {
    && Program.RefOk(st, r) && Below(r, c) && (Program.Get(st, r).VSlice? || Program.Get(st, r).VArr?)
    && WfTy(e) && AllHaveTy(g, e, Program.Get(st, r).elems) && DepthSeq(Program.Get(st, r).elems) <= fuel
    && Room(job, out, EncElems(g, e, Program.Get(st, r).elems))
  }

  lemma {:induction false} ElemsCode(g: Gen, job: Job, starts: Starts, fuel: nat, e: Ty, r: Ref, c: nat, st: Env, out: Sink)
    requires ReadyElems(g, job, fuel, e, r, c, st, out)
    ensures Run(g, job, starts, fuel, EmitElems(g, job, e, r, c).0, st, out)
         == Done(Give(out, EncElems(g, e, Program.Get(st, r).elems)))
    decreases Program.Get(st, r), 3
  {
    hide Run, EncElems, EncSeq, SizeConst, Emit, HasTy, AllHaveTy, Give, Room, Below, RawElems, Leb;
    var vs := Program.Get(st, r).elems;
    if IsByte(e) {
      BytesAreElems(g, e, vs);
      TextCode(g, job, starts, fuel, r, st, out);
    } else if job.Sizing? && SizeConst(e).Constant? {
      SizeConstOfElems(g, e, vs);
      CountCode(g, starts, fuel, CountItems(r, SizeConst(e).n), st, out, EncElems(g, e, vs));
    } else if job.Writing? && RawElems(g, e) {
      RawCode(g, starts, fuel, e, r, st, out);
    } else {
      ElemsAreLoop(g, e, vs);
      if BlitElem(g, e) {
        StructsCode(g, job, starts, fuel, e.name, r, st, out);
      } else {
        SliceLoopCode(g, job, starts, fuel, e, r, c, st, out);
      }
    }
  }

  lemma {:induction false} SliceLoopCode(g: Gen, job: Job, starts: Starts, fuel: nat, e: Ty, r: Ref, c: nat, st: Env, out: Sink)
    requires Program.RefOk(st, r) && Below(r, c) && (Program.Get(st, r).VSlice? || Program.Get(st, r).VArr?)
    requires WfTy(e) && AllHaveTy(g, e, Program.Get(st, r).elems) && DepthSeq(Program.Get(st, r).elems) <= fuel
    requires Room(job, out, EncSeq(g, e, Program.Get(st, r).elems))
    ensures var body := Emit(g, job, e, if IndexElems(e) then Program.RIndex(r, c) else Program.RVar(c), c + 1).0;
            Run(g, job, starts, fuel, if IndexElems(e) then ForIndex(c, r, body) else ForEach(c, r, body), st, out)
              == Done(Give(out, EncSeq(g, e, Program.Get(st, r).elems)))
    decreases Program.Get(st, r), 2
  {
    hide Run, EncSeq, Emit, AllHaveTy, Give, Room, Below, IndexLoop, EachLoop, DepthSeq;
    var vs := Program.Get(st, r).elems;
    if IndexElems(e) {
      RunForIndex(g, job, starts, fuel, c, r, Emit(g, job, e, Program.RIndex(r, c), c + 1).0, st, out);
      assert vs[0..] == vs;
      IndexCode(g, job, starts, fuel, e, r, c, st, out, vs, 0);
    } else {
      RunForEach(g, job, starts, fuel, c, r, Emit(g, job, e, Program.RVar(c), c + 1).0, st, out);
      EachCode(g, job, starts, fuel, e, c, st, out, vs);
    }
  }

  lemma CountCode(g: Gen, starts: Starts, fuel: nat, p: Prim, st: Env, out: Sink, w: Bytes)
    requires p.CountItems? && Program.RefOk(st, p.r) && Room(Sizing, out, w)
    requires |w| == Length(Program.Get(st, p.r)) * p.width
    ensures Run(g, Sizing, starts, fuel, Do(p), st, out) == Done(Give(out, w))
  {}

  /** One copy of the elements' memory. */
  lemma RawCode(g: Gen, starts: Starts, fuel: nat, e: Ty, r: Ref, st: Env, out: Sink)
    requires Program.RefOk(st, r) && (Program.Get(st, r).VSlice? || Program.Get(st, r).VArr?) && RawElems(g, e)
    requires Room(Writing, out, EncElems(g, e, Program.Get(st, r).elems))
    ensures var want := Done(Give(out, EncElems(g, e, Program.Get(st, r).elems)));
            && (Program.Get(st, r).elems != [] ==> Run(g, Writing, starts, fuel, Do(WriteRaw(r, e)), st, out) == want)
            && Run(g, Writing, starts, fuel, IfSome(r, Do(WriteRaw(r, e))), st, out) == want
  {
    hide RawSeq;
    var vs := Program.Get(st, r).elems;
    RawBlock(g, e, vs);
    assert Run(g, Writing, starts, fuel, Do(WriteRaw(r, e)), st, out) == Step(g, WriteRaw(r, e), st, out);
    if vs == [] {
      NoRaw(g.mode.lay.big, e);
      GiveNothing(Writing, out);
    }
  }

  lemma NoRaw(big: bool, e: Ty)
    ensures RawSeq(big, e, 0, []) == []
  {}

  /** One count, or one copy, of the structs' memory. */
  lemma StructsCode(g: Gen, job: Job, starts: Starts, fuel: nat, n: Name, r: Ref, st: Env, out: Sink)
    requires Program.RefOk(st, r) && (Program.Get(st, r).VSlice? || Program.Get(st, r).VArr?) && Blittable(g, n)
    requires AllHaveTy(g, TStruct(n), Program.Get(st, r).elems) && Room(job, out, EncSeq(g, TStruct(n), Program.Get(st, r).elems))
    ensures var want := Done(Give(out, EncSeq(g, TStruct(n), Program.Get(st, r).elems)));
            && (job.Sizing? ==> Run(g, job, starts, fuel, Do(CountStructs(r, n)), st, out) == want)
            && (job.Writing? && Program.Get(st, r).elems != [] ==> Run(g, job, starts, fuel, Do(WriteStructs(r, n)), st, out) == want)
            && (job.Writing? ==> Run(g, job, starts, fuel, IfSome(r, Do(WriteStructs(r, n))), st, out) == want)
  {
    hide Run, EncSeq, Sizeof, AllHaveTy, Give, Room;
    var vs := Program.Get(st, r).elems;
    StructImagesAreLoop(g, n, vs);
    if job.Sizing? { StructsCounted(g, starts, fuel, n, r, st, out, EncSeq(g, TStruct(n), vs)); }
    else { StructsWritten(g, starts, fuel, n, r, st, out); }
  }

  lemma StructsCounted(g: Gen, starts: Starts, fuel: nat, n: Name, r: Ref, st: Env, out: Sink, w: Bytes)
    requires Program.RefOk(st, r) && Blittable(g, n) && Room(Sizing, out, w)
    requires |w| == Length(Program.Get(st, r)) * Sizeof(g, n)
    ensures Run(g, Sizing, starts, fuel, Do(CountStructs(r, n)), st, out) == Done(Give(out, w))
  {
    hide Sizeof;
  }

  lemma StructsWritten(g: Gen, starts: Starts, fuel: nat, n: Name, r: Ref, st: Env, out: Sink)
    requires Program.RefOk(st, r) && (Program.Get(st, r).VSlice? || Program.Get(st, r).VArr?) && Blittable(g, n)
    requires Room(Writing, out, StructImages(g, n, Program.Get(st, r).elems))
    ensures var want := Done(Give(out, StructImages(g, n, Program.Get(st, r).elems)));
            && (Program.Get(st, r).elems != [] ==> Run(g, Writing, starts, fuel, Do(WriteStructs(r, n)), st, out) == want)
            && Run(g, Writing, starts, fuel, IfSome(r, Do(WriteStructs(r, n))), st, out) == want
  {
    hide Run, StructImages, Give, Room;
    var vs := Program.Get(st, r).elems;
    RunDo(g, Writing, starts, fuel, WriteStructs(r, n), st, out);
    if vs != [] { StructsStep(g, n, r, st, out); }
    RunIfSome(g, starts, fuel, r, Do(WriteStructs(r, n)), st, out);
    if vs == [] {
      NoStructImages(g, n);
      GiveNothing(Writing, out);
    }
  }

  lemma StructsStep(g: Gen, n: Name, r: Ref, st: Env, out: Sink)
    requires Program.RefOk(st, r) && (Program.Get(st, r).VSlice? || Program.Get(st, r).VArr?) && Blittable(g, n)
    requires Program.Get(st, r).elems != [] && Room(Writing, out, StructImages(g, n, Program.Get(st, r).elems))
    ensures Step(g, WriteStructs(r, n), st, out) == Done(Give(out, StructImages(g, n, Program.Get(st, r).elems)))
  {
    hide StructImages, Emitted, Give, Room, Program.RefOk, Program.Get;
    EmittedGives(out, StructImages(g, n, Program.Get(st, r).elems));
  }

  lemma EmittedGives(out: Sink, w: Bytes)
    requires Room(Writing, out, w)
    ensures Emitted(out, w) == Done(Give(out, w))
  {}

  lemma NoStructImages(g: Gen, n: Name)
    requires Blittable(g, n)
    ensures StructImages(g, n, []) == []
  {}

  lemma RunIfSome(g: Gen, starts: Starts, fuel: nat, r: Ref, s: Stmt, st: Env, out: Sink)
    requires Program.RefOk(st, r)
    ensures Run(g, Writing, starts, fuel, IfSome(r, s), st, out)
         == if Length(Program.Get(st, r)) > 0 then Run(g, Writing, starts, fuel, s, st, out) else Done(out)
  {}

  lemma RunForIndex(g: Gen, job: Job, starts: Starts, fuel: nat, x: nat, r: Ref, body: Stmt, st: Env, out: Sink)
    requires Program.RefOk(st, r)
    ensures Run(g, job, starts, fuel, ForIndex(x, r, body), st, out)
         == IndexLoop(g, job, starts, fuel, x, body, 0, Length(Program.Get(st, r)), st, out)
  {}

  lemma RunForEach(g: Gen, job: Job, starts: Starts, fuel: nat, x: nat, r: Ref, body: Stmt, st: Env, out: Sink)
    requires Program.RefOk(st, r)
    ensures Run(g, job, starts, fuel, ForEach(x, r, body), st, out)
         == EachLoop(g, job, starts, fuel, x, body, Program.Items(Program.Get(st, r)), st, out)
  {}

  lemma IndexLoopStep(g: Gen, job: Job, starts: Starts, fuel: nat, x: nat, body: Stmt, k: nat, m: nat, st: Env, out: Sink)
    ensures k >= m ==> IndexLoop(g, job, starts, fuel, x, body, k, m, st, out) == Done(out)
    ensures k < m ==>
              var o := Run(g, job, starts, fuel, body, st.(idx := st.idx[x := k]), out);
              IndexLoop(g, job, starts, fuel, x, body, k, m, st, out) ==
                if o.Done? then IndexLoop(g, job, starts, fuel, x, body, k + 1, m, st, o.out) else o
  {}

  lemma EachLoopStep(g: Gen, job: Job, starts: Starts, fuel: nat, x: nat, body: Stmt, vs: seq<Val>, st: Env, out: Sink)
    ensures vs == [] ==> EachLoop(g, job, starts, fuel, x, body, vs, st, out) == Done(out)
    ensures vs != [] ==>
              var o := Run(g, job, starts, fuel, body, st.(tmp := st.tmp[x := vs[0]]), out);
              EachLoop(g, job, starts, fuel, x, body, vs, st, out) ==
                if o.Done? then EachLoop(g, job, starts, fuel, x, body, vs[1..], st, o.out) else o
  {}

  /** Elements from the `k`-th on, reached by index. */
  lemma {:induction false} IndexCode(g: Gen, job: Job, starts: Starts, fuel: nat,
                                     e: Ty, r: Ref, c: nat, st: Env, out: Sink, vs: seq<Val>, k: nat)
    requires Program.RefOk(st, r) && Below(r, c) && (Program.Get(st, r).VSlice? || Program.Get(st, r).VArr?)
    requires k <= |Program.Get(st, r).elems| && vs == Program.Get(st, r).elems[k..]
    requires WfTy(e) && AllHaveTy(g, e, vs) && DepthSeq(vs) <= fuel && Room(job, out, EncSeq(g, e, vs))
    ensures IndexLoop(g, job, starts, fuel, c, Emit(g, job, e, Program.RIndex(r, c), c + 1).0, k, |Program.Get(st, r).elems|, st, out)
         == Done(Give(out, EncSeq(g, e, vs)))
    decreases vs, 2
  {
    hide Run, IndexLoop, Enc, Emit, HasTy, Give, Room, Below, Program.RefOk, Program.Get, Agree, Depth;
    var m, body := |Program.Get(st, r).elems|, Emit(g, job, e, Program.RIndex(r, c), c + 1).0;
    IndexLoopStep(g, job, starts, fuel, c, body, k, m, st, out);
    if vs == [] {
      GiveNothing(job, out);
    } else {
      var u, w := Enc(g, e, vs[0]), EncSeq(g, e, vs[1..]);
      var st1 := st.(idx := st.idx[c := k]);
      FreshIndex(c, st, c, k);
      AgreePut(c, st1, st, r, VNil);
      Index(st1, r, c, VNil);
      RunSeqRoom(job, out, u, w);
      EncodeIsCorrect(g, job, starts, fuel, e, Program.RIndex(r, c), c + 1, st1, out);
      IndexCode(g, job, starts, fuel, e, r, c, st, Give(out, u), vs[1..], k + 1);
      GiveMore(job, out, u, w);
    }
  }

  /** Elements bound to a range variable. */
  lemma {:induction false} EachCode(g: Gen, job: Job, starts: Starts, fuel: nat,
                                    e: Ty, c: nat, st: Env, out: Sink, vs: seq<Val>)
    requires WfTy(e) && AllHaveTy(g, e, vs) && DepthSeq(vs) <= fuel && Room(job, out, EncSeq(g, e, vs))
    ensures EachLoop(g, job, starts, fuel, c, Emit(g, job, e, Program.RVar(c), c + 1).0, vs, st, out)
         == Done(Give(out, EncSeq(g, e, vs)))
    decreases vs, 2
  {
    hide Run, EachLoop, Enc, Emit, HasTy, Give, Room, Depth;
    var body := Emit(g, job, e, Program.RVar(c), c + 1).0;
    EachLoopStep(g, job, starts, fuel, c, body, vs, st, out);
    if vs == [] {
      GiveNothing(job, out);
    } else {
      var u, w := Enc(g, e, vs[0]), EncSeq(g, e, vs[1..]);
      RunSeqRoom(job, out, u, w);
      EncodeIsCorrect(g, job, starts, fuel, e, Program.RVar(c), c + 1, st.(tmp := st.tmp[c := vs[0]]), out);
      EachCode(g, job, starts, fuel, e, c, st, Give(out, u), vs[1..]);
      GiveMore(job, out, u, w);
    }
  }

  lemma {:induction false} ArrayCode(g: Gen, job: Job, starts: Starts, fuel: nat,
                                     m: nat, e: Ty, r: Ref, c: nat, st: Env, out: Sink)
    requires Ready(g, job, fuel, TArray(m, e), r, c, st, out)
    ensures Run(g, job, starts, fuel, EmitArray(g, job, m, e, r, c).0, st, out)
         == Done(Give(out, Enc(g, TArray(m, e), Program.Get(st, r))))
    decreases Program.Get(st, r), 4
  {
    hide Run, EncElems, EncSeq, SizeConst, Emit, AllHaveTy, Give, Room, Below, RawElems, IndexLoop;
    var vs := Program.Get(st, r).elems;
    if job.Sizing? && SizeConst(e).Constant? {
      SizeConstOfElems(g, e, vs);
      CountOnly(g, starts, fuel, m * SizeConst(e).n, st, out, EncElems(g, e, vs));
    } else if job.Writing? && IsByte(e) {
      BytesAreElems(g, e, vs);
      TextCode(g, job, starts, fuel, r, st, out);
    } else if job.Writing? && m > 0 && RawElems(g, e) {
      RawCode(g, starts, fuel, e, r, st, out);
    } else {
      ElemsAreLoop(g, e, vs);
      if BlitElem(g, e) && (job.Sizing? || m > 0) {
        StructsCode(g, job, starts, fuel, e.name, r, st, out);
      } else {
        var body := Emit(g, job, e, Program.RIndex(r, c), c + 1).0;
        RunForLen(g, job, starts, fuel, c, m, body, st, out);
        assert vs[0..] == vs;
        IndexCode(g, job, starts, fuel, e, r, c, st, out, vs, 0);
      }
    }
  }

  lemma CountOnly(g: Gen, starts: Starts, fuel: nat, n: nat, st: Env, out: Sink, w: Bytes)
    requires Room(Sizing, out, w) && |w| == n
    ensures Run(g, Sizing, starts, fuel, Do(Count(n)), st, out) == Done(Give(out, w))
  {}

  lemma RunForLen(g: Gen, job: Job, starts: Starts, fuel: nat, x: nat, m: nat, body: Stmt, st: Env, out: Sink)
    ensures Run(g, job, starts, fuel, ForLen(x, m, body), st, out) == IndexLoop(g, job, starts, fuel, x, body, 0, m, st, out)
  {}

  // ---------------------------------------------------------------------
  // Maps
  // ---------------------------------------------------------------------

  function MapBody(g: Gen, job: Job, kt: Ty, vt: Ty, c: nat): Stmt {
    var (keyCode, c') := Emit(g, job, kt, Program.RVar(c), c + 2);
    Seq(keyCode, Emit(g, job, vt, Program.RVar(c + 1), c').0)
  }

  lemma {:induction false} MapCode(g: Gen, job: Job, starts: Starts, fuel: nat,
                                   kt: Ty, vt: Ty, r: Ref, c: nat, st: Env, out: Sink)
    requires Ready(g, job, fuel, TMap(kt, vt), r, c, st, out)
    ensures Run(g, job, starts, fuel, Emit(g, job, TMap(kt, vt), r, c).0, st, out)
         == Done(Give(out, Enc(g, TMap(kt, vt), Program.Get(st, r))))
    decreases Program.Get(st, r), 4
  {
    hide Run, EncEntries, EntriesHaveTy, DistinctKeys, Leb, Give, Room, Below, EntriesLoop, MapBody;
    var es := Program.Get(st, r).entries;
    var u, w, body := Leb(|es|), EncEntries(g, kt, vt, es), MapBody(g, job, kt, vt, c);
    EmitMap(g, job, kt, vt, r, c);
    RunSeqRoom(job, out, u, w);
    LenCode(g, job, starts, fuel, r, st, out);
    EntriesCode(g, job, starts, fuel, kt, vt, c, st, Give(out, u), es);
    RunForEntries(g, job, starts, fuel, c, c + 1, r, body, st, Give(out, u));
    RunSeq(g, job, starts, fuel, EmitLen(job, r), ForEntries(c, c + 1, r, body), st, out, u, w);
  }

  lemma EmitMap(g: Gen, job: Job, kt: Ty, vt: Ty, r: Ref, c: nat)
    ensures Emit(g, job, TMap(kt, vt), r, c).0 == Seq(EmitLen(job, r), ForEntries(c, c + 1, r, MapBody(g, job, kt, vt, c)))
  {}

  lemma RunForEntries(g: Gen, job: Job, starts: Starts, fuel: nat, k: nat, v: nat, r: Ref, body: Stmt, st: Env, out: Sink)
    requires Program.RefOk(st, r) && Program.Get(st, r).VMap?
    ensures Run(g, job, starts, fuel, ForEntries(k, v, r, body), st, out)
         == EntriesLoop(g, job, starts, fuel, k, v, body, Program.Get(st, r).entries, st, out)
  {}

  lemma EntriesLoopStep(g: Gen, job: Job, starts: Starts, fuel: nat,
                        k: nat, v: nat, body: Stmt, es: seq<Entry>, st: Env, out: Sink)
    ensures es == [] ==> EntriesLoop(g, job, starts, fuel, k, v, body, es, st, out) == Done(out)
    ensures es != [] ==>
              var o := Run(g, job, starts, fuel, body, st.(tmp := st.tmp[k := es[0].k][v := es[0].v]), out);
              EntriesLoop(g, job, starts, fuel, k, v, body, es, st, out) ==
                if o.Done? then EntriesLoop(g, job, starts, fuel, k, v, body, es[1..], st, o.out) else o
  {}

  lemma {:induction false} EntriesCode(g: Gen, job: Job, starts: Starts, fuel: nat,
                                       kt: Ty, vt: Ty, c: nat, st: Env, out: Sink, es: seq<Entry>)
    requires WfTy(kt) && WfTy(vt) && EntriesHaveTy(g, kt, vt, es) && DepthEntries(es) <= fuel
    requires Room(job, out, EncEntries(g, kt, vt, es))
    ensures EntriesLoop(g, job, starts, fuel, c, c + 1, MapBody(g, job, kt, vt, c), es, st, out)
         == Done(Give(out, EncEntries(g, kt, vt, es)))
    decreases es, 2
  {
    hide Run, EntriesLoop, EncEntry, EntryHasTy, Give, Room, DepthEntry, MapBody;
    EntriesLoopStep(g, job, starts, fuel, c, c + 1, MapBody(g, job, kt, vt, c), es, st, out);
    if es == [] {
      GiveNothing(job, out);
    } else {
      var u, w := EncEntry(g, kt, vt, es[0]), EncEntries(g, kt, vt, es[1..]);
      RunSeqRoom(job, out, u, w);
      EntryCode(g, job, starts, fuel, kt, vt, c, st, out, es[0]);
      EntriesCode(g, job, starts, fuel, kt, vt, c, st, Give(out, u), es[1..]);
      GiveMore(job, out, u, w);
    }
  }

  lemma {:induction false} EntryCode(g: Gen, job: Job, starts: Starts, fuel: nat,
                                     kt: Ty, vt: Ty, c: nat, st: Env, out: Sink, e: Entry)
    requires WfTy(kt) && WfTy(vt) && EntryHasTy(g, kt, vt, e) && DepthEntry(e) <= fuel
    requires Room(job, out, EncEntry(g, kt, vt, e))
    ensures Run(g, job, starts, fuel, MapBody(g, job, kt, vt, c), st.(tmp := st.tmp[c := e.k][c + 1 := e.v]), out)
         == Done(Give(out, EncEntry(g, kt, vt, e)))
    decreases e, 2
  {
    hide Run, Enc, Emit, HasTy, Give, Room, Depth;
    var st1 := st.(tmp := st.tmp[c := e.k][c + 1 := e.v]);
    var (keyCode, c') := Emit(g, job, kt, Program.RVar(c), c + 2);
    var u, w := Enc(g, kt, e.k), Enc(g, vt, e.v);
    RunSeqRoom(job, out, u, w);
    EncodeIsCorrect(g, job, starts, fuel, kt, Program.RVar(c), c + 2, st1, out);
    EncodeIsCorrect(g, job, starts, fuel, vt, Program.RVar(c + 1), c', st1, Give(out, u));
    RunSeq(g, job, starts, fuel, keyCode, Emit(g, job, vt, Program.RVar(c + 1), c').0, st1, out, u, w);
  }

  // ---------------------------------------------------------------------
  // Structs, unions and methods
  // ---------------------------------------------------------------------

  lemma {:induction false} UnionCode(g: Gen, job: Job, starts: Starts, fuel: nat, ms: seq<Name>, r: Ref, st: Env, out: Sink)
    requires Program.RefOk(st, r) && WfTy(TUnion(ms)) && HasTy(g, TUnion(ms), Program.Get(st, r))
    requires Depth(Program.Get(st, r)) <= fuel && Room(job, out, Enc(g, TUnion(ms), Program.Get(st, r)))
    ensures Run(g, job, starts, fuel, TypeSwitch(r, Arms(job, ms), Literal(job, Leb(0))), st, out)
         == Done(Give(out, Enc(g, TUnion(ms), Program.Get(st, r))))
    decreases Program.Get(st, r), 4
  {
    hide Run, EncStruct, HasTy, Give, Room, Step, Delegate, Literal, Depth;
    var v := Program.Get(st, r);
    UnionParts(g, ms, v);
    RunTypeSwitch(g, job, starts, fuel, r, Arms(job, ms), Literal(job, Leb(0)), st, out);
    if v.VNil? {
      LiteralCode(g, job, Leb(0), st, out);
    } else {
      var u, w := Leb(v.tag + 1), EncStruct(g, ms[v.tag], v.v);
      RunSeqRoom(job, out, u, w);
      LiteralCode(g, job, u, st, out);
      DelegateCode(g, job, starts, fuel, ms[v.tag], v.v, Give(out, u));
      GiveMore(job, out, u, w);
    }
  }

  lemma UnionParts(g: Gen, ms: seq<Name>, v: Val)
    requires HasTy(g, TUnion(ms), v)
    ensures v.VNil? || (v.VMem? && v.tag < |ms| && HasTy(g, TStruct(ms[v.tag]), v.v) && Depth(v.v) == Depth(v))
    ensures Enc(g, TUnion(ms), v) == if v.VNil? then Leb(0) else Leb(v.tag + 1) + EncStruct(g, ms[v.tag], v.v)
  {
    hide EncStruct, Leb;
  }

  lemma RunTypeSwitch(g: Gen, job: Job, starts: Starts, fuel: nat, r: Ref, arms: seq<Arm>, none: Prim, st: Env, out: Sink)
    requires Program.RefOk(st, r)
    ensures var v := Program.Get(st, r);
            var o := Run(g, job, starts, fuel, TypeSwitch(r, arms, none), st, out);
            && (v == VNil ==> o == Step(g, none, st, out))
            && (v.VMem? && v.tag < |arms| ==>
                  var t := Step(g, arms[v.tag].tag, st, out);
                  o == if t.Done? then Delegate(g, job, starts, fuel, arms[v.tag].name, v.v, t.out) else t)
  {
    hide Step, Delegate;
  }

  /** A delegated call puts out the callee's encoding. */
  lemma {:induction false} DelegateCode(g: Gen, job: Job, starts: Starts, fuel: nat, n: Name, d: Val, out: Sink)
    requires HasTy(g, TStruct(n), d) && Depth(d) <= fuel && Room(job, out, EncStruct(g, n, d))
    ensures Delegate(g, job, starts, fuel, n, d, out) == Done(Give(out, EncStruct(g, n, d)))
    decreases d, 3
  {
    hide Run, EncStruct, HasTy, Method, Delegate;
    var w := EncStruct(g, n, d);
    var c := if n in starts then starts[n] else 0;
    var sub := Callee(out);
    DeepEnough(g, n, d);
    MethodCode(g, job, starts, fuel - 1, n, d, c, sub);
    Returned(g, job, starts, fuel, n, d, out, w);
  }

  lemma DeepEnough(g: Gen, n: Name, d: Val)
    requires HasTy(g, TStruct(n), d)
    ensures Depth(d) > 0
  {}

  /** Where a callee's output goes. */
  function Callee(out: Sink): Sink
    requires out.Buffer? ==> out.i <= |out.b|
  {
    match out
    case Total(_) => Total(0)
    case Buffer(b, i) => Buffer(b[i..], 0)
    case Growing(_) => out
  }

  /** A callee's output taken over by the caller. */
  lemma Returned(g: Gen, job: Job, starts: Starts, fuel: nat, n: Name, d: Val, out: Sink, w: Bytes)
    requires fuel > 0 && Room(job, out, w)
    requires Run(g, job, starts, fuel - 1, Method(g, job, n, if n in starts then starts[n] else 0), Program.Frame(d), Callee(out))
          == Done(Give(Callee(out), w))
    ensures Delegate(g, job, starts, fuel, n, d, out) == Done(Give(out, w))
  {
    hide Run, Method;
    if out.Buffer? { assert out.b[..out.i] + Splice(out.b[out.i..], 0, w) == Splice(out.b, out.i, w); }
  }

  lemma {:induction false} MethodCode(g: Gen, job: Job, starts: Starts, fuel: nat, n: Name, d: Val, c: nat, out: Sink)
    requires HasTy(g, TStruct(n), d) && Depth(d) <= fuel + 1 && Room(job, out, EncStruct(g, n, d))
    ensures Run(g, job, starts, fuel, Method(g, job, n, c), Program.Frame(d), out) == Done(Give(out, EncStruct(g, n, d)))
    decreases d, 2
  {
    hide Run, EncFields, EmitFields, FieldsHaveTy, Image, Sizeof, Give;
    FieldsOfTyped(g, n, d);
    StructWf(g, n);
    if Blittable(g, n) {
      SelfCode(g, job, starts, fuel, n, d, out);
    } else {
      assert d.fields[0..] == d.fields;
      FieldsCode(g, job, starts, fuel, FieldsOf(g, n), 0, c, Program.Frame(d), out, d.fields);
    }
  }

  /** A raw-copied struct's own methods. */
  lemma SelfCode(g: Gen, job: Job, starts: Starts, fuel: nat, n: Name, d: Val, out: Sink)
    requires Blittable(g, n) && d.VStruct? && |d.fields| == |FieldsOf(g, n)| && Room(job, out, EncStruct(g, n, d))
    ensures Run(g, job, starts, fuel, Do(if job.Sizing? then CountSelf(n) else WriteSelf(n)), Program.Frame(d), out)
         == Done(Give(out, EncStruct(g, n, d)))
  {
    hide Image, Sizeof;
    RunDo(g, job, starts, fuel, if job.Sizing? then CountSelf(n) else WriteSelf(n), Program.Frame(d), out);
    assert |EncStruct(g, n, d)| == Sizeof(g, n);
  }

  lemma {:induction false} FieldsCode(g: Gen, job: Job, starts: Starts, fuel: nat,
                                      tys: seq<Ty>, k: nat, c: nat, st: Env, out: Sink, vs: seq<Val>)
    requires st.recv.VStruct? && k <= |st.recv.fields| && vs == st.recv.fields[k..]
    requires WfFields(tys) && FieldsHaveTy(g, tys, vs) && DepthSeq(vs) <= fuel && Room(job, out, EncFields(g, tys, vs))
    ensures Run(g, job, starts, fuel, EmitFields(g, job, tys, k, c).0, st, out) == Done(Give(out, EncFields(g, tys, vs)))
    decreases vs, 2
  {
    hide Run, Enc, Emit, HasTy, Give, Room, Depth;
    if tys == [] {
      RunDo(g, job, starts, fuel, Nothing, st, out);
      GiveNothing(job, out);
    } else {
      var (code, c') := Emit(g, job, tys[0], Program.RField(k), c);
      var u, w := Enc(g, tys[0], vs[0]), EncFields(g, tys[1..], vs[1..]);
      RunSeqRoom(job, out, u, w);
      EncodeIsCorrect(g, job, starts, fuel, tys[0], Program.RField(k), c, st, out);
      FieldsCode(g, job, starts, fuel, tys[1..], k + 1, c', st, Give(out, u), vs[1..]);
      RunSeq(g, job, starts, fuel, code, EmitFields(g, job, tys[1..], k + 1, c').0, st, out, u, w);
    }
  }

  // ---------------------------------------------------------------------
  // The three methods
  // ---------------------------------------------------------------------

  /** The emitted Size returns the encoded length; the emitted Marshal, on any buffer with
      that much room from `i` on, writes exactly the encoding there and returns its length;
      the emitted Append returns the buffer followed by the encoding. */
  lemma EncodersAreCorrect(g: Gen, starts: Starts, fuel: nat, n: Name, v: Val, b: Bytes, i: nat)
    requires HasTy(g, TStruct(n), v) && Depth(v) <= fuel
    ensures Delegate(g, Sizing, starts, fuel, n, v, Total(0)) == Done(Total(|EncStruct(g, n, v)|))
    ensures i + |EncStruct(g, n, v)| <= |b| ==>
              Delegate(g, Writing, starts, fuel, n, v, Buffer(b, i))
                == Done(Buffer(Splice(b, i, EncStruct(g, n, v)), i + |EncStruct(g, n, v)|))
    ensures Delegate(g, Writing, starts, fuel, n, v, Growing(b)) == Done(Growing(b + EncStruct(g, n, v)))
  {
    hide Delegate, EncStruct, HasTy, Depth;
    DelegateCode(g, Sizing, starts, fuel, n, v, Total(0));
    if i + |EncStruct(g, n, v)| <= |b| { DelegateCode(g, Writing, starts, fuel, n, v, Buffer(b, i)); }
    DelegateCode(g, Writing, starts, fuel, n, v, Growing(b));
  }

  /** The two programs together: what emitted Append wrote, followed by anything, emitted
      Unmarshal reads back into any destination, with empty collections nil; in safe mode
      when the length guards pass. */
  lemma ProgramsRoundTrip(g: Gen, starts: Starts, starts': Starts, fuel: nat, fuel': nat, n: Name, d: Val, v: Val, s: Bytes)
    requires HasTy(g, TStruct(n), d) && HasTy(g, TStruct(n), v) && Depth(v) <= fuel
    requires fuel' >= EmitCorrect.Need(g, |EncStruct(g, n, v) + s|, RankOf(g, n) + 1)
    requires g.mode.Safe? ==> RoundTrip.FitsStruct(g, n, v, |s|)
    ensures var o := Delegate(g, Writing, starts, fuel, n, v, Growing([]));
            o.Done? && o.out.Growing? &&
            var p := Program.Invoke(g, starts', fuel', n, d, o.out.b + s);
            p.Next? && p.st.i == |o.out.b| && View(p.st.recv) == Norm(v)
  {
    hide Delegate, EncStruct, HasTy, Depth, Program.Invoke, RoundTrip.FitsStruct;
    EncodersAreCorrect(g, starts, fuel, n, v, [], 0);
    assert [] + EncStruct(g, n, v) == EncStruct(g, n, v);
    Unmarshal.MethodRoundTrip(g, starts', fuel', n, d, v, s);
  }
}
