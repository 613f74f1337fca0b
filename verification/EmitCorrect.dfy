/** The emitted programs compute what the reference decoder says, in both modes, for
    every schema: same destination, same offset, same error. */
module EmitCorrect {
  import opened Bytes
  import opened Varint
  import opened Schema
  import opened Memory
  import opened Codec
  import opened Reuse
  import opened Program
  import opened Places
  import opened Destination

  type Starts = map<Name, nat>

  /** Running the code for `r` from `st` had the outcome `out` says. */
  ghost predicate Matches(c: nat, st: State, r: Ref, out: Out<Val>, o: Outcome)
    requires RefOk(st, r)
  {
    Reached(c, st, out.e, out.n, Put(st, r, out.v), o)
  }

  /** From `st`, execution went on or returned `e`, `n` bytes later, in the state `after`. */
  ghost predicate Reached(c: nat, st: State, e: Err, n: nat, after: State, o: Outcome) {
    match e
    case NoErr => o.Next? && o.st.i == st.i + n && Agree(c, o.st, after)
    case Unchecked => o.Crash?
    case _ => o.Return? && o.e == e && o.st.i == st.i + n && Agree(c, o.st, after)
  }

  // ---------------------------------------------------------------------
  // Call depth
  // ---------------------------------------------------------------------

  /** Call depth that suffices with `rem` bytes left at by-value rank `rank`. */
  function Need(g: Gen, rem: nat, rank: nat): nat { rem * (g.height + 1) + rank }

  lemma NeedLess(g: Gen, rem: nat, rem': nat, rank: nat, rank': nat)
    requires rem' < rem && rank' <= g.height
    ensures Need(g, rem', rank') < Need(g, rem, rank)
  {
    MulGap(rem, rem', g.height + 1);
  }

  lemma NeedSame(g: Gen, rem: nat, rem': nat, rank: nat, rank': nat)
    requires rem' <= rem && rank' <= rank
    ensures Need(g, rem', rank') <= Need(g, rem, rank)
  {
    if rem' < rem { MulGap(rem, rem', g.height + 1); }
  }

  lemma MulGap(x: nat, y: nat, h: nat)
    requires y < x
    ensures y * h + h <= x * h
  {
    assert x * h == y * h + (x - y) * h;
    MulGrows(h, x - y);
  }

  lemma {:induction false} RankBelowHeight(g: Gen, ty: Ty)
    ensures TyRank(g, ty) <= g.height
  {
    if ty.TArray? { RankBelowHeight(g, ty.elem); }
  }

  // ---------------------------------------------------------------------
  // Sequencing and the shared snippets
  // ---------------------------------------------------------------------

  lemma ExecSeq(g: Gen, starts: Starts, fuel: nat, s1: Stmt, s2: Stmt, b: Bytes, st: State)
    ensures var o := Exec(g, starts, fuel, s1, b, st);
            Exec(g, starts, fuel, Seq(s1, s2), b, st) == if o.Next? then Exec(g, starts, fuel, s2, b, o.st) else o
  {}

  lemma ExecDo(g: Gen, starts: Starts, fuel: nat, p: Prim, b: Bytes, st: State)
    ensures Exec(g, starts, fuel, Do(p), b, st) == Step(g, p, b, st)
  {}

  lemma ExecIfZero(g: Gen, starts: Starts, fuel: nat, s1: Stmt, s2: Stmt, b: Bytes, st: State)
    ensures Exec(g, starts, fuel, IfZero(s1, s2), b, st) == Exec(g, starts, fuel, if st.nn == 0 then s1 else s2, b, st)
  {}

  /** `n` bytes must be left, in safe mode. */
  lemma AfterGuardN(g: Gen, starts: Starts, fuel: nat, n: nat, rest: Stmt, b: Bytes, st: State)
    requires st.i <= |b|
    ensures Exec(g, starts, fuel, Seq(IfSafe(g, GuardN(n)), rest), b, st)
         == if g.mode.Safe? && |b| - st.i < n then Return(st, ShortBuffer) else Exec(g, starts, fuel, rest, b, st)
  {
    ExecSeq(g, starts, fuel, IfSafe(g, GuardN(n)), rest, b, st);
    ExecDo(g, starts, fuel, if g.mode.Safe? then GuardN(n) else Skip, b, st);
  }

  lemma AfterGuardLen(g: Gen, starts: Starts, fuel: nat, rest: Stmt, b: Bytes, st: State)
    requires st.i <= |b|
    ensures Exec(g, starts, fuel, Seq(IfSafe(g, GuardLen), rest), b, st)
         == if g.mode.Safe? && |b| - st.i < st.nn then Return(st, ShortBuffer) else Exec(g, starts, fuel, rest, b, st)
  {
    ExecSeq(g, starts, fuel, IfSafe(g, GuardLen), rest, b, st);
    ExecDo(g, starts, fuel, if g.mode.Safe? then GuardLen else Skip, b, st);
  }

  /** The state once a count or tag is in `nn`. */
  function Counted(b: Bytes, st: State): State
    requires st.i <= |b| && Uvarint(b[st.i..]).1 > 0
  {
    st.(nn := Uvarint(b[st.i..]).0, cc := Uvarint(b[st.i..]).1, i := st.i + Uvarint(b[st.i..]).1)
  }

  lemma AfterVarint(g: Gen, starts: Starts, fuel: nat, rest: Stmt, b: Bytes, st: State)
    requires st.i <= |b|
    ensures var o := Exec(g, starts, fuel, Seq(EmitVarint(g), rest), b, st);
            var (nn, cc) := Uvarint(b[st.i..]);
            if cc > 0 then o == Exec(g, starts, fuel, rest, b, Counted(b, st))
            else if g.mode.Safe? then o == Return(st.(nn := nn, cc := cc), ShortBuffer)
            else o == Crash
  {
    ExecSeq(g, starts, fuel, EmitVarint(g), rest, b, st);
    ExecDo(g, starts, fuel, ReadVarint(g.mode.Safe?), b, st);
  }

  // The primitives, where the place they write exists.

  lemma DoSetNil(g: Gen, starts: Starts, fuel: nat, r: Ref, v: Val, b: Bytes, st: State)
    requires st.i <= |b| && RefOk(st, r)
    ensures Exec(g, starts, fuel, Do(SetNil(r, v)), b, st) == Next(Put(st, r, v))
  {}

  lemma DoReadStr(g: Gen, starts: Starts, fuel: nat, r: Ref, b: Bytes, st: State)
    requires st.i <= |b| && RefOk(st, r)
    ensures Exec(g, starts, fuel, Do(ReadStr(r)), b, st)
         == if |b| - st.i < st.nn then Crash
            else Next(Put(st, r, VStr(b[st.i..st.i + st.nn])).(i := st.i + st.nn))
  {}

  lemma DoBytes(g: Gen, starts: Starts, fuel: nat, r: Ref, b: Bytes, st: State)
    requires st.i <= |b| && RefOk(st, r)
    ensures Exec(g, starts, fuel, Do(if g.mode.Safe? then AppendBytes(r) else AliasBytes(r)), b, st)
         == if |b| - st.i < st.nn then Crash
            else
              var s := b[st.i..st.i + st.nn];
              Next(Put(st, r, if g.mode.Safe? then AppendAll(Get(st, r), s) else VSlice(false, ByteVals(s), [])).(i := st.i + st.nn))
  {}

  lemma DoGrow(g: Gen, starts: Starts, fuel: nat, r: Ref, e: Ty, d: Decl, b: Bytes, st: State)
    requires st.i <= |b| && RefOk(st, r) && (g.mode.Safe? ==> st.nn <= |b| - st.i)
    ensures Exec(g, starts, fuel, Do(GrowSlice(r, e, d)), b, st) == Next(Put(st, r, Grow(Get(st, r), st.nn, Zero(g, e))))
  {}

  lemma DoNewIfNil(g: Gen, starts: Starts, fuel: nat, r: Ref, e: Ty, b: Bytes, st: State)
    requires st.i <= |b| && RefOk(st, r)
    ensures Exec(g, starts, fuel, Do(NewIfNil(r, e)), b, st) == Next(Put(st, r, VRef(Pointee(Get(st, r), Zero(g, e)))))
  {}

  /** A statement that failed without touching the destination. */
  lemma Untouched(c: nat, st: State, r: Ref, s: State)
    requires RefOk(st, r) && s.recv == st.recv && s.tmp == st.tmp && s.idx == st.idx
    ensures Agree(c, s, Put(st, r, Get(st, r)))
  {
    PutSame(st, r);
  }

  /** A register update before a write is invisible in the result. */
  lemma AfterRegisters(c: nat, st: State, r: Ref, s: State, v: Val)
    requires RefOk(st, r) && Below(r, c) && s.recv == st.recv && s.tmp == st.tmp && s.idx == st.idx
    ensures RefOk(s, r) && Get(s, r) == Get(st, r) && Agree(c, Put(s, r, v), Put(st, r, v))
  {
    AgreePut(c, s, st, r, v);
  }

  // ---------------------------------------------------------------------
  // The theorem, case by case
  // ---------------------------------------------------------------------

  /** What the cases share: the place exists, holds a value of the type, was named
      before `c`, and the call depth suffices. */
  ghost predicate Ready(g: Gen, fuel: nat, ty: Ty, r: Ref, c: nat, b: Bytes, st: State) {
    && st.i <= |b| && RefOk(st, r) && Below(r, c) && HasTy(g, ty, Get(st, r))
    && fuel >= Need(g, |b| - st.i, TyRank(g, ty))
  }

  lemma {:induction false} EmitIsCorrect(g: Gen, starts: Starts, fuel: nat, ty: Ty, r: Ref, c: nat, b: Bytes, st: State)
    requires Ready(g, fuel, ty, r, c, b, st)
    ensures Matches(c, st, r, DecInto(g, ty, Get(st, r), b[st.i..]), Exec(g, starts, fuel, Emit(g, ty, r, c).0, b, st))
    decreases |b| - st.i, TyRank(g, ty), ty, 3
  {
    hide DecSliceInto, DecArrayInto, DecPtrInto, DecMapInto, DecStructInto, DecUnionInto, Exec, Matches;
    match ty
    case TScalar(k, decl) => ScalarCode(g, starts, fuel, k, decl, r, c, b, st);
    case TStr(_) => StrCode(g, starts, fuel, r, c, b, st);
    case TSlice(e, d) => SliceCode(g, starts, fuel, e, d, r, c, b, st);
    case TArray(m, e, _) => ArrayCode(g, starts, fuel, m, e, r, c, b, st);
    case TPtr(e, _) => PtrCode(g, starts, fuel, e, r, c, b, st);
    case TMap(kt, vt, d) => MapCode(g, starts, fuel, kt, vt, d, r, c, b, st);
    case TStruct(n) => StructCode(g, starts, fuel, n, r, c, b, st);
    case TUnion(ms) => UnionCode(g, starts, fuel, ms, r, c, b, st);
    case TSkip => SkipCode(g, starts, fuel, r, c, b, st);
  }

  lemma ScalarCode(g: Gen, starts: Starts, fuel: nat, k: Kind, decl: Decl, r: Ref, c: nat, b: Bytes, st: State)
    requires Ready(g, fuel, TScalar(k, decl), r, c, b, st)
    ensures Matches(c, st, r, DecInto(g, TScalar(k, decl), Get(st, r), b[st.i..]),
                    Exec(g, starts, fuel, Seq(IfSafe(g, GuardN(Width(k))), Do(ReadScalar(r, k, decl))), b, st))
  {
    hide Exec, ScalarOf, Patterns, InRange;
    AfterGuardN(g, starts, fuel, Width(k), Do(ReadScalar(r, k, decl)), b, st);
    ExecDo(g, starts, fuel, ReadScalar(r, k, decl), b, st);
    Untouched(c, st, r, st);
    var w := Width(k);
    if st.i + w <= |b| { assert b[st.i..][..w] == b[st.i..st.i + w]; }
  }

  lemma StrCode(g: Gen, starts: Starts, fuel: nat, r: Ref, c: nat, b: Bytes, st: State)
    requires Ready(g, fuel, TStr(Builtin), r, c, b, st)
    ensures Matches(c, st, r, DecInto(g, TStr(Builtin), Get(st, r), b[st.i..]), Exec(g, starts, fuel, Emit(g, TStr(Builtin), r, c).0, b, st))
  {
    hide Exec, Uvarint, HasTy, RefOk, Get, Put, Step, Below;
    var read := Do(ReadStr(r));
    AfterVarint(g, starts, fuel, Seq(IfSafe(g, GuardLen), read), b, st);
    var (nn, cc) := Uvarint(b[st.i..]);
    Untouched(c, st, r, st.(nn := nn, cc := cc));
    if cc > 0 {
      var s := Counted(b, st);
      AfterGuardLen(g, starts, fuel, read, b, s);
      Untouched(c, st, r, s);
      AfterRegisters(c, st, r, s, VStr(if nn <= |b| - s.i then b[s.i..s.i + nn] else []));
      DoReadStr(g, starts, fuel, r, b, s);
      if nn <= |b| - s.i {
        assert b[st.i..][cc..cc + nn] == b[s.i..s.i + nn];
        PutGet(s, r, VStr(b[s.i..s.i + nn]));
      }
    }
  }

  lemma SkipCode(g: Gen, starts: Starts, fuel: nat, r: Ref, c: nat, b: Bytes, st: State)
    requires Ready(g, fuel, TSkip, r, c, b, st)
    ensures Matches(c, st, r, DecInto(g, TSkip, Get(st, r), b[st.i..]), Exec(g, starts, fuel, Do(Skip), b, st))
  {
    PutSame(st, r);
  }

  lemma {:induction false} PtrCode(g: Gen, starts: Starts, fuel: nat, e: Ty, r: Ref, c: nat, b: Bytes, st: State)
    requires Ready(g, fuel, TPtr(e), r, c, b, st)
    ensures Matches(c, st, r, DecPtrInto(g, e, Get(st, r), b[st.i..]), Exec(g, starts, fuel, Emit(g, TPtr(e), r, c).0, b, st))
    decreases |b| - st.i, 0, e, 1
  {
    hide Exec, DecInto, Matches, RefOk, Get, Put, Step, Below, Agree;
    var code := Emit(g, e, RDeref(r), c).0;
    var flag := IfFlag(Seq(Do(NewIfNil(r, e)), code), Do(SetNil(r, VNil)));
    AfterGuardN(g, starts, fuel, 1, flag, b, st);
    ExecIfFlag(g, starts, fuel, Seq(Do(NewIfNil(r, e)), code), Do(SetNil(r, VNil)), b, st);
    var out := DecPtrInto(g, e, Get(st, r), b[st.i..]);
    var o := Exec(g, starts, fuel, Emit(g, TPtr(e), r, c).0, b, st);
    if st.i == |b| {
      Untouched(c, st, r, st);
      MatchesError(c, st, r, out, o);
    } else if b[st.i] == 0 {
      var s := st.(i := st.i + 1);
      AfterRegisters(c, st, r, s, VNil);
      PutGet(s, r, VNil);
      DoSetNil(g, starts, fuel, r, VNil, b, s);
      MatchesNext(c, st, r, out, o);
    } else {
      PointeeCode(g, starts, fuel, e, r, c, b, st);
    }
  }

  /** Past a non-zero flag: reuse or allocate the pointee, then decode into it. */
  lemma {:induction false} PointeeCode(g: Gen, starts: Starts, fuel: nat, e: Ty, r: Ref, c: nat, b: Bytes, st: State)
    requires Ready(g, fuel, TPtr(e), r, c, b, st) && st.i < |b| && b[st.i] != 0
    ensures Matches(c, st, r, DecPtrInto(g, e, Get(st, r), b[st.i..]),
                    Exec(g, starts, fuel, Seq(Do(NewIfNil(r, e)), Emit(g, e, RDeref(r), c).0), b, st.(i := st.i + 1)))
    decreases |b| - st.i, 0, e, 0
  {
    hide Exec, DecInto, Matches, RefOk, Get, Put, Step, Below, Agree, Emit;
    var s := st.(i := st.i + 1);
    var p := Pointee(Get(st, r), Zero(g, e));
    var q := DecInto(g, e, p, b[s.i..]);
    assert b[st.i..][1..] == b[s.i..];
    AfterRegisters(c, st, r, s, VRef(p));
    AfterRegisters(c, st, r, s, VRef(q.v));
    var t := Put(s, r, VRef(p));
    ExecSeq(g, starts, fuel, Do(NewIfNil(r, e)), Emit(g, e, RDeref(r), c).0, b, s);
    DoNewIfNil(g, starts, fuel, r, e, b, s);
    PutGet(s, r, VRef(p));
    PutPut(s, r, VRef(p), VRef(q.v));
    Deref(t, r, c, q.v);
    ZeroHasTy(g, e);
    RankBelowHeight(g, e);
    NeedLess(g, |b| - st.i, |b| - s.i, 0, TyRank(g, e));
    EmitIsCorrect(g, starts, fuel, e, RDeref(r), c, b, t);
    MatchesInner(c, st, r, t, RDeref(r), q, DecPtrInto(g, e, Get(st, r), b[st.i..]),
                 Exec(g, starts, fuel, Emit(g, e, RDeref(r), c).0, b, t));
  }

  lemma ExecIfFlag(g: Gen, starts: Starts, fuel: nat, s1: Stmt, s2: Stmt, b: Bytes, st: State)
    ensures Exec(g, starts, fuel, IfFlag(s1, s2), b, st)
         == if st.i >= |b| then Crash
            else Exec(g, starts, fuel, if b[st.i] != 0 then s1 else s2, b, st.(i := st.i + 1))
  {}

  lemma MatchesError(c: nat, st: State, r: Ref, out: Out<Val>, o: Outcome)
    requires RefOk(st, r) && out.e != NoErr
    requires out.e == Unchecked ==> o.Crash?
    requires out.e != Unchecked ==> o.Return? && o.e == out.e && o.st.i == st.i + out.n
    requires out.e != Unchecked ==> Agree(c, o.st, Put(st, r, out.v))
    ensures Matches(c, st, r, out, o)
  {}

  lemma MatchesNext(c: nat, st: State, r: Ref, out: Out<Val>, o: Outcome)
    requires RefOk(st, r) && out.e == NoErr
    requires o.Next? && o.st.i == st.i + out.n && Agree(c, o.st, Put(st, r, out.v))
    ensures Matches(c, st, r, out, o)
  {}

  /** The outcome of code for an inner place `r'` from `t` is one for `r` from `st`. */
  lemma MatchesInner(c: nat, st: State, r: Ref, t: State, r': Ref, q: Out<Val>, out: Out<Val>, o: Outcome)
    requires RefOk(st, r) && RefOk(t, r') && Matches(c, t, r', q, o)
    requires out.e == q.e && st.i + out.n == t.i + q.n && Agree(c, Put(t, r', q.v), Put(st, r, out.v))
    ensures Matches(c, st, r, out, o)
  {}

  // ---------------------------------------------------------------------
  // Slices and arrays
  // ---------------------------------------------------------------------

  lemma {:induction false} SliceCode(g: Gen, starts: Starts, fuel: nat, e: Ty, d: Decl, r: Ref, c: nat, b: Bytes, st: State)
    requires Ready(g, fuel, TSlice(e, d), r, c, b, st)
    ensures Matches(c, st, r, DecSliceInto(g, e, Get(st, r), b[st.i..]),
                    Exec(g, starts, fuel, Emit(g, TSlice(e, d), r, c).0, b, st))
    decreases |b| - st.i, 0, e, 0
  {
    hide Exec, DecElemsInto, Matches, Uvarint, Grow, AppendAll, LoadSeq, HasTy, EmitElems, RefOk, Get, Put, Step, Below, Agree;
    var code := EmitElems(g, e, d, r, c).0;
    var some := Seq(IfSafe(g, GuardLen), code);
    AfterVarint(g, starts, fuel, IfZero(Do(SetNil(r, NIL_SLICE)), some), b, st);
    var (nn, cc) := Uvarint(b[st.i..]);
    var out := DecSliceInto(g, e, Get(st, r), b[st.i..]);
    var o := Exec(g, starts, fuel, Emit(g, TSlice(e, d), r, c).0, b, st);
    Untouched(c, st, r, st.(nn := nn, cc := cc));
    if cc <= 0 {
      MatchesError(c, st, r, out, o);
    } else {
      var s := Counted(b, st);
      Untouched(c, st, r, s);
      ExecIfZero(g, starts, fuel, Do(SetNil(r, NIL_SLICE)), some, b, s);
      if nn == 0 {
        AfterRegisters(c, st, r, s, NIL_SLICE);
        PutGet(s, r, NIL_SLICE);
        DoSetNil(g, starts, fuel, r, NIL_SLICE, b, s);
        MatchesNext(c, st, r, out, o);
      } else {
        AfterGuardLen(g, starts, fuel, code, b, s);
        assert b[st.i..][cc..] == b[s.i..];
        if g.mode.Safe? && |b| - s.i < nn {
          MatchesError(c, st, r, out, o);
        } else {
          AfterRegisters(c, st, r, s, out.v);
          RankBelowHeight(g, e);
          NeedLess(g, |b| - st.i, |b| - s.i, 0, TyRank(g, e));
          SliceIsSome(g, e, Get(st, r), b[st.i..]);
          SliceAnyDecl(g, e, d, Get(st, r));
          ElemsCode(g, starts, fuel, e, d, r, c, b, s);
          MatchesInner(c, st, r, s, r, SomeInto(g, e, Get(s, r), nn, b[s.i..]), out, o);
        }
      }
    }
  }

  /** A slice's values do not depend on where its type is declared. */
  lemma SliceAnyDecl(g: Gen, e: Ty, d: Decl, v: Val)
    requires HasTy(g, TSlice(e, d), v)
    ensures HasTy(g, TSlice(e), v)
  {}

  /** The non-nil part of a slice decode, past the count. */
  ghost function SomeInto(g: Gen, e: Ty, d: Val, nn: nat, b: Bytes): Out<Val> {
    if IsByte(e) then
      if |b| < nn then Out(d, 0, Guard(g))
      else Out(if g.mode.Safe? then AppendAll(d, b[..nn]) else VSlice(false, ByteVals(b[..nn]), []), nn, NoErr)
    else
      var base := Grow(d, nn, Zero(g, e));
      var q := DecElemsInto(g, e, base.elems, b);
      Out(VSlice(false, q.v, base.stale), q.n, q.e)
  }

  lemma SliceIsSome(g: Gen, e: Ty, d: Val, b: Bytes)
    ensures var (nn, cc) := Uvarint(b);
            cc > 0 && nn > 0 && (g.mode.Safe? ==> nn <= |b| - cc) ==>
              var q := SomeInto(g, e, d, nn, b[cc..]);
              DecSliceInto(g, e, d, b) == Out(q.v, cc + q.n, q.e)
  {
    hide Uvarint, DecElemsInto, Grow, AppendAll, LoadSeq;
    var (nn, cc) := Uvarint(b);
    if cc > 0 && nn <= |b| - cc { assert b[cc..][..nn] == b[cc..cc + nn]; }
  }

  lemma {:induction false} ElemsCode(g: Gen, starts: Starts, fuel: nat, e: Ty, decl: Decl, r: Ref, c: nat, b: Bytes, st: State)
    requires st.i <= |b| && RefOk(st, r) && Below(r, c) && HasTy(g, TSlice(e), Get(st, r))
    requires fuel >= Need(g, |b| - st.i, TyRank(g, e))
    requires 0 < st.nn && (g.mode.Safe? ==> st.nn <= |b| - st.i)
    ensures Matches(c, st, r, SomeInto(g, e, Get(st, r), st.nn, b[st.i..]),
                    Exec(g, starts, fuel, EmitElems(g, e, decl, r, c).0, b, st))
    decreases |b| - st.i, TyRank(g, e), e, st.nn + 6
  {
    hide Exec, DecElemsInto, Uvarint, AppendAll, LoadSeq, Matches, RefOk, Get, Put, Step, Below, Emit, HasTy;
    var d, nn := Get(st, r), st.nn;
    var out := SomeInto(g, e, d, nn, b[st.i..]);
    var o := Exec(g, starts, fuel, EmitElems(g, e, decl, r, c).0, b, st);
    if IsByte(e) {
      DoBytes(g, starts, fuel, r, b, st);
      if nn <= |b| - st.i {
        assert b[st.i..][..nn] == b[st.i..st.i + nn];
        PutGet(st, r, out.v);
        MatchesNext(c, st, r, out, o);
      } else {
        MatchesError(c, st, r, out, o);
      }
    } else {
      var base := Grow(d, nn, Zero(g, e));
      var s := Put(st, r, base);
      var rest := if RawElems(g, e) then Do(CopyRaw(r, e))
                  else if BlitElem(g, e) then Do(CopyStructs(c, r, e.name))
                  else ForRange(c, r, Emit(g, e, RIndex(r, c), c + 1).0);
      ExecSeq(g, starts, fuel, Do(GrowSlice(r, e, decl)), rest, b, st);
      DoGrow(g, starts, fuel, r, e, decl, b, st);
      PutGet(st, r, base);
      GrowTyped(g, e, d, nn);
      if RawElems(g, e) || BlitElem(g, e) {
        ExecDo(g, starts, fuel, if RawElems(g, e) then CopyRaw(r, e) else CopyStructs(c, r, e.name), b, s);
        BlockCode(g, starts, fuel, e, r, c, b, s);
      } else {
        ExecForRange(g, starts, fuel, c, r, Emit(g, e, RIndex(r, c), c + 1).0, b, s);
        assert base.elems[0..] == base.elems;
        LoopCode(g, starts, fuel, e, r, c, b, s, 0);
        ElemsIsLoop(g, e, base.elems, b[st.i..]);
      }
      FinishLoop(c, st, r, base, DecElemsInto(g, e, base.elems, b[st.i..]), o);
    }
  }

  /** Running code for the elements of `r` from the `k`-th on had the outcome `q` says. */
  ghost predicate CollMatches(c: nat, st: State, r: Ref, k: nat, q: Out<seq<Val>>, o: Outcome)
    requires RefOk(st, r) && (Get(st, r).VSlice? || Get(st, r).VArr?) && k <= |Items(Get(st, r))|
  {
    var d := Get(st, r);
    var after := Put(st, r, WithItems(d, Items(d)[..k] + q.v));
    Reached(c, st, q.e, q.n, after, o)
  }

  /** Elements of a collection just put at `r`, seen from before it was put. */
  lemma FinishLoop(c: nat, st: State, r: Ref, base: Val, q: Out<seq<Val>>, o: Outcome)
    requires RefOk(st, r) && (base.VSlice? || base.VArr?)
    requires RefOk(Put(st, r, base), r) && Get(Put(st, r, base), r) == base
    requires CollMatches(c, Put(st, r, base), r, 0, q, o) && Put(st, r, base).i == st.i
    ensures Matches(c, st, r, Out(WithItems(base, q.v), q.n, q.e), o)
  {
    assert Items(base)[..0] + q.v == q.v;
    PutPut(st, r, base, WithItems(base, q.v));
  }

  lemma ExecForRange(g: Gen, starts: Starts, fuel: nat, x: nat, r: Ref, body: Stmt, b: Bytes, st: State)
    requires RefOk(st, r)
    ensures Exec(g, starts, fuel, ForRange(x, r, body), b, st)
         == Loop(g, starts, fuel, x, body, 0, |Items(Get(st, r))|, b, st)
  {}

  lemma LoopDone(g: Gen, starts: Starts, fuel: nat, x: nat, body: Stmt, m: nat, b: Bytes, st: State)
    ensures Loop(g, starts, fuel, x, body, m, m, b, st) == Next(st)
  {}

  lemma LoopStep(g: Gen, starts: Starts, fuel: nat, x: nat, body: Stmt, k: nat, m: nat, b: Bytes, st: State)
    requires k < m
    ensures var o := Exec(g, starts, fuel, body, b, st.(idx := st.idx[x := k]));
            Loop(g, starts, fuel, x, body, k, m, b, st) ==
              if o.Next? then Loop(g, starts, fuel, x, body, k + 1, m, b, o.st) else o
  {}

  lemma {:induction false} LoopCode(g: Gen, starts: Starts, fuel: nat, e: Ty, r: Ref, c: nat, b: Bytes, st: State, k: nat)
    requires st.i <= |b| && RefOk(st, r) && Below(r, c) && (Get(st, r).VSlice? || Get(st, r).VArr?)
    requires k <= |Items(Get(st, r))| && AllHaveTy(g, e, Items(Get(st, r))[k..])
    requires fuel >= Need(g, |b| - st.i, TyRank(g, e))
    ensures CollMatches(c, st, r, k, DecNInto(g, e, Items(Get(st, r))[k..], b[st.i..]),
                        Loop(g, starts, fuel, c, Emit(g, e, RIndex(r, c), c + 1).0, k, |Items(Get(st, r))|, b, st))
    decreases |b| - st.i, TyRank(g, e), e, |Items(Get(st, r))| - k + 5
  {
    hide Exec, Loop, DecInto, DecNInto, HasTy, Emit, RefOk, Get, Put, Below, Agree, CollMatches;
    var d := Get(st, r);
    var m, ds, body := |Items(d)|, Items(d)[k..], Emit(g, e, RIndex(r, c), c + 1).0;
    if k == m {
      NIntoNil(g, e, b[st.i..]);
      LoopDone(g, starts, fuel, c, body, m, b, st);
      LoopEnd(c, st, r);
    } else {
      LoopStep(g, starts, fuel, c, body, k, m, b, st);
      NIntoStep(g, e, ds, b[st.i..]);
      var o := OneElement(g, starts, fuel, e, r, c, b, st, k);
      var q := DecInto(g, e, ds[0], b[st.i..]);
      if q.e == NoErr {
        var s := o.st;
        LoopPlace(c, st, r, k, q, s, ds);
        assert b[st.i..][q.n..] == b[s.i..];
        NeedSame(g, |b| - st.i, |b| - s.i, TyRank(g, e), TyRank(g, e));
        LoopCode(g, starts, fuel, e, r, c, b, s, k + 1);
        LoopCons(c, st, r, k, q, s, DecNInto(g, e, ds[1..], b[s.i..]), Loop(g, starts, fuel, c, body, k + 1, m, b, s));
      } else {
        LoopStopped(c, st, r, k, q, o);
      }
    }
  }

  lemma LoopEnd(c: nat, st: State, r: Ref)
    requires RefOk(st, r) && (Get(st, r).VSlice? || Get(st, r).VArr?)
    ensures CollMatches(c, st, r, |Items(Get(st, r))|, Out([], 0, NoErr), Next(st))
  {
    assert WithItems(Get(st, r), Items(Get(st, r))[..|Items(Get(st, r))|] + []) == Get(st, r);
    PutSame(st, r);
  }

  lemma LoopStopped(c: nat, st: State, r: Ref, k: nat, q: Out<Val>, o: Outcome)
    requires RefOk(st, r) && (Get(st, r).VSlice? || Get(st, r).VArr?) && k < |Items(Get(st, r))|
    requires ElementMatches(c, st, r, k, q, o)
    ensures CollMatches(c, st, r, k, Out([q.v] + Items(Get(st, r))[k..][1..], q.n, q.e), o)
  {
    var es := Items(Get(st, r));
    assert es[k := q.v] == es[..k] + ([q.v] + es[k..][1..]);
  }

  /** Where the loop stands after one element. */
  lemma LoopPlace(c: nat, st: State, r: Ref, k: nat, q: Out<Val>, s: State, ds: seq<Val>)
    requires RefOk(st, r) && Below(r, c) && (Get(st, r).VSlice? || Get(st, r).VArr?) && k < |Items(Get(st, r))|
    requires ds == Items(Get(st, r))[k..] && q.e == NoErr && ElementMatches(c, st, r, k, q, Next(s))
    ensures s.i == st.i + q.n && Agree(c, s, Put(st, r, WithItems(Get(st, r), Items(Get(st, r))[k := q.v])))
    ensures RefOk(s, r) && Get(s, r) == WithItems(Get(st, r), Items(Get(st, r))[k := q.v])
    ensures Items(Get(s, r))[k + 1..] == ds[1..]
  {
    hide RefOk, Get, Put, Below, Agree;
    var d1 := WithItems(Get(st, r), Items(Get(st, r))[k := q.v]);
    Settled(c, s, st, r, d1, d1);
  }

  /** One element, then the rest. */
  lemma LoopCons(c: nat, st: State, r: Ref, k: nat, q: Out<Val>, s: State, t: Out<seq<Val>>, o: Outcome)
    requires RefOk(st, r) && Below(r, c) && (Get(st, r).VSlice? || Get(st, r).VArr?) && k < |Items(Get(st, r))|
    requires s.i == st.i + q.n && Agree(c, s, Put(st, r, WithItems(Get(st, r), Items(Get(st, r))[k := q.v])))
    requires RefOk(s, r) && Get(s, r) == WithItems(Get(st, r), Items(Get(st, r))[k := q.v])
    requires CollMatches(c, s, r, k + 1, t, o)
    ensures CollMatches(c, st, r, k, Out([q.v] + t.v, q.n + t.n, t.e), o)
  {
    hide RefOk, Get, Put, Below, Agree, Reached;
    var d := Get(st, r);
    var d1 := WithItems(d, Items(d)[k := q.v]);
    var d2 := WithItems(d, Items(d)[..k] + ([q.v] + t.v));
    assert Items(d1)[..k + 1] + t.v == Items(d)[..k] + ([q.v] + t.v);
    Settled(c, s, st, r, d1, d2);
    ReachedMore(c, st, s, t.e, q.n, t.n, Put(s, r, d2), Put(st, r, d2), o);
  }

  lemma ReachedMore(c: nat, st: State, s: State, e: Err, n: nat, m: nat, mid: State, after: State, o: Outcome)
    requires Reached(c, s, e, m, mid, o) && s.i == st.i + n && Agree(c, mid, after)
    ensures Reached(c, st, e, n + m, after, o)
  {}

  ghost predicate ElementMatches(c: nat, st: State, r: Ref, k: nat, q: Out<Val>, o: Outcome)
    requires RefOk(st, r) && (Get(st, r).VSlice? || Get(st, r).VArr?) && k < |Items(Get(st, r))|
  {
    Reached(c, st, q.e, q.n, Put(st, r, WithItems(Get(st, r), Items(Get(st, r))[k := q.v])), o)
  }

  /** One iteration: the element at `k`, and nothing else below the counter. */
  lemma {:induction false} OneElement(g: Gen, starts: Starts, fuel: nat, e: Ty, r: Ref, c: nat, b: Bytes, st: State, k: nat)
    returns (o: Outcome)
    requires st.i <= |b| && RefOk(st, r) && Below(r, c) && (Get(st, r).VSlice? || Get(st, r).VArr?)
    requires k < |Items(Get(st, r))| && HasTy(g, e, Items(Get(st, r))[k])
    requires fuel >= Need(g, |b| - st.i, TyRank(g, e))
    ensures o == Exec(g, starts, fuel, Emit(g, e, RIndex(r, c), c + 1).0, b, st.(idx := st.idx[c := k]))
    ensures ElementMatches(c, st, r, k, DecInto(g, e, Items(Get(st, r))[k], b[st.i..]), o)
    decreases |b| - st.i, TyRank(g, e), e, 4
  {
    hide Exec, DecInto, HasTy, Emit, RefOk, Get, Put, Below;
    var d, s1, r1 := Get(st, r), st.(idx := st.idx[c := k]), RIndex(r, c);
    var q := DecInto(g, e, Items(d)[k], b[st.i..]);
    var d1 := WithItems(d, Items(d)[k := q.v]);
    FreshIndex(c, st, c, k);
    AgreePut(c, s1, st, r, d1);
    Index(s1, r, c, q.v);
    EmitIsCorrect(g, starts, fuel, e, r1, c + 1, b, s1);
    o := Exec(g, starts, fuel, Emit(g, e, r1, c + 1).0, b, s1);
  }

  /** One raw copy into the elements at `r` does what the loop would. */
  lemma BlockCode(g: Gen, starts: Starts, fuel: nat, e: Ty, r: Ref, c: nat, b: Bytes, st: State)
    requires st.i <= |b| && RefOk(st, r) && Below(r, c) && (Get(st, r).VSlice? || Get(st, r).VArr?)
    requires (RawElems(g, e) || BlitElem(g, e)) && Items(Get(st, r)) != []
    ensures CollMatches(c, st, r, 0, DecElemsInto(g, e, Items(Get(st, r)), b[st.i..]),
                        Step(g, if RawElems(g, e) then CopyRaw(r, e) else CopyStructs(c, r, e.name), b, st))
  {
    hide LoadSeq, DecNInto, StructsAt, HasTy, RefOk, Get, Put, Below, Agree, Raw, RawWidth;
    var d := Get(st, r);
    var m := |Items(d)|;
    if RawElems(g, e) {
      var w := m * RawWidth(e);
      if w <= |b| - st.i {
        assert b[st.i..][..w] == b[st.i..st.i + w];
        BlockCopied(c, st, r, LoadSeq(g.mode.lay.big, e, m, b[st.i..st.i + w]), w);
      }
    } else {
      StructBlock(g, e.name, r, c, b, st);
    }
  }

  lemma DoCopyStructs(g: Gen, x: nat, r: Ref, n: Name, b: Bytes, st: State, w: nat)
    requires st.i <= |b| && RefOk(st, r) && (Get(st, r).VSlice? || Get(st, r).VArr?) && Blittable(g, n)
    requires Items(Get(st, r)) != [] && w == |Items(Get(st, r))| * Sizeof(g, n)
    ensures Step(g, CopyStructs(x, r, n), b, st)
         == if |b| - st.i < w then Crash
            else
              var vs := StructsAt(g, n, |Items(Get(st, r))|, b[st.i..st.i + w]);
              Next(Put(st, r, WithItems(Get(st, r), vs)).(i := st.i + w, idx := st.idx[x := w]))
  {
    hide StructsAt, RefOk, Get, Put, Sizeof;
  }

  lemma StructBlock(g: Gen, n: Name, r: Ref, c: nat, b: Bytes, st: State)
    requires st.i <= |b| && RefOk(st, r) && (Get(st, r).VSlice? || Get(st, r).VArr?) && Blittable(g, n)
    requires Items(Get(st, r)) != []
    ensures CollMatches(c, st, r, 0, DecNInto(g, TStruct(n), Items(Get(st, r)), b[st.i..]), Step(g, CopyStructs(c, r, n), b, st))
  {
    hide DecNInto, StructsAt, RefOk, Get, Put, Agree, Sizeof, Step, CollMatches, Items, WithItems, Blittable;
    var ds := Items(Get(st, r));
    var w := |ds| * Sizeof(g, n);
    DoCopyStructs(g, c, r, n, b, st, w);
    BlitLoop(g, n, ds, b[st.i..], w);
    if w > |b| - st.i {
      UncheckedCrash(c, st, r, DecNInto(g, TStruct(n), ds, b[st.i..]));
    } else {
      assert b[st.i..][..w] == b[st.i..st.i + w];
      BlockCopied(c, st, r, StructsAt(g, n, |ds|, b[st.i..st.i + w]), w);
    }
  }

  lemma UncheckedCrash(c: nat, st: State, r: Ref, q: Out<seq<Val>>)
    requires RefOk(st, r) && (Get(st, r).VSlice? || Get(st, r).VArr?)
    ensures q.e == Unchecked ==> CollMatches(c, st, r, 0, q, Crash)
  {
    hide RefOk, Get, Put;
  }

  lemma BlockCopied(c: nat, st: State, r: Ref, vs: seq<Val>, w: nat)
    requires RefOk(st, r) && (Get(st, r).VSlice? || Get(st, r).VArr?)
    ensures var s := Put(st, r, WithItems(Get(st, r), vs)).(i := st.i + w);
            CollMatches(c, st, r, 0, Out(vs, w, NoErr), Next(s))
            && CollMatches(c, st, r, 0, Out(vs, w, NoErr), Next(s.(idx := st.idx[c := w])))
  {
    hide RefOk, Get, Put;
    PutGet(st, r, WithItems(Get(st, r), vs));
    assert Items(Get(st, r))[..0] + vs == vs;
  }

  /** Decoding raw-copied structs one by one is one copy. */
  lemma {:induction false} BlitLoop(g: Gen, n: Name, ds: seq<Val>, b: Bytes, w: nat)
    requires Blittable(g, n) && w == |ds| * Sizeof(g, n)
    ensures w <= |b| ==> DecNInto(g, TStruct(n), ds, b) == Out(StructsAt(g, n, |ds|, b[..w]), w, NoErr)
    ensures w > |b| ==> DecNInto(g, TStruct(n), ds, b).e == Unchecked
  {
    hide LoadFields, DecNInto, StructsAt, Sizeof;
    var z := Sizeof(g, n);
    if ds == [] {
      NIntoNil(g, TStruct(n), b);
      StructsAtNil(g, n);
    } else {
      MulStep(|ds|, z);
      NIntoStep(g, TStruct(n), ds, b);
      assert ds[0..] == ds;
      if z <= |b| {
        BlitLoop(g, n, ds[1..], b[z..], w - z);
        if w <= |b| { StructsAtStep(g, n, |ds|, b, w); }
      }
    }
  }

  lemma StructsAtNil(g: Gen, n: Name)
    requires Blittable(g, n)
    ensures StructsAt(g, n, 0, []) == []
  {}

  lemma StructsAtStep(g: Gen, n: Name, m: nat, b: Bytes, w: nat)
    requires Blittable(g, n) && m > 0 && w == m * Sizeof(g, n) && w <= |b|
    ensures var z := Sizeof(g, n);
            z <= w && w - z == (m - 1) * z &&
            StructsAt(g, n, m, b[..w]) == [VStruct(LoadFields(g, n, b[..z]), b[..z])] + StructsAt(g, n, m - 1, b[z..][..w - z])
  {
    hide LoadFields, Sizeof;
    var z := Sizeof(g, n);
    MulStep(m, z);
    assert b[..w][..z] == b[..z];
    assert b[..w][z..] == b[z..][..w - z];
  }

  lemma {:induction false} ArrayCode(g: Gen, starts: Starts, fuel: nat, m: nat, e: Ty, r: Ref, c: nat, b: Bytes, st: State)
    requires Ready(g, fuel, TArray(m, e), r, c, b, st)
    ensures Matches(c, st, r, DecArrayInto(g, m, e, Get(st, r), b[st.i..]),
                    Exec(g, starts, fuel, Emit(g, TArray(m, e), r, c).0, b, st))
    decreases |b| - st.i, TyRank(g, e), e, m + 9
  {
    hide Exec, DecElemsInto, Matches, LoadSeq, Loop, RefOk, Put, CollMatches;
    var d := Get(st, r);
    var o := Exec(g, starts, fuel, Emit(g, TArray(m, e), r, c).0, b, st);
    if IsByte(e) {
      ByteArrayCode(g, starts, fuel, m, e, r, c, b, st);
    } else {
      PutSame(st, r);
      if m > 0 && (RawElems(g, e) || BlitElem(g, e)) {
        ExecDo(g, starts, fuel, if RawElems(g, e) then CopyRaw(r, e) else CopyStructs(c, r, e.name), b, st);
        BlockCode(g, starts, fuel, e, r, c, b, st);
      } else {
        assert o == Loop(g, starts, fuel, c, Emit(g, e, RIndex(r, c), c + 1).0, 0, m, b, st) by {
          ExecForLen(g, starts, fuel, c, m, Emit(g, e, RIndex(r, c), c + 1).0, b, st);
        }
        assert d.elems[0..] == d.elems;
        LoopCode(g, starts, fuel, e, r, c, b, st, 0);
        ElemsIsLoop(g, e, d.elems, b[st.i..]);
      }
      FinishLoop(c, st, r, d, DecElemsInto(g, e, d.elems, b[st.i..]), o);
    }
  }

  lemma ByteArrayCode(g: Gen, starts: Starts, fuel: nat, m: nat, e: Ty, r: Ref, c: nat, b: Bytes, st: State)
    requires st.i <= |b| && RefOk(st, r) && IsByte(e)
    ensures Matches(c, st, r, DecArrayInto(g, m, e, Get(st, r), b[st.i..]),
                    Exec(g, starts, fuel, Seq(IfSafe(g, GuardN(m)), Do(CopyArray(r, m))), b, st))
  {
    hide Exec, LoadSeq, ByteVals, RefOk, Get, Put;
    AfterGuardN(g, starts, fuel, m, Do(CopyArray(r, m)), b, st);
    ExecDo(g, starts, fuel, CopyArray(r, m), b, st);
    Untouched(c, st, r, st);
    if m <= |b| - st.i { assert b[st.i..][..m] == b[st.i..st.i + m]; }
  }

  lemma ExecForLen(g: Gen, starts: Starts, fuel: nat, x: nat, m: nat, body: Stmt, b: Bytes, st: State)
    ensures Exec(g, starts, fuel, ForLen(x, m, body), b, st) == Loop(g, starts, fuel, x, body, 0, m, b, st)
  {}

  /** Without a raw copy, or with nothing to copy, elements are decoded one by one. */
  lemma ElemsIsLoop(g: Gen, e: Ty, ds: seq<Val>, b: Bytes)
    requires RawElems(g, e) ==> ds == []
    ensures DecElemsInto(g, e, ds, b) == DecNInto(g, e, ds, b)
  {
    hide DecInto;
    NIntoNil(g, e, b);
  }

  // ---------------------------------------------------------------------
  // Maps
  // ---------------------------------------------------------------------

  lemma {:induction false} MapCode(g: Gen, starts: Starts, fuel: nat, kt: Ty, vt: Ty, d: Decl, r: Ref, c: nat, b: Bytes, st: State)
    requires Ready(g, fuel, TMap(kt, vt, d), r, c, b, st)
    ensures Matches(c, st, r, DecMapInto(g, kt, vt, Get(st, r), b[st.i..]),
                    Exec(g, starts, fuel, Emit(g, TMap(kt, vt, d), r, c).0, b, st))
    decreases |b| - st.i, 0, kt, 0
  {
    hide Exec, DecEntriesInto, Matches, Uvarint, HasTy, RefOk, Get, Put, Step, Below, Agree;
    var fill := FillMap(g, kt, vt, d, r, c);
    var some := Seq(IfSafe(g, GuardLen), fill);
    AfterVarint(g, starts, fuel, IfZero(Do(SetNil(r, NIL_MAP)), some), b, st);
    var (nn, cc) := Uvarint(b[st.i..]);
    var out := DecMapInto(g, kt, vt, Get(st, r), b[st.i..]);
    var o := Exec(g, starts, fuel, Emit(g, TMap(kt, vt, d), r, c).0, b, st);
    Untouched(c, st, r, st.(nn := nn, cc := cc));
    if cc <= 0 {
      MatchesError(c, st, r, out, o);
    } else {
      var s := Counted(b, st);
      Untouched(c, st, r, s);
      ExecIfZero(g, starts, fuel, Do(SetNil(r, NIL_MAP)), some, b, s);
      if nn == 0 {
        AfterRegisters(c, st, r, s, NIL_MAP);
        PutGet(s, r, NIL_MAP);
        DoSetNil(g, starts, fuel, r, NIL_MAP, b, s);
        MatchesNext(c, st, r, out, o);
      } else {
        AfterGuardLen(g, starts, fuel, fill, b, s);
        assert b[st.i..][cc..] == b[s.i..];
        if g.mode.Safe? && |b| - s.i < nn {
          MatchesError(c, st, r, out, o);
        } else {
          AfterRegisters(c, st, r, s, out.v);
          PairRankBelowHeight(g, kt, vt);
          NeedLess(g, |b| - st.i, |b| - s.i, 0, PairRank(g, kt, vt));
          FillCode(g, starts, fuel, kt, vt, d, r, c, b, s);
          var q := DecEntriesInto(g, kt, vt, nn, [], b[s.i..]);
          MatchesInner(c, st, r, s, r, Out(VMap(false, q.v), q.n, q.e), out, o);
        }
      }
    }
  }

  lemma PairRankBelowHeight(g: Gen, kt: Ty, vt: Ty)
    ensures PairRank(g, kt, vt) <= g.height
  {
    RankBelowHeight(g, kt);
    RankBelowHeight(g, vt);
  }

  /** The code past a non-zero, guarded count. */
  function FillMap(g: Gen, kt: Ty, vt: Ty, d: Decl, r: Ref, c: nat): Stmt {
    Seq(Do(Save(c)), Seq(Do(ClearOrMake(r, TMap(kt, vt, d))), ForCount(c + 1, c, MapBody(g, kt, vt, r, c))))
  }

  function MapBody(g: Gen, kt: Ty, vt: Ty, r: Ref, c: nat): Stmt {
    var (keyCode, c') := Emit(g, kt, RVar(c + 2), c + 4);
    EntryBody(kt, vt, r, c, keyCode, Emit(g, vt, RVar(c + 3), c').0)
  }

  /** The count survives in a temporary while nested reads overwrite `nn`. */
  lemma {:induction false} FillCode(g: Gen, starts: Starts, fuel: nat, kt: Ty, vt: Ty, d: Decl, r: Ref, c: nat, b: Bytes, st: State)
    requires st.i <= |b| && RefOk(st, r) && Below(r, c)
    requires fuel >= Need(g, |b| - st.i, PairRank(g, kt, vt))
    requires g.mode.Safe? ==> st.nn <= |b| - st.i
    ensures var q := DecEntriesInto(g, kt, vt, st.nn, [], b[st.i..]);
            Matches(c, st, r, Out(VMap(false, q.v), q.n, q.e), Exec(g, starts, fuel, FillMap(g, kt, vt, d, r, c), b, st))
    decreases |b| - st.i, PairRank(g, kt, vt), TMap(kt, vt), st.nn + 2
  {
    hide Exec, DecEntriesInto, RefOk, Get, Put, Below, MapBody, FillMap, Agree, Loop, EntriesMatch;
    var q := DecEntriesInto(g, kt, vt, st.nn, [], b[st.i..]);
    var s := st.(idx := st.idx[c := st.nn]);
    var made, after := VMap(false, []), VMap(false, q.v);
    FreshIndex(c, st, c, st.nn);
    AgreePut(c, s, st, r, after);
    PutGet(s, r, made);
    PutPut(s, r, made, after);
    var t := Put(s, r, made);
    FillStarts(g, starts, fuel, kt, vt, d, r, c, b, st);
    EntriesCode(g, starts, fuel, kt, vt, r, c, b, t, 0, st.nn, []);
    ReachedMore(c, st, t, q.e, 0, q.n, Put(t, r, after), Put(st, r, after),
                Loop(g, starts, fuel, c + 1, MapBody(g, kt, vt, r, c), 0, st.nn, b, t));
  }

  /** The count is saved and the map emptied or made before the loop. */
  lemma FillStarts(g: Gen, starts: Starts, fuel: nat, kt: Ty, vt: Ty, d: Decl, r: Ref, c: nat, b: Bytes, st: State)
    requires st.i <= |b| && RefOk(st, r) && Below(r, c) && (g.mode.Safe? ==> st.nn <= |b| - st.i)
    ensures var s := st.(idx := st.idx[c := st.nn]);
            RefOk(s, r) && Put(s, r, VMap(false, [])).i == st.i &&
            Exec(g, starts, fuel, FillMap(g, kt, vt, d, r, c), b, st)
              == Loop(g, starts, fuel, c + 1, MapBody(g, kt, vt, r, c), 0, st.nn, b, Put(s, r, VMap(false, [])))
  {
    hide Exec, RefOk, Get, Put, Below, MapBody, Agree, Loop;
    var s, made := st.(idx := st.idx[c := st.nn]), VMap(false, []);
    FreshIndex(c, st, c, st.nn);
    AgreePut(c, s, st, r, made);
    PutGet(s, r, made);
    var clear, loop := ClearOrMake(r, TMap(kt, vt, d)), ForCount(c + 1, c, MapBody(g, kt, vt, r, c));
    ExecSeq(g, starts, fuel, Do(Save(c)), Seq(Do(clear), loop), b, st);
    ExecDo(g, starts, fuel, Save(c), b, st);
    ExecSeq(g, starts, fuel, Do(clear), loop, b, s);
    ExecDo(g, starts, fuel, clear, b, s);
    ExecForCount(g, starts, fuel, c + 1, c, MapBody(g, kt, vt, r, c), b, Put(s, r, made));
  }

  lemma ExecForCount(g: Gen, starts: Starts, fuel: nat, x: nat, cnt: nat, body: Stmt, b: Bytes, st: State)
    requires cnt in st.idx
    ensures Exec(g, starts, fuel, ForCount(x, cnt, body), b, st) == Loop(g, starts, fuel, x, body, 0, st.idx[cnt], b, st)
  {}

  lemma {:induction false} EntriesCode(g: Gen, starts: Starts, fuel: nat,
                                       kt: Ty, vt: Ty, r: Ref, c: nat, b: Bytes, st: State, k: nat, m: nat, acc: seq<Entry>)
    requires st.i <= |b| && RefOk(st, r) && Below(r, c) && Get(st, r) == VMap(false, acc) && k <= m
    requires fuel >= Need(g, |b| - st.i, PairRank(g, kt, vt))
    ensures var q := DecEntriesInto(g, kt, vt, m - k, acc, b[st.i..]);
            Reached(c, st, q.e, q.n, Put(st, r, VMap(false, q.v)),
                    Loop(g, starts, fuel, c + 1, MapBody(g, kt, vt, r, c), k, m, b, st))
    decreases |b| - st.i, PairRank(g, kt, vt), TMap(kt, vt), m - k + 1
  {
    hide Exec, Loop, DecPairInto, DecEntriesInto, MapSet, RefOk, Get, Put, Below, MapBody, Agree;
    var body := MapBody(g, kt, vt, r, c);
    if k == m {
      EntriesIntoNil(g, kt, vt, acc, b[st.i..]);
      LoopDone(g, starts, fuel, c + 1, body, m, b, st);
      PutSame(st, r);
      AgreeSame(c, st);
    } else {
      LoopStep(g, starts, fuel, c + 1, body, k, m, b, st);
      EntriesIntoStep(g, kt, vt, m - k, acc, b[st.i..]);
      var s := st.(idx := st.idx[c + 1 := k]);
      var p := DecPairInto(g, kt, vt, b[st.i..]);
      var es := if p.e == NoErr then MapSet(acc, p.v.k, p.v.v) else acc;
      FreshIndex(c, st, c + 1, k);
      AgreePut(c, s, st, r, VMap(false, es));
      EntryCode(g, starts, fuel, kt, vt, r, c, b, s, acc);
      var o := Exec(g, starts, fuel, body, b, s);
      ReachedMore(c, st, s, p.e, 0, p.n, Put(s, r, VMap(false, es)), Put(st, r, VMap(false, es)), o);
      if p.e == NoErr {
        var t := o.st;
        var q := DecEntriesInto(g, kt, vt, m - k - 1, es, b[t.i..]);
        assert b[st.i..][p.n..] == b[t.i..];
        Settled(c, t, st, r, VMap(false, es), VMap(false, q.v));
        NeedSame(g, |b| - st.i, |b| - t.i, PairRank(g, kt, vt), PairRank(g, kt, vt));
        EntriesCode(g, starts, fuel, kt, vt, r, c, b, t, k + 1, m, es);
        ReachedMore(c, st, t, q.e, p.n, q.n, Put(t, r, VMap(false, q.v)), Put(st, r, VMap(false, q.v)),
                    Loop(g, starts, fuel, c + 1, body, k + 1, m, b, t));
      }
    }
  }

  /** One entry: a fresh key and value, decoded and then assigned. */
  lemma {:induction false} EntryCode(g: Gen, starts: Starts, fuel: nat,
                                     kt: Ty, vt: Ty, r: Ref, c: nat, b: Bytes, st: State, acc: seq<Entry>)
    requires st.i <= |b| && RefOk(st, r) && Below(r, c) && Get(st, r) == VMap(false, acc)
    requires fuel >= Need(g, |b| - st.i, PairRank(g, kt, vt))
    ensures var p := DecPairInto(g, kt, vt, b[st.i..]);
            Reached(c, st, p.e, p.n, Put(st, r, VMap(false, if p.e == NoErr then MapSet(acc, p.v.k, p.v.v) else acc)),
                    Exec(g, starts, fuel, MapBody(g, kt, vt, r, c), b, st))
    decreases |b| - st.i, PairRank(g, kt, vt), TMap(kt, vt), 0
  {
    hide Exec, DecInto, MapSet, RefOk, Get, Put, Below, Emit, HasTy, Agree, Reached;
    var (keyCode, c') := Emit(g, kt, RVar(c + 2), c + 4);
    var rest := Seq(Emit(g, vt, RVar(c + 3), c').0, Do(Assign(r, c + 2, c + 3)));
    var s := Declared(g, kt, vt, c, st);
    ExecEntryBody(g, starts, fuel, kt, vt, r, c, keyCode, Emit(g, vt, RVar(c + 3), c').0, b, st);
    ExecSeq(g, starts, fuel, keyCode, rest, b, s);
    NeedSame(g, |b| - st.i, |b| - st.i, PairRank(g, kt, vt), TyRank(g, kt));
    var o := KeyCode(g, starts, fuel, kt, vt, c, b, st);
    var k := DecInto(g, kt, Zero(g, kt), b[st.i..]);
    if k.e != NoErr {
      KeyFailed(c, st, r, k, o);
    } else {
      var t := o.st;
      KeyDone(g, kt, vt, c, st, r, k, t);
      ZeroHasTy(g, vt);
      assert b[st.i..][k.n..] == b[t.i..];
      NeedSame(g, |b| - st.i, |b| - t.i, PairRank(g, kt, vt), TyRank(g, vt));
      ValueCode(g, starts, fuel, vt, r, c, c', b, t, acc);
      var v := DecInto(g, vt, Zero(g, vt), b[t.i..]);
      var es := if v.e == NoErr then MapSet(acc, k.v, v.v) else acc;
      AgreePut(c, t, st, r, VMap(false, es));
      ReachedMore(c, st, t, v.e, k.n, v.n, Put(t, r, VMap(false, es)), Put(st, r, VMap(false, es)),
                  Exec(g, starts, fuel, rest, b, t));
    }
  }

  /** The state once the key and value variables are declared. */
  function Declared(g: Gen, kt: Ty, vt: Ty, c: nat, st: State): State {
    st.(tmp := st.tmp[c + 2 := Zero(g, kt)][c + 3 := Zero(g, vt)])
  }

  lemma ExecEntryBody(g: Gen, starts: Starts, fuel: nat,
                      kt: Ty, vt: Ty, r: Ref, c: nat, keyCode: Stmt, valCode: Stmt, b: Bytes, st: State)
    requires st.i <= |b|
    ensures Exec(g, starts, fuel, EntryBody(kt, vt, r, c, keyCode, valCode), b, st)
         == Exec(g, starts, fuel, Seq(keyCode, Seq(valCode, Do(Assign(r, c + 2, c + 3)))), b, Declared(g, kt, vt, c, st))
  {
    hide Exec;
    var rest := Seq(keyCode, Seq(valCode, Do(Assign(r, c + 2, c + 3))));
    var s := st.(tmp := st.tmp[c + 2 := Zero(g, kt)]);
    ExecSeq(g, starts, fuel, Do(Declare(c + 2, kt)), Seq(Do(Declare(c + 3, vt)), rest), b, st);
    ExecDo(g, starts, fuel, Declare(c + 2, kt), b, st);
    ExecSeq(g, starts, fuel, Do(Declare(c + 3, vt)), rest, b, s);
    ExecDo(g, starts, fuel, Declare(c + 3, vt), b, s);
  }

  lemma {:induction false} KeyCode(g: Gen, starts: Starts, fuel: nat,
                                   kt: Ty, vt: Ty, c: nat, b: Bytes, st: State) returns (o: Outcome)
    requires st.i <= |b| && fuel >= Need(g, |b| - st.i, TyRank(g, kt))
    ensures o == Exec(g, starts, fuel, Emit(g, kt, RVar(c + 2), c + 4).0, b, Declared(g, kt, vt, c, st))
    ensures var k := DecInto(g, kt, Zero(g, kt), b[st.i..]);
            KeyMatches(g, kt, vt, c, st, k, o) && (k.e == NoErr ==> o.Next?)
    decreases |b| - st.i, TyRank(g, kt), kt, 4
  {
    hide Exec, DecInto, Emit, HasTy;
    var s := Declared(g, kt, vt, c, st);
    ZeroHasTy(g, kt);
    EmitIsCorrect(g, starts, fuel, kt, RVar(c + 2), c + 4, b, s);
    o := Exec(g, starts, fuel, Emit(g, kt, RVar(c + 2), c + 4).0, b, s);
  }

  ghost predicate KeyMatches(g: Gen, kt: Ty, vt: Ty, c: nat, st: State, k: Out<Val>, o: Outcome) {
    var s := Declared(g, kt, vt, c, st);
    Reached(c + 4, st, k.e, k.n, s.(tmp := s.tmp[c + 2 := k.v]), o)
  }

  lemma KeyFailed(c: nat, st: State, r: Ref, k: Out<Val>, o: Outcome)
    requires RefOk(st, r) && k.e != NoErr
    requires exists g, kt, vt :: KeyMatches(g, kt, vt, c, st, k, o)
    ensures Reached(c, st, k.e, k.n, Put(st, r, Get(st, r)), o)
  {
    PutSame(st, r);
  }

  /** A decoded key sits in its variable; the value's variable is still zero. */
  lemma KeyDone(g: Gen, kt: Ty, vt: Ty, c: nat, st: State, r: Ref, k: Out<Val>, t: State)
    requires RefOk(st, r) && Below(r, c) && k.e == NoErr
    requires KeyMatches(g, kt, vt, c, st, k, Next(t))
    ensures t.i == st.i + k.n && Agree(c, t, st)
    ensures c + 2 in t.tmp && c + 3 in t.tmp && t.tmp[c + 2] == k.v && t.tmp[c + 3] == Zero(g, vt)
    ensures RefOk(t, r) && Get(t, r) == Get(st, r)
  {
    hide RefOk, Get, Put, Below;
    AgreePut(c, t, st, r, VNil);
  }

  lemma {:induction false} ValueCode(g: Gen, starts: Starts, fuel: nat,
                                     vt: Ty, r: Ref, c: nat, c': nat, b: Bytes, st: State, acc: seq<Entry>)
    requires st.i <= |b| && RefOk(st, r) && Below(r, c) && Get(st, r) == VMap(false, acc) && c + 4 <= c'
    requires c + 2 in st.tmp && c + 3 in st.tmp && HasTy(g, vt, st.tmp[c + 3])
    requires fuel >= Need(g, |b| - st.i, TyRank(g, vt))
    ensures var v := DecInto(g, vt, st.tmp[c + 3], b[st.i..]);
            Reached(c, st, v.e, v.n, Put(st, r, VMap(false, if v.e == NoErr then MapSet(acc, st.tmp[c + 2], v.v) else acc)),
                    Exec(g, starts, fuel, Seq(Emit(g, vt, RVar(c + 3), c').0, Do(Assign(r, c + 2, c + 3))), b, st))
    decreases |b| - st.i, TyRank(g, vt), vt, 4
  {
    hide Exec, DecInto, Emit, HasTy, MapSet;
    var code := Emit(g, vt, RVar(c + 3), c').0;
    ExecSeq(g, starts, fuel, code, Do(Assign(r, c + 2, c + 3)), b, st);
    EmitIsCorrect(g, starts, fuel, vt, RVar(c + 3), c', b, st);
    var v := DecInto(g, vt, st.tmp[c + 3], b[st.i..]);
    var o := Exec(g, starts, fuel, code, b, st);
    if v.e != NoErr {
      PutSame(st, r);
    } else {
      ExecDo(g, starts, fuel, Assign(r, c + 2, c + 3), b, o.st);
      Assigned(c, st, r, c', v, o.st, acc, b, g);
    }
  }

  lemma Assigned(c: nat, st: State, r: Ref, c': nat, v: Out<Val>, s: State, acc: seq<Entry>, b: Bytes, g: Gen)
    requires RefOk(st, r) && Below(r, c) && Get(st, r) == VMap(false, acc) && c + 4 <= c' && s.i <= |b|
    requires c + 2 in st.tmp && Agree(c', s, st.(tmp := st.tmp[c + 3 := v.v])) && s.i == st.i + v.n
    ensures Reached(c, st, NoErr, v.n, Put(st, r, VMap(false, MapSet(acc, st.tmp[c + 2], v.v))),
                    Step(g, Assign(r, c + 2, c + 3), b, s))
  {
    hide RefOk, Get, Put, Below, MapSet;
    AgreePut(c, s, st, r, VMap(false, MapSet(acc, st.tmp[c + 2], v.v)));
    PutGet(s, r, VMap(false, MapSet(acc, st.tmp[c + 2], v.v)));
  }

  // ---------------------------------------------------------------------
  // Structs, unions and methods
  // ---------------------------------------------------------------------

  /** How a method call ended, against the reference decoder for a nested struct. */
  ghost predicate Delegates(g: Gen, q: Out<Val>, o: Outcome) {
    match o
    case Next(f) => q == Out(f.recv, f.i, NoErr)
    case Return(f, e) => e in {ShortBuffer, UnknownUnionTag} && q == if g.mode.Safe? then Out(f.recv, 0, e) else Out(f.recv, f.i, NoErr)
    case Crash => q.e == Unchecked
    case NoFuel => false
  }

  lemma {:induction false} StructCode(g: Gen, starts: Starts, fuel: nat, n: Name, r: Ref, c: nat, b: Bytes, st: State)
    requires Ready(g, fuel, TStruct(n), r, c, b, st)
    ensures Matches(c, st, r, DecStructInto(g, n, Get(st, r), b[st.i..]),
                    Exec(g, starts, fuel, Call(r, n, g.mode.Safe?), b, st))
    decreases |b| - st.i, TyRank(g, TStruct(n)), TStruct(n), 2
  {
    hide DecStructInto, Invoke, RefOk, Get, Put, Below, HasTy;
    InvokeCode(g, starts, fuel, n, Get(st, r), b[st.i..]);
    PutGet(st, r, DecStructInto(g, n, Get(st, r), b[st.i..]).v);
  }

  lemma {:induction false} UnionCode(g: Gen, starts: Starts, fuel: nat, ms: seq<Name>, r: Ref, c: nat, b: Bytes, st: State)
    requires Ready(g, fuel, TUnion(ms), r, c, b, st)
    ensures Matches(c, st, r, DecUnionInto(g, ms, Get(st, r), b[st.i..]),
                    Exec(g, starts, fuel, Emit(g, TUnion(ms), r, c).0, b, st))
    decreases |b| - st.i, 0, TUnion(ms), 1
  {
    hide Exec, Matches, Uvarint, HasTy, RefOk, Get, Put, Step, Below, Agree, DecStructInto;
    var sw := Switch(r, Arms(ms, c), g.mode.Safe?);
    AfterVarint(g, starts, fuel, sw, b, st);
    var (nn, cc) := Uvarint(b[st.i..]);
    var out := DecUnionInto(g, ms, Get(st, r), b[st.i..]);
    var o := Exec(g, starts, fuel, Emit(g, TUnion(ms), r, c).0, b, st);
    Untouched(c, st, r, st.(nn := nn, cc := cc));
    if cc <= 0 {
      MatchesError(c, st, r, out, o);
    } else {
      var s := Counted(b, st);
      AfterRegisters(c, st, r, s, out.v);
      assert b[st.i..][cc..] == b[s.i..];
      RankBelowHeightAll(g, ms);
      SwitchCode(g, starts, fuel, ms, r, c, b, s, |b| - st.i);
      MatchesInner(c, st, r, s, r, TaggedInto(g, ms, s.nn, Get(s, r), b[s.i..]), out, o);
    }
  }

  lemma RankBelowHeightAll(g: Gen, ms: seq<Name>)
    ensures forall m :: m in ms ==> RankOf(g, m) + 1 <= g.height
  {}

  lemma {:induction false} SwitchCode(g: Gen, starts: Starts, fuel: nat,
                                      ms: seq<Name>, r: Ref, c: nat, b: Bytes, st: State, rem: nat)
    requires st.i <= |b| && RefOk(st, r) && Below(r, c) && HasTy(g, TUnion(ms), Get(st, r))
    requires |b| - st.i < rem && fuel >= Need(g, rem, 0)
    ensures Matches(c, st, r, TaggedInto(g, ms, st.nn, Get(st, r), b[st.i..]),
                    Exec(g, starts, fuel, Switch(r, Arms(ms, c), g.mode.Safe?), b, st))
    decreases rem, 0, TUnion(ms), 0
  {
    hide DecStructInto, Invoke, RefOk, Get, Put, Below, HasTy, Agree;
    var nn, d := st.nn, Get(st, r);
    Untouched(c, st, r, st);
    if nn == 0 {
      PutGet(st, r, VNil);
      AgreeSame(c, Put(st, r, VNil));
    } else if nn <= |ms| {
      var m := ms[nn - 1];
      MemberTyped(g, ms, nn - 1, d);
      NeedLess(g, rem, |b| - st.i, 0, RankOf(g, m) + 1);
      var dd := Member(d, nn - 1, Zero(g, TStruct(m)));
      InvokeCode(g, starts, fuel, m, dd, b[st.i..]);
      ExecArm(g, starts, fuel, ms, r, c, b, st);
      ArmTaken(g, c, st, r, nn - 1, d, DecStructInto(g, m, dd, b[st.i..]), Invoke(g, starts, fuel, m, dd, b[st.i..]));
    }
  }

  /** What `case nn` does with how the member's Unmarshal ended. */
  function ArmOutcome(g: Gen, st: State, r: Ref, t: nat, d: Val, inv: Outcome): Outcome
    requires RefOk(st, r)
  {
    match inv
    case Next(f) => Next(Put(st, r, VMem(t, f.recv)).(i := st.i + f.i))
    case Return(f, e) =>
      if !g.mode.Safe? then Next(Put(st, r, VMem(t, f.recv)).(i := st.i + f.i))
      else if d.VMem? && d.tag == t then Return(Put(st, r, VMem(t, f.recv)), e)
      else Return(st, e)
    case _ => inv
  }

  lemma ExecArm(g: Gen, starts: Starts, fuel: nat, ms: seq<Name>, r: Ref, c: nat, b: Bytes, st: State)
    requires st.i <= |b| && RefOk(st, r) && 0 < st.nn <= |ms|
    ensures var d, m := Get(st, r), ms[st.nn - 1];
            Exec(g, starts, fuel, Switch(r, Arms(ms, c), g.mode.Safe?), b, st) ==
              ArmOutcome(g, st, r, st.nn - 1, d,
                         Invoke(g, starts, fuel, m, Member(d, st.nn - 1, Zero(g, TStruct(m))), b[st.i..]))
  {
    hide Invoke, RefOk, Get, Put;
  }

  lemma ArmTaken(g: Gen, c: nat, st: State, r: Ref, t: nat, d: Val, q: Out<Val>, inv: Outcome)
    requires RefOk(st, r) && d == Get(st, r) && Delegates(g, q, inv)
    ensures var v := if q.e == NoErr || (d.VMem? && d.tag == t) then VMem(t, q.v) else d;
            Matches(c, st, r, Out(v, q.n, q.e), ArmOutcome(g, st, r, t, d, inv))
  {
    hide RefOk, Get, Put;
    PutGet(st, r, VMem(t, q.v));
    PutSame(st, r);
  }

  lemma MemberTyped(g: Gen, ms: seq<Name>, t: nat, d: Val)
    requires HasTy(g, TUnion(ms), d) && t < |ms|
    ensures HasTy(g, TStruct(ms[t]), Member(d, t, Zero(g, TStruct(ms[t]))))
  {
    ZeroHasTy(g, TStruct(ms[t]));
  }

  /** A call runs the callee's method on its own frame. */
  lemma {:induction false} InvokeCode(g: Gen, starts: Starts, fuel: nat, n: Name, d: Val, b: Bytes)
    requires HasTy(g, TStruct(n), d) && fuel >= Need(g, |b|, RankOf(g, n) + 1)
    ensures Delegates(g, DecStructInto(g, n, d, b), Invoke(g, starts, fuel, n, d, b))
    decreases |b|, RankOf(g, n) + 1, TStruct(n), 1
  {
    hide Exec, Invoke, DecFieldsInto, LoadFields, FieldsHaveTy;
    if Blittable(g, n) {
      MemmoveCode(g, starts, fuel, n, d, b);
    } else {
      MethodCode(g, starts, fuel, n, d, b);
      var q := DecFieldsInto(g, FieldsOf(g, n), d.fields, b);
      assert d.fields[..0] + q.v == q.v;
    }
  }

  lemma MemmoveCode(g: Gen, starts: Starts, fuel: nat, n: Name, d: Val, b: Bytes)
    requires Blittable(g, n) && fuel > 0
    ensures var z, o := Sizeof(g, n), Invoke(g, starts, fuel, n, d, b);
            if |b| < z then o == Crash
            else o == Next(Frame(d).(recv := VStruct(LoadFields(g, n, b[..z]), b[..z]), i := z))
  {
    hide LoadFields, EmitFields;
    if Sizeof(g, n) <= |b| { assert b[0..0 + Sizeof(g, n)] == b[..Sizeof(g, n)]; }
  }

  /** A method decodes the receiver's fields in order. */
  lemma {:induction false} MethodCode(g: Gen, starts: Starts, fuel: nat, n: Name, d: Val, b: Bytes)
    requires HasTy(g, TStruct(n), d) && fuel >= Need(g, |b|, RankOf(g, n) + 1) && !Blittable(g, n)
    ensures |d.fields| == |FieldsOf(g, n)|
    ensures FieldsMatch(Frame(d), 0, DecFieldsInto(g, FieldsOf(g, n), d.fields, b), Invoke(g, starts, fuel, n, d, b))
    decreases |b|, RankOf(g, n) + 1, TStruct(n), 0
  {
    hide Exec, EmitFields, DecFieldsInto, FieldsMatch;
    var c := if n in starts then starts[n] else 0;
    assert b[0..] == b;
    assert d.fields[0..] == d.fields;
    assert Invoke(g, starts, fuel, n, d, b) == Exec(g, starts, fuel - 1, EmitFields(g, FieldsOf(g, n), 0, c).0, b, Frame(d));
    StructWf(g, n);
    NeedSame(g, |b|, |b|, RankOf(g, n), FieldsRank(g, FieldsOf(g, n)));
    FieldsTyped(g, FieldsOf(g, n), d.fields);
    FieldsCode(g, starts, fuel - 1, FieldsOf(g, n), 0, c, b, Frame(d));
  }

  lemma FieldsTyped(g: Gen, tys: seq<Ty>, vs: seq<Val>)
    requires FieldsHaveTy(g, tys, vs)
    ensures |tys| == |vs|
  {}

  /** Running the code for fields `k`, `k+1`, ... had the outcome `q` says. */
  ghost predicate FieldsMatch(st: State, k: nat, q: Out<seq<Val>>, o: Outcome)
    requires st.recv.VStruct? && k <= |st.recv.fields|
  {
    var after := VStruct(st.recv.fields[..k] + q.v, st.recv.pad);
    match q.e
    case NoErr => o.Next? && o.st.i == st.i + q.n && o.st.recv == after
    case Unchecked => o.Crash?
    case _ => o.Return? && o.e == q.e && o.st.i == st.i + q.n && o.st.recv == after
  }

  lemma {:induction false} FieldsCode(g: Gen, starts: Starts, fuel: nat, tys: seq<Ty>, k: nat, c: nat, b: Bytes, st: State)
    requires st.i <= |b| && st.recv.VStruct? && k + |tys| == |st.recv.fields|
    requires FieldsHaveTy(g, tys, st.recv.fields[k..])
    requires fuel >= Need(g, |b| - st.i, FieldsRank(g, tys))
    ensures FieldsMatch(st, k, DecFieldsInto(g, tys, st.recv.fields[k..], b[st.i..]),
                        Exec(g, starts, fuel, EmitFields(g, tys, k, c).0, b, st))
    decreases |b| - st.i, FieldsRank(g, tys), tys, 3
  {
    hide Exec, DecInto, DecFieldsInto, HasTy, Emit, FieldsMatch;
    var ds := st.recv.fields[k..];
    if tys == [] {
      FieldsIntoNil(g, b[st.i..]);
      assert ds == [];
      ExecDo(g, starts, fuel, Skip, b, st);
      FieldsEnd(st, k);
    } else {
      var (code, c') := Emit(g, tys[0], RField(k), c);
      var rest := EmitFields(g, tys[1..], k + 1, c').0;
      ExecSeq(g, starts, fuel, code, rest, b, st);
      FieldsIntoStep(g, tys, ds, b[st.i..]);
      NeedSame(g, |b| - st.i, |b| - st.i, FieldsRank(g, tys), TyRank(g, tys[0]));
      EmitIsCorrect(g, starts, fuel, tys[0], RField(k), c, b, st);
      var q, o := DecInto(g, tys[0], ds[0], b[st.i..]), Exec(g, starts, fuel, code, b, st);
      if q.e != NoErr {
        FieldsStopped(c, st, k, q, o);
      } else {
        var s := o.st;
        assert s.recv.fields[k + 1..] == ds[1..];
        assert b[st.i..][q.n..] == b[s.i..];
        NeedSame(g, |b| - st.i, |b| - s.i, FieldsRank(g, tys), FieldsRank(g, tys[1..]));
        FieldsCode(g, starts, fuel, tys[1..], k + 1, c', b, s);
        FieldsCons(c, st, k, q, s, DecFieldsInto(g, tys[1..], ds[1..], b[s.i..]), Exec(g, starts, fuel, rest, b, s));
      }
    }
  }

  lemma FieldsEnd(st: State, k: nat)
    requires st.recv.VStruct? && k == |st.recv.fields|
    ensures FieldsMatch(st, k, Out([], 0, NoErr), Next(st))
  {
    assert st.recv.fields[..k] + [] == st.recv.fields;
  }

  lemma FieldsStopped(c: nat, st: State, k: nat, q: Out<Val>, o: Outcome)
    requires st.recv.VStruct? && k < |st.recv.fields| && q.e != NoErr && Matches(c, st, RField(k), q, o)
    ensures FieldsMatch(st, k, Out([q.v] + st.recv.fields[k..][1..], q.n, q.e), o)
  {
    var fs := st.recv.fields;
    assert fs[k := q.v] == fs[..k] + ([q.v] + fs[k..][1..]);
  }

  lemma FieldsCons(c: nat, st: State, k: nat, q: Out<Val>, s: State, t: Out<seq<Val>>, o: Outcome)
    requires st.recv.VStruct? && k < |st.recv.fields| && q.e == NoErr && Matches(c, st, RField(k), q, Next(s))
    requires s.recv.VStruct? && k + 1 <= |s.recv.fields| && FieldsMatch(s, k + 1, t, o)
    ensures FieldsMatch(st, k, Out([q.v] + t.v, q.n + t.n, t.e), o)
  {
    assert s.recv.fields[..k + 1] + t.v == st.recv.fields[..k] + ([q.v] + t.v);
  }
}
