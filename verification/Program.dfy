/** The generated Unmarshal methods as programs: the statements the generator emits,
    what they do to a method's registers and destination, and the emission itself. */
module Program {
  import opened Bytes
  import opened Varint
  import opened Schema
  import opened Memory
  import opened Codec
  import opened Reuse

  /** The references the emitter builds: a receiver field, a temporary, an element,
      a pointee. Temporaries are known by the counter value in their name. */
  datatype Ref = RField(k: nat) | RVar(x: nat) | RIndex(r: Ref, x: nat) | RDeref(r: Ref)

  /** Straight-line statements. */
  datatype Prim =
    | Skip
    | GuardN(n: nat)                      // if len(b)-i < n { return i, ErrShortBuffer }
    | GuardLen                            // if uint64(len(b)-i) < nn { return i, ErrShortBuffer }
    | ReadVarint(checked: bool)           // nn, cc = Uvarint(b[i:]); if cc <= 0 { return ... }; i += cc
    | ReadScalar(r: Ref, k: Kind, decl: Decl) // r = T(b[i:]); i += w
    | ReadStr(r: Ref)                     // r = string(b[i : i+int(nn)]); i += int(nn)
    | SetNil(r: Ref, v: Val)              // r = nil
    | AppendBytes(r: Ref)                 // r = append(r[:0], b[i:i+int(nn)]...); i += int(nn)
    | AliasBytes(r: Ref)                  // r = b[i : i+int(nn)]; i += int(nn)
    | CopyArray(r: Ref, n: nat)           // copy(r[:], b[i:i+n]); i += n
    | GrowSlice(r: Ref, e: Ty, decl: Decl) // if cap(r) >= int(nn) { r = r[:nn] } else { r = make(T, nn) }
    | CopyRaw(r: Ref, e: Ty)              // copy(unsafe.Slice(&r[0], n), b[i:i+n]); i += n
    | CopyStructs(x: nat, r: Ref, name: Name) // x := Sizeof * len; copy(..., b[i:i+x]); i += x
    | NewIfNil(r: Ref, e: Ty)             // if r == nil { r = new(T) }
    | Save(x: nat)                        // x := nn
    | ClearOrMake(r: Ref, ty: Ty)         // if r != nil { clear(r) } else { r = make(T, nn) }
    | Declare(x: nat, ty: Ty)             // var x T
    | Assign(r: Ref, kx: nat, vx: nat)    // r[kx] = vx
    | Memmove(name: Name)                    // the whole body of a raw-copied struct's method

  datatype Arm = Arm(x: nat, name: Name)

  datatype Stmt =
    | Do(p: Prim)
    | Seq(s1: Stmt, s2: Stmt)
    | IfZero(s1: Stmt, s2: Stmt)          // if nn == 0 { s1 } else { s2 }
    | IfFlag(s1: Stmt, s2: Stmt)          // if b[i] != 0 { i++; s1 } else { i++; s2 }
    | ForRange(x: nat, r: Ref, body: Stmt)
    | ForLen(x: nat, n: nat, body: Stmt)
    | ForCount(x: nat, cnt: nat, body: Stmt)
    | Call(r: Ref, name: Name, checked: bool)
    | Switch(r: Ref, arms: seq<Arm>, checked: bool)

  // ---------------------------------------------------------------------
  // Emission
  // ---------------------------------------------------------------------

  function IfSafe(g: Gen, p: Prim): Stmt { Do(if g.mode.Safe? then p else Skip) }

  function EmitVarint(g: Gen): Stmt { Do(ReadVarint(g.mode.Safe?)) }

  /** The code that decodes `r`, and the next value of the name counter. */
  function Emit(g: Gen, ty: Ty, r: Ref, c: nat): (res: (Stmt, nat))
    ensures res.1 >= c
    decreases ty, 0
  {
    match ty
    case TScalar(k, decl) => (Seq(IfSafe(g, GuardN(Width(k))), Do(ReadScalar(r, k, decl))), c)
    case TStr(_) => (Seq(EmitVarint(g), Seq(IfSafe(g, GuardLen), Do(ReadStr(r)))), c)
    case TSlice(e, d) =>
      var (code, c') := EmitElems(g, e, d, r, c);
      (Seq(EmitVarint(g), IfZero(Do(SetNil(r, NIL_SLICE)), Seq(IfSafe(g, GuardLen), code))), c')
    case TArray(m, e, _) =>
      if IsByte(e) then (Seq(IfSafe(g, GuardN(m)), Do(CopyArray(r, m))), c)
      else if RawElems(g, e) && m > 0 then (Do(CopyRaw(r, e)), c)
      else if BlitElem(g, e) && m > 0 then (Do(CopyStructs(c, r, e.name)), c + 1)
      else
        var (body, c') := Emit(g, e, RIndex(r, c), c + 1);
        (ForLen(c, m, body), c')
    case TPtr(e, _) =>
      var (code, c') := Emit(g, e, RDeref(r), c);
      (Seq(IfSafe(g, GuardN(1)), IfFlag(Seq(Do(NewIfNil(r, e)), code), Do(SetNil(r, VNil)))), c')
    case TMap(kt, vt, d) =>
      var (keyCode, c') := Emit(g, kt, RVar(c + 2), c + 4);
      var (valCode, c'') := Emit(g, vt, RVar(c + 3), c');
      (Seq(EmitVarint(g), IfZero(Do(SetNil(r, NIL_MAP)), Seq(IfSafe(g, GuardLen),
         Seq(Do(Save(c)), Seq(Do(ClearOrMake(r, TMap(kt, vt, d))),
           ForCount(c + 1, c, EntryBody(kt, vt, r, c, keyCode, valCode))))))), c'')
    case TStruct(n) => (Call(r, n, g.mode.Safe?), c)
    case TUnion(ms) =>
      (Seq(EmitVarint(g), Switch(r, Arms(ms, c), g.mode.Safe?)), c + |ms|)
    case TSkip => (Do(Skip), c)
  }

  /** A non-nil slice: the payload of a []byte, or the backing array and its elements. */
  function EmitElems(g: Gen, e: Ty, d: Decl, r: Ref, c: nat): (res: (Stmt, nat))
    ensures res.1 >= c
    decreases e, 1
  {
    if IsByte(e) then (Do(if g.mode.Safe? then AppendBytes(r) else AliasBytes(r)), c)
    else if RawElems(g, e) then (Seq(Do(GrowSlice(r, e, d)), Do(CopyRaw(r, e))), c)
    else if BlitElem(g, e) then (Seq(Do(GrowSlice(r, e, d)), Do(CopyStructs(c, r, e.name))), c + 1)
    else
      var (body, c') := Emit(g, e, RIndex(r, c), c + 1);
      (Seq(Do(GrowSlice(r, e, d)), ForRange(c, r, body)), c')
  }

  function EntryBody(kt: Ty, vt: Ty, r: Ref, c: nat, keyCode: Stmt, valCode: Stmt): Stmt {
    Seq(Do(Declare(c + 2, kt)), Seq(Do(Declare(c + 3, vt)),
      Seq(keyCode, Seq(valCode, Do(Assign(r, c + 2, c + 3))))))
  }

  function Arms(ms: seq<Name>, c: nat): (arms: seq<Arm>)
    ensures |arms| == |ms|
    ensures forall k :: 0 <= k < |ms| ==> arms[k] == Arm(c + k, ms[k])
  {
    seq(|ms|, k requires 0 <= k < |ms| => Arm(c + k, ms[k]))
  }

  /** Fields `k`, `k+1`, ... of the receiver in declaration order. */
  function EmitFields(g: Gen, tys: seq<Ty>, k: nat, c: nat): (res: (Stmt, nat))
    ensures res.1 >= c
  {
    if tys == [] then (Do(Skip), c)
    else
      var (s1, c') := Emit(g, tys[0], RField(k), c);
      var (s2, c'') := EmitFields(g, tys[1..], k + 1, c');
      (Seq(s1, s2), c'')
  }

  /** The body of a target's Unmarshal, with the counter at `c` when emission starts. */
  function Method(g: Gen, n: Name, c: nat): Stmt {
    if Blittable(g, n) then Do(Memmove(n)) else EmitFields(g, FieldsOf(g, n), 0, c).0
  }

  // ---------------------------------------------------------------------
  // Registers and destination
  // ---------------------------------------------------------------------

  /** One activation: the offset, the shared registers, the receiver, and the
      temporaries, values in `tmp` and counters in `idx`. */
  datatype State = State(i: nat, nn: nat, cc: int, recv: Val, tmp: map<nat, Val>, idx: map<nat, nat>)

  function Frame(d: Val): State { State(0, 0, 0, d, map[], map[]) }

  function Items(v: Val): seq<Val> {
    if v.VSlice? || v.VArr? then v.elems else []
  }

  function WithItems(v: Val, es: seq<Val>): Val
    requires v.VSlice? || v.VArr?
  {
    v.(elems := es)
  }

  /** The reference names a place. */
  predicate RefOk(st: State, r: Ref)
    decreases r, 0
  {
    match r
    case RField(k) => st.recv.VStruct? && k < |st.recv.fields|
    case RVar(x) => x in st.tmp
    case RIndex(r', x) =>
      RefOk(st, r') && x in st.idx && (Get(st, r').VSlice? || Get(st, r').VArr?) && st.idx[x] < |Items(Get(st, r'))|
    case RDeref(r') => RefOk(st, r') && Get(st, r').VRef?
  }

  function Get(st: State, r: Ref): Val
    requires RefOk(st, r)
    decreases r, 1
  {
    match r
    case RField(k) => st.recv.fields[k]
    case RVar(x) => st.tmp[x]
    case RIndex(r', x) => Items(Get(st, r'))[st.idx[x]]
    case RDeref(r') => Get(st, r').v
  }

  function Put(st: State, r: Ref, v: Val): State
    requires RefOk(st, r)
  {
    match r
    case RField(k) => st.(recv := VStruct(st.recv.fields[k := v], st.recv.pad))
    case RVar(x) => st.(tmp := st.tmp[x := v])
    case RIndex(r', x) => Put(st, r', WithItems(Get(st, r'), Items(Get(st, r'))[st.idx[x] := v]))
    case RDeref(r') => Put(st, r', VRef(v))
  }

  // ---------------------------------------------------------------------
  // Execution
  // ---------------------------------------------------------------------

  /** `Crash` is a run-time panic, an allocation larger than the remaining input in
      safe mode, or, in fast mode, input past what it checks. */
  datatype Outcome = Next(st: State) | Return(st: State, e: Err) | Crash | NoFuel

  ghost function StructsAt(g: Gen, n: Name, m: nat, w: Bytes): (vs: seq<Val>)
    requires Blittable(g, n) && |w| == m * Sizeof(g, n)
    ensures |vs| == m
  {
    if m == 0 then [] else
      MulStep(m, Sizeof(g, n));
      [VStruct(LoadFields(g, n, w[..Sizeof(g, n)]), w[..Sizeof(g, n)])] + StructsAt(g, n, m - 1, w[Sizeof(g, n)..])
  }

  ghost function Step(g: Gen, p: Prim, b: Bytes, st: State): Outcome {
    var rem := |b| - st.i;
    if rem < 0 then Crash
    else match p
      case Skip => Next(st)
      case GuardN(n) => if rem < n then Return(st, ShortBuffer) else Next(st)
      case GuardLen => if rem < st.nn then Return(st, ShortBuffer) else Next(st)
      case ReadVarint(checked) =>
        var (nn, cc) := Uvarint(b[st.i..]);
        if cc > 0 then Next(st.(nn := nn, cc := cc, i := st.i + cc))
        else if checked then Return(st.(nn := nn, cc := cc), ShortBuffer)
        else Crash
      case ReadScalar(r, k, _) =>
        if rem < Width(k) || !RefOk(st, r) then Crash
        else Next(Put(st, r, VNum(ScalarOf(k, b[st.i..st.i + Width(k)]))).(i := st.i + Width(k)))
      case ReadStr(r) =>
        if rem < st.nn || !RefOk(st, r) then Crash
        else Next(Put(st, r, VStr(b[st.i..st.i + st.nn])).(i := st.i + st.nn))
      case SetNil(r, v) => if RefOk(st, r) then Next(Put(st, r, v)) else Crash
      case AppendBytes(r) =>
        if rem < st.nn || !RefOk(st, r) then Crash
        else Next(Put(st, r, AppendAll(Get(st, r), b[st.i..st.i + st.nn])).(i := st.i + st.nn))
      case AliasBytes(r) =>
        if rem < st.nn || !RefOk(st, r) then Crash
        else Next(Put(st, r, VSlice(false, ByteVals(b[st.i..st.i + st.nn]), [])).(i := st.i + st.nn))
      case CopyArray(r, n) =>
        if rem < n || !RefOk(st, r) then Crash
        else Next(Put(st, r, VArr(ByteVals(b[st.i..st.i + n]))).(i := st.i + n))
      case GrowSlice(r, e, _) =>
        if !RefOk(st, r) || (g.mode.Safe? && rem < st.nn) then Crash
        else Next(Put(st, r, Grow(Get(st, r), st.nn, Zero(g, e))))
      case CopyRaw(r, e) =>
        if !RefOk(st, r) || !g.mode.Fast? || Items(Get(st, r)) == [] then Crash  // &r[0]
        else
          var d := Get(st, r);
          var w := |Items(d)| * RawWidth(e);
          if rem < w then Crash
          else Next(Put(st, r, WithItems(d, LoadSeq(g.mode.lay.big, e, |Items(d)|, b[st.i..st.i + w]))).(i := st.i + w))
      case CopyStructs(x, r, n) =>
        if !RefOk(st, r) || !Blittable(g, n) || Items(Get(st, r)) == [] then Crash
        else
          var d := Get(st, r);
          var w := |Items(d)| * Sizeof(g, n);
          if rem < w then Crash
          else Next(Put(st, r, WithItems(d, StructsAt(g, n, |Items(d)|, b[st.i..st.i + w]))).(i := st.i + w, idx := st.idx[x := w]))
      case NewIfNil(r, e) =>
        if RefOk(st, r) then Next(Put(st, r, VRef(Pointee(Get(st, r), Zero(g, e))))) else Crash
      case Save(x) => Next(st.(idx := st.idx[x := st.nn]))
      case ClearOrMake(r, _) =>
        if !RefOk(st, r) || (g.mode.Safe? && rem < st.nn) then Crash
        else Next(Put(st, r, VMap(false, [])))
      case Declare(x, ty) => Next(st.(tmp := st.tmp[x := Zero(g, ty)]))
      case Assign(r, kx, vx) =>
        if !RefOk(st, r) || !Get(st, r).VMap? || kx !in st.tmp || vx !in st.tmp then Crash
        else Next(Put(st, r, VMap(false, MapSet(Get(st, r).entries, st.tmp[kx], st.tmp[vx]))))
      case Memmove(n) =>
        if !Blittable(g, n) || rem < Sizeof(g, n) then Crash
        else
          var w := b[st.i..st.i + Sizeof(g, n)];
          Next(st.(recv := VStruct(LoadFields(g, n, w), w), i := st.i + Sizeof(g, n)))
  }

  /** Runs a statement over input `b`. `starts` gives each method's first temporary;
      `fuel` bounds the depth of method calls. */
  ghost function Exec(g: Gen, starts: map<Name, nat>, fuel: nat, s: Stmt, b: Bytes, st: State): Outcome
    decreases fuel, 1, s, 0
  {
    match s
    case Do(p) => Step(g, p, b, st)
    case Seq(s1, s2) => (
        match Exec(g, starts, fuel, s1, b, st)
        case Next(st') => Exec(g, starts, fuel, s2, b, st')
        case o => o
      )
    case IfZero(s1, s2) => if st.nn == 0 then Exec(g, starts, fuel, s1, b, st) else Exec(g, starts, fuel, s2, b, st)
    case IfFlag(s1, s2) =>
      if st.i >= |b| then Crash
      else
        var st' := st.(i := st.i + 1);
        if b[st.i] != 0 then Exec(g, starts, fuel, s1, b, st') else Exec(g, starts, fuel, s2, b, st')
    case ForRange(x, r, body) =>
      if RefOk(st, r) then Loop(g, starts, fuel, x, body, 0, |Items(Get(st, r))|, b, st) else Crash
    case ForLen(x, n, body) => Loop(g, starts, fuel, x, body, 0, n, b, st)
    case ForCount(x, cnt, body) =>
      if cnt in st.idx then Loop(g, starts, fuel, x, body, 0, st.idx[cnt], b, st) else Crash
    case Call(r, n, checked) =>
      if !RefOk(st, r) || st.i > |b| then Crash
      else (
        match Invoke(g, starts, fuel, n, Get(st, r), b[st.i..])
        case Next(f) => Next(Put(st, r, f.recv).(i := st.i + f.i))
        case Return(f, e) =>
          if checked then Return(Put(st, r, f.recv), e) else Next(Put(st, r, f.recv).(i := st.i + f.i))
        case o => o
      )
    case Switch(r, arms, checked) =>
      if !RefOk(st, r) || st.i > |b| then Crash
      else if st.nn == 0 then Next(Put(st, r, VNil))
      else if st.nn > |arms| then Return(st, UnknownUnionTag)
      else (
        var t, arm := st.nn - 1, arms[st.nn - 1];
        var d := Get(st, r);
        match Invoke(g, starts, fuel, arm.name, Member(d, t, Zero(g, TStruct(arm.name))), b[st.i..])
        case Next(f) => Next(Put(st, r, VMem(t, f.recv)).(i := st.i + f.i))
        case Return(f, e) =>
          if !checked then Next(Put(st, r, VMem(t, f.recv)).(i := st.i + f.i))
          else if d.VMem? && d.tag == t then Return(Put(st, r, VMem(t, f.recv)), e)  // the pointee was reused
          else Return(st, e)
        case o => o
      )
  }

  /** Runs `body` for x = k, k+1, ..., m-1. */
  ghost function Loop(g: Gen, starts: map<Name, nat>, fuel: nat,
                      x: nat, body: Stmt, k: nat, m: nat, b: Bytes, st: State): Outcome
    decreases fuel, 1, body, if m < k then 1 else m - k + 1
  {
    if k >= m then Next(st)
    else
      match Exec(g, starts, fuel, body, b, st.(idx := st.idx[x := k]))
      case Next(st') => Loop(g, starts, fuel, x, body, k + 1, m, b, st')
      case o => o
  }

  /** `d.Unmarshal(b)` for a destination of target type `n`. */
  ghost function Invoke(g: Gen, starts: map<Name, nat>, fuel: nat, n: Name, d: Val, b: Bytes): Outcome
    decreases fuel, 0
  {
    if fuel == 0 then NoFuel
    else Exec(g, starts, fuel - 1, Method(g, n, if n in starts then starts[n] else 0), b, Frame(d))
  }
}
