/** The generated Size, Marshal and Append as programs: what the generator emits for each,
    what the statements do, and the proof that they compute the wire format. */
module Encoders {
  import opened Bytes
  import opened Varint
  import opened Schema
  import opened Memory
  import opened Codec
  import Program
  import opened Marshal

  type Ref = Program.Ref
  type Env = Program.State

  /** Which method is emitted. Marshal and Append have the same cascade. */
  datatype Job = Sizing | Writing

  datatype Prim =
    | Nothing
    | Count(amount: nat)               // s += amount
    | CountLen(r: Ref)                 // s += UvarintSize(len(r))
    | CountItems(r: Ref, width: nat)   // s += width * len(r)
    | CountStructs(r: Ref, name: Name) // s += Sizeof(r[0]) * len(r)
    | CountSelf(name: Name)            // return Sizeof(*r)
    | Write(w: Bytes)                  // a flag byte or a constant tag
    | WriteScalar(r: Ref, k: Kind)
    | WriteLen(r: Ref)                 // PutUvarint(len(r))
    | WriteText(r: Ref)                // copy of a string or of bytes
    | WriteRaw(r: Ref, e: Ty)          // copy of the elements' memory
    | WriteStructs(r: Ref, name: Name) // copy of the structs' memory
    | WriteSelf(name: Name)            // copy of the receiver's memory

  datatype Arm = Arm(tag: Prim, name: Name)

  datatype Stmt =
    | Do(p: Prim)
    | Seq(s1: Stmt, s2: Stmt)
    | IfSome(r: Ref, s1: Stmt)                    // if len(r) > 0 { s1 }
    | IfNonNil(r: Ref, s1: Stmt, s2: Stmt)        // if r != nil { s1 } else { s2 }
    | ForIndex(x: nat, r: Ref, body: Stmt)        // for x := range r
    | ForLen(x: nat, m: nat, body: Stmt)          // for x := 0; x < m; x++
    | ForEach(x: nat, r: Ref, body: Stmt)         // for _, x := range r
    | ForEntries(k: nat, v: nat, r: Ref, body: Stmt)
    | Call(r: Ref, name: Name)
    | TypeSwitch(r: Ref, arms: seq<Arm>, none: Prim)

  // ---------------------------------------------------------------------
  // Emission
  // ---------------------------------------------------------------------

  /** Elements that are worth iterating by index. */
  predicate IndexElems(ty: Ty) { ty.TStruct? || ty.TArray? || (ty.TScalar? && ty.kind == KTime) }

  function Literal(job: Job, w: Bytes): Prim { if job.Sizing? then Count(|w|) else Write(w) }

  function Emit(g: Gen, job: Job, ty: Ty, r: Ref, c: nat): (res: (Stmt, nat))
    ensures res.1 >= c
    decreases ty, 0
  {
    match ty
    case TScalar(k, _) => (Do(if job.Sizing? then Count(Width(k)) else WriteScalar(r, k)), c)
    case TStr(_) => (Seq(EmitLen(job, r), Do(if job.Sizing? then CountItems(r, 1) else WriteText(r))), c)
    case TSlice(e, _) =>
      var (code, c') := EmitElems(g, job, e, r, c);
      (Seq(EmitLen(job, r), code), c')
    case TArray(m, e, _) => EmitArray(g, job, m, e, r, c)
    case TPtr(e, _) =>
      var (code, c') := Emit(g, job, e, Program.RDeref(r), c);
      if job.Sizing? then (Seq(Do(Count(1)), IfNonNil(r, code, Do(Nothing))), c')
      else (IfNonNil(r, Seq(Do(Write([1])), code), Do(Write([0]))), c')
    case TMap(kt, vt, _) =>
      var (keyCode, c') := Emit(g, job, kt, Program.RVar(c), c + 2);
      var (valCode, c'') := Emit(g, job, vt, Program.RVar(c + 1), c');
      (Seq(EmitLen(job, r), ForEntries(c, c + 1, r, Seq(keyCode, valCode))), c'')
    case TStruct(n) => (Call(r, n), c)
    case TUnion(ms) => (TypeSwitch(r, Arms(job, ms), Literal(job, Leb(0))), c)
    case TSkip => (Do(Nothing), c)
  }

  function EmitLen(job: Job, r: Ref): Stmt { Do(if job.Sizing? then CountLen(r) else WriteLen(r)) }

  function Arms(job: Job, ms: seq<Name>): (arms: seq<Arm>)
    ensures |arms| == |ms|
    ensures forall t :: 0 <= t < |ms| ==> arms[t] == Arm(Literal(job, Leb(t + 1)), ms[t])
  {
    seq(|ms|, t requires 0 <= t < |ms| => Arm(Literal(job, Leb(t + 1)), ms[t]))
  }

  /** The elements of a slice. Size asks for a constant size first, the others for raw
      memory. */
  function EmitElems(g: Gen, job: Job, e: Ty, r: Ref, c: nat): (res: (Stmt, nat))
    ensures res.1 >= c
    decreases e, 1
  {
    if IsByte(e) then (Do(if job.Sizing? then CountItems(r, 1) else WriteText(r)), c)
    else if job.Sizing? && SizeConst(e).Constant? then (Do(CountItems(r, SizeConst(e).n)), c)
    else if job.Writing? && RawElems(g, e) then (IfSome(r, Do(WriteRaw(r, e))), c)
    else if BlitElem(g, e) then
      (if job.Sizing? then Do(CountStructs(r, e.name)) else IfSome(r, Do(WriteStructs(r, e.name))), c)
    else if IndexElems(e) then
      var (body, c') := Emit(g, job, e, Program.RIndex(r, c), c + 1);
      (ForIndex(c, r, body), c')
    else
      var (body, c') := Emit(g, job, e, Program.RVar(c), c + 1);
      (ForEach(c, r, body), c')
  }

  /** A loop over a range variable never copies a struct, time.Time included, or an array:
      these are visited in place. */
  lemma LoopsInPlace(g: Gen, job: Job, e: Ty, r: Ref, c: nat)
    ensures var loop := EmitElems(g, job, e, r, c).0;
            && (loop.ForIndex? ==> e.TStruct? || e.TArray? || (e.TScalar? && e.kind == KTime))
            && (loop.ForEach? ==> !e.TStruct? && !e.TArray? && !(e.TScalar? && e.kind == KTime))
  {
    hide Emit, RawElems, SizeConst;
  }

  function EmitArray(g: Gen, job: Job, m: nat, e: Ty, r: Ref, c: nat): (res: (Stmt, nat))
    ensures res.1 >= c
    decreases e, 1
  {
    if job.Sizing? && SizeConst(e).Constant? then (Do(Count(m * SizeConst(e).n)), c)
    else if job.Sizing? && BlitElem(g, e) then (Do(CountStructs(r, e.name)), c)
    else if job.Writing? && IsByte(e) then (Do(WriteText(r)), c)
    else if job.Writing? && m > 0 && RawElems(g, e) then (Do(WriteRaw(r, e)), c)
    else if job.Writing? && m > 0 && BlitElem(g, e) then (Do(WriteStructs(r, e.name)), c)
    else
      var (body, c') := Emit(g, job, e, Program.RIndex(r, c), c + 1);
      (ForLen(c, m, body), c')
  }

  function EmitFields(g: Gen, job: Job, tys: seq<Ty>, k: nat, c: nat): (res: (Stmt, nat))
    ensures res.1 >= c
  {
    if tys == [] then (Do(Nothing), c)
    else
      var (s1, c') := Emit(g, job, tys[0], Program.RField(k), c);
      var (s2, c'') := EmitFields(g, job, tys[1..], k + 1, c');
      (Seq(s1, s2), c'')
  }

  function Method(g: Gen, job: Job, n: Name, c: nat): Stmt {
    if Blittable(g, n) then Do(if job.Sizing? then CountSelf(n) else WriteSelf(n))
    else EmitFields(g, job, FieldsOf(g, n), 0, c).0
  }

  // ---------------------------------------------------------------------
  // Execution
  // ---------------------------------------------------------------------

  /** Where the output goes: a running total, a buffer from an offset on, or the end of a
      growing slice. */
  datatype Sink = Total(s: nat) | Buffer(b: Bytes, i: nat) | Growing(b: Bytes)

  datatype Outcome = Done(out: Sink) | Crash | NoFuel

  function Length(v: Val): nat {
    match v
    case VStr(s) => |s|
    case VSlice(_, es, _) => |es|
    case VArr(es) => |es|
    case VMap(_, es) => |es|
    case _ => 0
  }

  function TextOf(v: Val): Bytes {
    match v
    case VStr(s) => s
    case VSlice(_, es, _) => BytesOf(es)
    case VArr(es) => BytesOf(es)
    case _ => []
  }

  /** The bytes a write puts out. */
  ghost function Written(g: Gen, p: Prim, st: Env): Bytes
    requires p.Write? || p.WriteSelf? || (!p.Nothing? && !p.Count? && !p.CountSelf? && Program.RefOk(st, p.r))
  {
    match p
    case Write(w) => w
    case WriteScalar(r, k) => if Program.Get(st, r).VNum? then ScalarBytes(k, Program.Get(st, r).n) else []
    case WriteLen(r) => Leb(Length(Program.Get(st, r)))
    case WriteText(r) => TextOf(Program.Get(st, r))
    case WriteRaw(r, e) =>
      var vs := Program.Items(Program.Get(st, r));
      if g.mode.Fast? then RawSeq(g.mode.lay.big, e, |vs|, vs) else []
    case WriteStructs(r, n) =>
      if Blittable(g, n) then StructImages(g, n, Program.Items(Program.Get(st, r))) else []
    case WriteSelf(n) => if Blittable(g, n) then StructImage(g, n, st.recv) else []
    case _ => []
  }

  /** Output past the end of Marshal's buffer is a panic. */
  function Emitted(out: Sink, w: Bytes): Outcome {
    match out
    case Total(_) => Crash
    case Buffer(b, i) => if i + |w| <= |b| then Done(Buffer(Splice(b, i, w), i + |w|)) else Crash
    case Growing(b) => Done(Growing(b + w))
  }

  function Counted(out: Sink, n: nat): Outcome {
    if out.Total? then Done(Total(out.s + n)) else Crash
  }

  ghost function Step(g: Gen, p: Prim, st: Env, out: Sink): Outcome {
    match p
    case Nothing => Done(out)
    case Count(n) => Counted(out, n)
    case CountSelf(n) => if Blittable(g, n) then Counted(out, Sizeof(g, n)) else Crash
    case CountLen(r) => if Program.RefOk(st, r) then Counted(out, UvarintSize(Length(Program.Get(st, r)))) else Crash
    case CountItems(r, w) => if Program.RefOk(st, r) then Counted(out, Length(Program.Get(st, r)) * w) else Crash
    case CountStructs(r, n) =>
      if Program.RefOk(st, r) && Blittable(g, n) then Counted(out, Length(Program.Get(st, r)) * Sizeof(g, n)) else Crash
    case Write(_) => Emitted(out, Written(g, p, st))
    case WriteSelf(_) => Emitted(out, Written(g, p, st))
    case _ =>
      if !Program.RefOk(st, p.r) then Crash
      else if (p.WriteRaw? || p.WriteStructs?) && Program.Items(Program.Get(st, p.r)) == [] then Crash  // &r[0]
      else Emitted(out, Written(g, p, st))
  }

  /** Runs a statement; variables are scoped, so only the output comes back. */
  ghost function Run(g: Gen, job: Job, starts: map<Name, nat>, fuel: nat, s: Stmt, st: Env, out: Sink): Outcome
    decreases fuel, 1, s, 0
  {
    match s
    case Do(p) => Step(g, p, st, out)
    case Seq(s1, s2) => (
        match Run(g, job, starts, fuel, s1, st, out)
        case Done(out') => Run(g, job, starts, fuel, s2, st, out')
        case o => o
      )
    case IfSome(r, s1) =>
      if !Program.RefOk(st, r) then Crash
      else if Length(Program.Get(st, r)) > 0 then Run(g, job, starts, fuel, s1, st, out) else Done(out)
    case IfNonNil(r, s1, s2) =>
      if !Program.RefOk(st, r) then Crash
      else if Program.Get(st, r) != VNil then Run(g, job, starts, fuel, s1, st, out)
      else Run(g, job, starts, fuel, s2, st, out)
    case ForIndex(x, r, body) =>
      if !Program.RefOk(st, r) then Crash
      else IndexLoop(g, job, starts, fuel, x, body, 0, Length(Program.Get(st, r)), st, out)
    case ForLen(x, m, body) => IndexLoop(g, job, starts, fuel, x, body, 0, m, st, out)
    case ForEach(x, r, body) =>
      if !Program.RefOk(st, r) then Crash
      else EachLoop(g, job, starts, fuel, x, body, Program.Items(Program.Get(st, r)), st, out)
    case ForEntries(k, v, r, body) =>
      if !Program.RefOk(st, r) || !Program.Get(st, r).VMap? then Crash
      else EntriesLoop(g, job, starts, fuel, k, v, body, Program.Get(st, r).entries, st, out)
    case Call(r, n) =>
      if Program.RefOk(st, r) then Delegate(g, job, starts, fuel, n, Program.Get(st, r), out) else Crash
    case TypeSwitch(r, arms, none) =>
      if !Program.RefOk(st, r) then Crash
      else
        var v := Program.Get(st, r);
        if v == VNil then Step(g, none, st, out)
        else if !v.VMem? || v.tag >= |arms| then Crash
        else
          match Step(g, arms[v.tag].tag, st, out)
          case Done(out') => Delegate(g, job, starts, fuel, arms[v.tag].name, v.v, out')
          case o => o
  }

  ghost function IndexLoop(g: Gen, job: Job, starts: map<Name, nat>, fuel: nat,
                           x: nat, body: Stmt, k: nat, m: nat, st: Env, out: Sink): Outcome
    decreases fuel, 1, body, if m < k then 1 else m - k + 1
  {
    if k >= m then Done(out)
    else
      match Run(g, job, starts, fuel, body, st.(idx := st.idx[x := k]), out)
      case Done(out') => IndexLoop(g, job, starts, fuel, x, body, k + 1, m, st, out')
      case o => o
  }

  ghost function EachLoop(g: Gen, job: Job, starts: map<Name, nat>, fuel: nat,
                          x: nat, body: Stmt, vs: seq<Val>, st: Env, out: Sink): Outcome
    decreases fuel, 1, body, |vs| + 1
  {
    if vs == [] then Done(out)
    else
      match Run(g, job, starts, fuel, body, st.(tmp := st.tmp[x := vs[0]]), out)
      case Done(out') => EachLoop(g, job, starts, fuel, x, body, vs[1..], st, out')
      case o => o
  }

  ghost function EntriesLoop(g: Gen, job: Job, starts: map<Name, nat>, fuel: nat,
                             k: nat, v: nat, body: Stmt, es: seq<Entry>, st: Env, out: Sink): Outcome
    decreases fuel, 1, body, |es| + 1
  {
    if es == [] then Done(out)
    else
      match Run(g, job, starts, fuel, body, st.(tmp := st.tmp[k := es[0].k][v := es[0].v]), out)
      case Done(out') => EntriesLoop(g, job, starts, fuel, k, v, body, es[1..], st, out')
      case o => o
  }

  /** `s += d.Size()`, `i += d.Marshal(b[i:])` or `b = d.Append(b)`. */
  ghost function Delegate(g: Gen, job: Job, starts: map<Name, nat>, fuel: nat, n: Name, d: Val, out: Sink): Outcome
    decreases fuel, 0
  {
    if fuel == 0 then NoFuel
    else
      var code := Method(g, job, n, if n in starts then starts[n] else 0);
      match out
      case Total(s) => (
          match Run(g, job, starts, fuel - 1, code, Program.Frame(d), Total(0))
          case Done(Total(m)) => Done(Total(s + m))
          case NoFuel => NoFuel
          case _ => Crash
        )
      case Buffer(b, i) => (
          if i > |b| then Crash
          else
            match Run(g, job, starts, fuel - 1, code, Program.Frame(d), Buffer(b[i..], 0))
            case Done(Buffer(b', m)) => Done(Buffer(b[..i] + b', i + m))
            case NoFuel => NoFuel
            case _ => Crash
        )
      case Growing(_) => Run(g, job, starts, fuel - 1, code, Program.Frame(d), out)
  }

  // ---------------------------------------------------------------------
  // What the programs must do
  // ---------------------------------------------------------------------

  /** There is room for `w`, and the sink is the job's. */
  ghost predicate Room(job: Job, out: Sink, w: Bytes) {
    && (job.Sizing? <==> out.Total?)
    && (out.Buffer? ==> out.i + |w| <= |out.b|)
  }

  /** `w` counted, written or appended. */
  ghost function Give(out: Sink, w: Bytes): Sink
    requires out.Buffer? ==> out.i + |w| <= |out.b|
  {
    match out
    case Total(s) => Total(s + |w|)
    case Buffer(b, i) => Buffer(Splice(b, i, w), i + |w|)
    case Growing(b) => Growing(b + w)
  }

  lemma GiveMore(job: Job, out: Sink, u: Bytes, w: Bytes)
    requires Room(job, out, u + w)
    ensures Room(job, out, u) && Room(job, Give(out, u), w) && Give(Give(out, u), w) == Give(out, u + w)
  {
    if out.Buffer? { SpliceConcat(out.b, out.i, u, w); }
    if out.Growing? { assert out.b + u + w == out.b + (u + w); }
  }

  lemma GiveNothing(job: Job, out: Sink)
    requires Room(job, out, [])
    ensures Give(out, []) == out
  {
    if out.Buffer? { SpliceNothing(out.b, out.i); }
    if out.Growing? { assert out.b + [] == out.b; }
  }

  /** Nested method calls a value needs. */
  function Depth(v: Val): nat
    decreases v, 0
  {
    match v
    case VSlice(_, es, _) => DepthSeq(es)
    case VArr(es) => DepthSeq(es)
    case VRef(w) => Depth(w)
    case VMem(_, w) => Depth(w)
    case VMap(_, es) => DepthEntries(es)
    case VStruct(fs, _) => 1 + DepthSeq(fs)
    case _ => 0
  }

  function Max(x: nat, y: nat): (z: nat)
    ensures z >= x && z >= y
  {
    if x < y then y else x
  }

  function DepthSeq(vs: seq<Val>): nat
    decreases vs
  {
    if vs == [] then 0 else Max(Depth(vs[0]), DepthSeq(vs[1..]))
  }

  function DepthEntries(es: seq<Entry>): nat
    decreases es
  {
    if es == [] then 0 else Max(DepthEntry(es[0]), DepthEntries(es[1..]))
  }

  function DepthEntry(e: Entry): nat
    decreases e
  {
    Max(Depth(e.k), Depth(e.v))
  }
}
