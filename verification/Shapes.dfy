/** Generated safe-mode methods on heap objects: pointees, members and backing arrays are
    updated in place, to exactly what the reference decoder says. */
module Shapes {
  import opened Bytes
  import opened Varint
  import opened Words
  import opened Schema
  import opened Codec
  import opened Reuse

  const U16F := TScalar(KUint16, Builtin)
  const U32F := TScalar(KUint32, Builtin)
  const I32F := TScalar(KInt32, Builtin)
  const MEMBERS: seq<Name> := ["Ping", "Pong"]
  const SIGNAL := TUnion(MEMBERS)

  const PING: seq<Ty> := [U32F]
  const FRAME: seq<Ty> := [U16F, SIGNAL]
  const NUMS: seq<Ty> := [TSlice(I32F)]

  lemma ShapesWf()
    ensures Wf(Gen(map["Ping" := PING, "Pong" := PING, "Frame" := FRAME, "Nums" := NUMS], map[], 1, Safe))
  {
    var g := Gen(map["Ping" := PING, "Pong" := PING, "Frame" := FRAME, "Nums" := NUMS], map[], 1, Safe);
    FlatRank(g, PING);
    FlatRank(g, FRAME);
    FlatRank(g, NUMS);
  }

  lemma {:induction false} FlatRank(g: RawGen, tys: seq<Ty>)
    requires forall k :: 0 <= k < |tys| ==> TyRank(g, tys[k]) == 0
    ensures FieldsRank(g, tys) == 0
  {
    if tys != [] { FlatRank(g, tys[1..]); }
  }

  /** The package the methods were generated for. */
  function SafeShapes(): (g: Gen)
    ensures g.mode.Safe? && g.rank == map[]
    ensures FieldsOf(g, "Ping") == PING && FieldsOf(g, "Pong") == PING && FieldsOf(g, "Frame") == FRAME
  {
    ShapesWf();
    Gen(map["Ping" := PING, "Pong" := PING, "Frame" := FRAME, "Nums" := NUMS], map[], 1, Safe)
  }

  /** What a method must return and leave for a receiver that held `ds`. */
  ghost function Expected(tys: seq<Ty>, ds: seq<Val>, b: Bytes): Out<seq<Val>>
    requires |tys| == |ds|
  {
    DecFieldsInto(SafeShapes(), tys, ds, b)
  }

  class Ping {
    var Seq: int

    constructor () ensures Seq == 0 { Seq := 0; }

    ghost function Fields(): seq<Val> reads this { [VNum(Seq)] }

    method Unmarshal(b: array<byte>, off: nat) returns (i: nat, e: Err)
      requires off <= b.Length
      modifies this
      ensures Out(Fields(), i, e) == Expected(PING, old(Fields()), b[off..])
    {
      i := 0;
      OneWord(SafeShapes(), Fields()[0], b[off..]);
      if b.Length - off - i < 4 { return i, ShortBuffer; }
      ReadsLE(b[off + i..]);
      assert b[off + i..][..4] == b[off..][..4];
      Seq := U32(b[off + i..]);
      i := i + 4;
      return i, NoErr;
    }
  }

  class Pong {
    var Seq: int

    constructor () ensures Seq == 0 { Seq := 0; }

    ghost function Fields(): seq<Val> reads this { [VNum(Seq)] }

    method Unmarshal(b: array<byte>, off: nat) returns (i: nat, e: Err)
      requires off <= b.Length
      modifies this
      ensures Out(Fields(), i, e) == Expected(PING, old(Fields()), b[off..])
    {
      i := 0;
      OneWord(SafeShapes(), Fields()[0], b[off..]);
      if b.Length - off - i < 4 { return i, ShortBuffer; }
      ReadsLE(b[off + i..]);
      assert b[off + i..][..4] == b[off..][..4];
      Seq := U32(b[off + i..]);
      i := i + 4;
      return i, NoErr;
    }
  }

  /** A struct of one uint32. */
  lemma OneWord(g: Gen, d: Val, b: Bytes)
    requires g.mode.Safe?
    ensures DecFieldsInto(g, PING, [d], b) ==
              if |b| < 4 then Out([d], 0, ShortBuffer) else Out([VNum(FromLE(b[..4]))], 4, NoErr)
  {
    hide DecFieldsInto, FromLE;
    OneFieldInto(g, U32F, d, b);
  }

  /** The interface: nil, or a pointer to one of the members. */
  datatype Signal = Nil | IsPing(ping: Ping) | IsPong(pong: Pong)

  class Frame {
    var ID: int
    var Sig: Signal

    ghost function SigVal(): Val
      reads this`Sig, if Sig.IsPing? then {Sig.ping} else {}, if Sig.IsPong? then {Sig.pong} else {}
    {
      match Sig
      case Nil => VNil
      case IsPing(p) => VMem(0, VStruct(p.Fields(), []))
      case IsPong(p) => VMem(1, VStruct(p.Fields(), []))
    }

    ghost function Fields(): (vs: seq<Val>)
      reads this, if Sig.IsPing? then {Sig.ping} else {}, if Sig.IsPong? then {Sig.pong} else {}
      ensures |vs| == 2
    {
      [VNum(ID), SigVal()]
    }

    /** Decodes into the member the interface holds when the tag names its type, into a
        new one otherwise; an error leaves the interface as it was. */
    method Unmarshal(b: array<byte>, off: nat) returns (i: nat, e: Err)
      requires off <= b.Length
      modifies this, if Sig.IsPing? then {Sig.ping} else {}, if Sig.IsPong? then {Sig.pong} else {}
      ensures Out(Fields(), i, e) == Expected(FRAME, old(Fields()), b[off..])
      ensures e != NoErr ==> Sig == old(Sig)
      ensures Sig.IsPing? && old(Sig).IsPing? ==> Sig == old(Sig)
      ensures Sig.IsPong? && old(Sig).IsPong? ==> Sig == old(Sig)
      ensures Sig.IsPing? && !old(Sig).IsPing? ==> fresh(Sig.ping)
      ensures Sig.IsPong? && !old(Sig).IsPong? ==> fresh(Sig.pong)
    {
      hide DecFieldsInto, TaggedInto, SafeShapes, SigVal;
      var nn;
      i, nn, e := ReadTag(b, off);
      if e != NoErr { return i, e; }
      var nnn;
      nnn, e := SwitchSig(b, off + i, nn);
      i := i + nnn;
    }

    /** The ID and the tag: what is left is the switch at `b[off + i:]`. */
    method ReadTag(b: array<byte>, off: nat) returns (i: nat, nn: nat, e: Err)
      requires off <= b.Length
      modifies this`ID
      ensures off + i <= b.Length && e in {NoErr, ShortBuffer}
      ensures var q := if e != NoErr then Out(old(SigVal()), 0, e) else TaggedInto(SafeShapes(), MEMBERS, nn, old(SigVal()), b[off + i..]);
              Expected(FRAME, old(Fields()), b[off..]) == Out([VNum(ID), q.v], i + q.n, q.e)
    {
      hide FromLE, DecFieldsInto, Uvarint, TaggedInto, U16, U32, U64, Expected, SafeShapes, SigVal;
      i, nn := 0, 0;
      FrameExpected(VNum(ID), SigVal(), b[off..]);
      if b.Length - off - i < 2 { return i, nn, ShortBuffer; }
      ReadsLE(b[off + i..]);
      assert b[off + i..][..2] == b[off..][..2];
      ID := U16(b[off + i..]);
      i := i + 2;
      assert b[off..][2..] == b[off + 2..];
      var cc;
      nn, cc := ReadUvarint(b, off + i);
      if cc <= 0 { return i, nn, ShortBuffer; }
      i := i + cc;
      assert b[off + 2..][cc..] == b[off + i..];
      e := NoErr;
    }

    /** The switch on the tag in `nn`, at `b[at:]`. */
    method SwitchSig(b: array<byte>, at: nat, nn: nat) returns (n: nat, e: Err)
      requires at <= b.Length
      modifies this`Sig, if Sig.IsPing? then {Sig.ping} else {}, if Sig.IsPong? then {Sig.pong} else {}
      ensures Out(SigVal(), n, e) == TaggedInto(SafeShapes(), MEMBERS, nn, old(SigVal()), b[at..])
      ensures e != NoErr ==> Sig == old(Sig)
      ensures Sig.IsPing? && old(Sig).IsPing? ==> Sig == old(Sig)
      ensures Sig.IsPong? && old(Sig).IsPong? ==> Sig == old(Sig)
      ensures Sig.IsPing? && !old(Sig).IsPing? ==> fresh(Sig.ping)
      ensures Sig.IsPong? && !old(Sig).IsPong? ==> fresh(Sig.pong)
    {
      hide DecFieldsInto, DecStructInto, Expected, Zero, SafeShapes;
      if nn == 0 {
        Sig := Nil;
        return 0, NoErr;
      } else if nn == 1 {
        var j := if Sig.IsPing? then Sig.ping else null;
        if j == null { j := new Ping(); }
        MemberDecodes("Ping", VNum(j.Seq), b[at..]);
        n, e := j.Unmarshal(b, at);
        if e != NoErr { return 0, e; }
        Sig := IsPing(j);
      } else if nn == 2 {
        var j := if Sig.IsPong? then Sig.pong else null;
        if j == null { j := new Pong(); }
        MemberDecodes("Pong", VNum(j.Seq), b[at..]);
        n, e := j.Unmarshal(b, at);
        if e != NoErr { return 0, e; }
        Sig := IsPong(j);
      } else {
        return 0, UnknownUnionTag;
      }
    }
  }

  lemma FrameExpected(id: Val, d: Val, b: Bytes)
    ensures |b| < 2 ==> Expected(FRAME, [id, d], b) == Out([id, d], 0, ShortBuffer)
    ensures |b| >= 2 ==>
              var (nn, cc) := Uvarint(b[2..]);
              var q := if cc <= 0 then Out(d, 0, ShortBuffer) else TaggedInto(SafeShapes(), MEMBERS, nn, d, b[2..][cc..]);
              Expected(FRAME, [id, d], b) == Out([VNum(FromLE(b[..2])), q.v], 2 + (if cc <= 0 then 0 else cc) + q.n, q.e)
  {
    hide FromLE, DecFieldsInto, TaggedInto, Uvarint, SafeShapes;
    FrameDecodes(SafeShapes(), id, d, b);
  }

  /** A frame is an ID, a tag, and the member it names. */
  lemma FrameDecodes(g: Gen, id: Val, d: Val, b: Bytes)
    requires g.mode.Safe?
    ensures |b| < 2 ==> DecFieldsInto(g, FRAME, [id, d], b) == Out([id, d], 0, ShortBuffer)
    ensures |b| >= 2 ==>
              var (nn, cc) := Uvarint(b[2..]);
              DecFieldsInto(g, FRAME, [id, d], b) ==
                if cc <= 0 then Out([VNum(FromLE(b[..2])), d], 2, ShortBuffer)
                else
                  var q := TaggedInto(g, MEMBERS, nn, d, b[2..][cc..]);
                  Out([VNum(FromLE(b[..2])), q.v], 2 + cc + q.n, q.e)
  {
    hide FromLE, DecFieldsInto, DecStructInto, Uvarint;
    TwoFieldsInto(g, U16F, SIGNAL, id, d, b);
  }

  /** A member of one uint32, and the zero one. */
  lemma MemberDecodes(m: Name, x: Val, b: Bytes)
    requires m in MEMBERS
    ensures Zero(SafeShapes(), TStruct(m)) == VStruct([VNum(0)], [])
    ensures var q := Expected(PING, [x], b);
            DecStructInto(SafeShapes(), m, VStruct([x], []), b) ==
              if q.e == NoErr then Out(VStruct(q.v, []), q.n, NoErr) else Out(VStruct(q.v, []), 0, q.e)
  {
    hide DecFieldsInto;
    var g := SafeShapes();
    assert ZeroFields(g, PING) == [VNum(0)] + ZeroFields(g, PING[1..]);
    OneWord(g, x, b);
  }

  /** int32 elements as values. */
  function Vals(s: seq<int>): (vs: seq<Val>)
    ensures |vs| == |s|
  {
    seq(|s|, k requires 0 <= k < |s| => VNum(s[k]))
  }

  /** The Go conversion int32(u). */
  function Int32(u: nat): int { if u >= 0x8000_0000 then u - 0x1_0000_0000 else u }

  /** A struct whose one field is a []int32: a length and a backing array. */
  class Numbers {
    var nums: array?<int>
    var len: nat

    ghost predicate Valid()
      reads this
    {
      if nums == null then len == 0 else len <= nums.Length
    }

    ghost function NumsVal(): Val
      reads this, nums
      requires Valid()
    {
      if nums == null then NIL_SLICE else VSlice(false, Vals(nums[..len]), Vals(nums[len..]))
    }

    /** Refills the backing array in place when it is large enough, stale elements past
        the old length included, and makes a new one otherwise. */
    method Unmarshal(b: array<byte>, off: nat) returns (i: nat, e: Err)
      requires off <= b.Length && Valid()
      modifies this, nums
      ensures Valid()
      ensures Out([NumsVal()], i, e) == Expected(NUMS, [old(NumsVal())], b[off..])
      ensures nums == old(nums) || nums == null || fresh(nums)
      ensures old(nums) != null && nums != null && len <= old(nums.Length) ==> nums == old(nums)
    {
      hide DecFieldsInto, DecNInto, FromLE, Uvarint, Zero, SafeShapes;
      ghost var g, d := SafeShapes(), NumsVal();
      i := 0;
      NumbersDecode(g, d, b[off..]);
      var nn, cc := ReadUvarint(b, off + i);
      if cc <= 0 { return i, ShortBuffer; }
      i := i + cc;
      assert b[off..][cc..] == b[off + i..];
      if nn == 0 {
        nums, len := null, 0;
        return i, NoErr;
      }
      if b.Length - off - i < nn { return i, ShortBuffer; }
      Resize(nn);
      var n;
      n, e := Fill(b, off + i);
      i := i + n;
    }

    /** `if cap(nums) >= nn { nums = nums[:nn] } else { nums = make([]int32, nn) }` */
    method Resize(nn: nat)
      requires Valid() && nn > 0
      modifies this
      ensures Valid() && nums != null && len == nn
      ensures NumsVal() == Grow(old(NumsVal()), nn, VNum(0))
      ensures if old(nums) != null && nn <= old(nums.Length) then nums == old(nums) else fresh(nums)
    {
      ghost var d := NumsVal();
      if nums != null && nums.Length >= nn {
        assert Backing(d) == Vals(nums[..]);
        len := nn;
      } else {
        assert |Backing(d)| < nn;
        nums := new int[nn](_ => 0);
        len := nn;
      }
    }

    /** The element loop. */
    method Fill(b: array<byte>, at: nat) returns (n: nat, e: Err)
      requires at <= b.Length && Valid() && nums != null
      modifies nums
      ensures Out(Vals(nums[..len]), n, e) == DecNInto(SafeShapes(), I32F, old(Vals(nums[..len])), b[at..])
      ensures nums[len..] == old(nums[len..])
    {
      hide DecNInto, FromLE, Vals, Resumes, Int32, U32;
      ghost var want := DecNInto(SafeShapes(), I32F, Vals(nums[..len]), b[at..]);
      n := 0;
      var j := 0;
      Start(nums[..len], b[at..]);
      assert nums[..0] == [] && nums[0..len] == nums[..len];
      while j < len
        invariant 0 <= j <= len && at + n <= b.Length
        invariant nums[len..] == old(nums[len..])
        invariant Resumes(want, nums[..j], nums[j..len], n, b[at + n..])
      {
        ghost var before := nums[..];
        ElementRead(want, before, j, len, n, b[at + n..]);
        if b.Length - at - n < 4 {
          return n, ShortBuffer;
        }
        nums[j] := Int32(U32(b[at + n..]));
        assert nums[..] == before[j := nums[j]];
        assert b[at + n..][4..] == b[at + n + 4..];
        n := n + 4;
        j := j + 1;
      }
      AllDecoded(want, nums[..len], n, b[at + n..]);
      assert nums[j..len] == [] && nums[..j] == nums[..len];
      e := NoErr;
    }
  }

  /** One turn of the loop: too little input, or element `j` stored. */
  lemma ElementRead(want: Out<seq<Val>>, all: seq<int>, j: nat, len: nat, n: nat, b: Bytes)
    requires j < len <= |all| && Resumes(want, all[..j], all[j..len], n, b)
    ensures |b| < 4 ==> want == Out(Vals(all[..len]), n, ShortBuffer)
    ensures |b| >= 4 ==>
              var next := all[j := Int32(U32(b))];
              next[len..] == all[len..] && Resumes(want, next[..j + 1], next[j + 1..len], n + 4, b[4..])
  {
    hide Resumes, Vals, FromLE, Int32, U32;
    OneElement(want, all[..j], all[j..len], n, b);
    assert all[..j] + all[j..len] == all[..len];
    if |b| >= 4 {
      ReadsLE(b);
      var next := all[j := Int32(U32(b))];
      assert next[..j + 1] == all[..j] + [Int32(U32(b))] && next[j + 1..len] == all[j..len][1..];
    }
  }

  /** `want` is what comes of decoding `rest` from `b` once `done` took `n` bytes. */
  ghost predicate Resumes(want: Out<seq<Val>>, done: seq<int>, rest: seq<int>, n: nat, b: Bytes) {
    var t := DecNInto(SafeShapes(), I32F, Vals(rest), b);
    want == Out(Vals(done) + t.v, n + t.n, t.e)
  }

  lemma Start(s: seq<int>, b: Bytes)
    ensures Resumes(DecNInto(SafeShapes(), I32F, Vals(s), b), [], s, 0, b)
  {
    hide DecNInto;
    var t := DecNInto(SafeShapes(), I32F, Vals(s), b);
    assert Vals([]) + t.v == t.v;
  }

  lemma OneElement(want: Out<seq<Val>>, done: seq<int>, rest: seq<int>, n: nat, b: Bytes)
    requires Resumes(want, done, rest, n, b) && rest != []
    ensures |b| < 4 ==> want == Out(Vals(done + rest), n, ShortBuffer)
    ensures |b| >= 4 ==> Resumes(want, done + [Int32(FromLE(b[..4]))], rest[1..], n + 4, b[4..])
  {
    hide DecNInto, FromLE;
    NIntoStep(SafeShapes(), I32F, Vals(rest), b);
    assert Vals(rest)[1..] == Vals(rest[1..]);
    assert [Vals(rest)[0]] + Vals(rest)[1..] == Vals(rest);
    assert Vals(done) + Vals(rest) == Vals(done + rest);
    if |b| >= 4 {
      var x := Int32(FromLE(b[..4]));
      var t := DecNInto(SafeShapes(), I32F, Vals(rest[1..]), b[4..]);
      assert Vals(done + [x]) == Vals(done) + [VNum(x)];
      assert Vals(done) + ([VNum(x)] + t.v) == Vals(done + [x]) + t.v;
    }
  }

  lemma AllDecoded(want: Out<seq<Val>>, done: seq<int>, n: nat, b: Bytes)
    ensures Resumes(want, done, [], n, b) ==> want == Out(Vals(done), n, NoErr)
  {
    assert Vals([]) == [];
    NIntoNil(SafeShapes(), I32F, b);
    assert Vals(done) + [] == Vals(done);
  }

  lemma NumbersDecode(g: Gen, d: Val, b: Bytes)
    requires g.mode.Safe?
    ensures var (nn, cc) := Uvarint(b);
            DecFieldsInto(g, NUMS, [d], b) ==
              if cc <= 0 then Out([d], 0, ShortBuffer)
              else if nn == 0 then Out([NIL_SLICE], cc, NoErr)
              else if |b| - cc < nn then Out([d], cc, ShortBuffer)
              else
                var base := Grow(d, nn, VNum(0));
                var q := DecNInto(g, I32F, base.elems, b[cc..]);
                Out([VSlice(false, q.v, base.stale)], cc + q.n, q.e)
  {
    hide DecFieldsInto, DecNInto, Uvarint, Grow;
    OneFieldInto(g, TSlice(I32F), d, b);
    var (nn, cc) := Uvarint(b);
    if cc > 0 && 0 < nn <= |b| - cc {
      var es := Grow(d, nn, VNum(0)).elems;
      assert DecElemsInto(g, I32F, es, b[cc..]) == DecNInto(g, I32F, es, b[cc..]);
    }
  }
}
