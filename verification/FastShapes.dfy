/** Fast-mode methods on raw memory: a struct copied whole, and a slice of such structs
    whose backing array is refilled by one copy. */
module FastShapes {
  import opened Bytes
  import opened Varint
  import opened Schema
  import opened Memory
  import opened Codec
  import opened Reuse
  import opened Program
  import opened EmitCorrect
  import Marshal

  /** `m` structs in memory. */
  ghost predicate Holds(g: Gen, n: Name, m: nat, w: Bytes) {
    Blittable(g, n) && |w| == m * Sizeof(g, n)
  }

  lemma Stride(m: nat, k: nat, z: nat)
    requires k <= m
    ensures m * z == k * z + (m - k) * z && k * z >= 0 && (m - k) * z >= 0
  {}

  /** The first `k` of them take `x` bytes, the others `y`. */
  lemma {:induction false} SplitStructs(g: Gen, n: Name, k: nat, m: nat, w: Bytes, x: nat, y: nat)
    requires Holds(g, n, m, w) && k <= m && x == k * Sizeof(g, n) && y == (m - k) * Sizeof(g, n)
    ensures |w| == x + y
    ensures StructsAt(g, n, m, w) == StructsAt(g, n, k, w[..x]) + StructsAt(g, n, m - k, w[x..])
  {
    hide LoadFields, Sizeof, StructsAt;
    var z := Sizeof(g, n);
    Stride(m, k, z);
    assert w[..|w|] == w;
    if k == 0 {
      assert x == 0 && w[0..] == w && w[..0] == [];
      StructsAtNil(g, n);
    } else {
      MulStep(m, z);
      MulStep(k, z);
      StructsAtStep(g, n, m, w, |w|);
      StructsAtStep(g, n, k, w, x);
      assert (m - 1) - (k - 1) == m - k;
      SplitStructs(g, n, k - 1, m - 1, w[z..], x - z, y);
      assert w[z..][..|w| - z] == w[z..] && w[x..] == w[z..][x - z..];
    }
  }

  /** The pointee of a raw-copied struct type. */
  class Inner {
    const g: Gen
    const n: Name
    const mem: array<byte>

    ghost predicate Valid() { Blittable(g, n) && mem.Length == Sizeof(g, n) }

    ghost function Value(): Val
      reads mem
      requires Valid()
    {
      VStruct(LoadFields(g, n, mem[..]), mem[..])
    }

    method Unmarshal(b: array<byte>, off: nat) returns (m: nat)
      requires Valid() && b != mem && off <= b.Length
      requires DecStructInto(g, n, Value(), b[off..]).e == NoErr
      modifies mem
      ensures DecStructInto(g, n, old(Value()), b[off..]) == Out(Value(), m, NoErr)
    {
      hide LoadFields;
      m := mem.Length;
      var w := b[off..off + m];
      assert w == b[off..][..m];
      var k := Marshal.Copy(mem, 0, w);
      assert mem[..] == w;
    }
  }

  /** A []Inner field: its backing array as memory, and its length and capacity. */
  class Path {
    const g: Gen
    const n: Name
    var mem: array?<byte>
    var len: nat
    var cap: nat

    ghost predicate Valid()
      reads this
    {
      && Blittable(g, n)
      && if mem == null then len == 0 && cap == 0 else len <= cap && mem.Length == cap * Sizeof(g, n)
    }

    ghost function Value(): Val
      reads this, mem
      requires Valid()
    {
      if mem == null then NIL_SLICE
      else
        var all := StructsAt(g, n, cap, mem[..]);
        VSlice(false, all[..len], all[len..])
    }

    /** Refills the backing array in place when its capacity allows. */
    method Unmarshal(b: array<byte>, off: nat) returns (i: nat)
      requires Valid() && b != mem && off <= b.Length
      requires DecSliceInto(g, TStruct(n), Value(), b[off..]).e == NoErr
      modifies this`mem, this`len, this`cap, mem
      ensures Valid()
      ensures DecSliceInto(g, TStruct(n), old(Value()), b[off..]) == Out(Value(), i, NoErr)
      ensures mem == old(mem) || mem == null || fresh(mem)
      ensures old(cap) >= len > 0 ==> mem == old(mem)
    {
      hide DecSliceInto, Uvarint, StructsAt, Sizeof, Grow;
      ghost var d := Value();
      var nn, cc := ReadUvarint(b, off);
      PathDecodes(g, n, d, b[off..], nn * Sizeof(g, n));
      i := cc;
      if nn == 0 {
        mem, len, cap := null, 0, 0;
      } else {
        var tv := nn * Sizeof(g, n);
        assert b[off..][cc..][..tv] == b[off + cc..off + cc + tv];
        Refill(nn, b[off + cc..off + cc + tv]);
        i := i + tv;
      }
    }

    /** Reslice or make, then one copy over the elements. */
    method Refill(nn: nat, w: Bytes)
      requires Valid() && nn > 0 && |w| == nn * Sizeof(g, n)
      modifies this`mem, this`len, this`cap, mem
      ensures Valid() && len == nn
      ensures Value() == VSlice(false, StructsAt(g, n, nn, w), if |Backing(old(Value()))| >= nn then Backing(old(Value()))[nn..] else [])
      ensures if old(cap) >= nn then mem == old(mem) else mem != null && fresh(mem)
    {
      hide StructsAt, Sizeof;
      ghost var d := Value();
      assert mem != null ==> Backing(d) == StructsAt(g, n, cap, mem[..]);
      if mem != null && cap >= nn {
        len := nn;
      } else {
        mem := new byte[nn * Sizeof(g, n)](_ => 0);
        len, cap := nn, nn;
      }
      ghost var before := mem[..];
      Stride(cap, nn, Sizeof(g, n));
      SplitStructs(g, n, nn, cap, before, |w|, |before| - |w|);
      var k := Marshal.Copy(mem, 0, w);
      assert mem[..][..|w|] == w && mem[..][|w|..] == before[|w|..];
      SplitStructs(g, n, nn, cap, mem[..], |w|, |before| - |w|);
    }
  }

  /** What fast mode does with a slice of raw-copied structs. */
  lemma PathDecodes(g: Gen, n: Name, d: Val, b: Bytes, w: nat)
    requires Blittable(g, n) && DecSliceInto(g, TStruct(n), d, b).e == NoErr && w == Uvarint(b).0 * Sizeof(g, n)
    ensures var (nn, cc) := Uvarint(b);
            cc > 0 && cc + w <= |b| &&
            DecSliceInto(g, TStruct(n), d, b) ==
              if nn == 0 then Out(NIL_SLICE, cc, NoErr)
              else
                Out(VSlice(false, StructsAt(g, n, nn, b[cc..][..w]), if |Backing(d)| >= nn then Backing(d)[nn..] else []), cc + w, NoErr)
  {
    hide Uvarint, DecNInto, StructsAt, Sizeof;
    var (nn, cc) := Uvarint(b);
    if cc > 0 && nn > 0 {
      var es := Grow(d, nn, Zero(g, TStruct(n))).elems;
      BlitLoop(g, n, es, b[cc..], w);
      assert DecElemsInto(g, TStruct(n), es, b[cc..]) == DecNInto(g, TStruct(n), es, b[cc..]);
    }
  }
}
