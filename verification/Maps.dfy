/** Maps with repeated keys: the last pair on the wire wins. */
module Maps {
  import opened Bytes
  import opened Varint
  import opened Schema
  import opened Codec
  import opened Stability
  import opened Reuse
  import opened Program
  import opened EmitCorrect
  import opened Format

  // ---------------------------------------------------------------------
  // Assignment
  // ---------------------------------------------------------------------

  /** The map has `v` at key `k`. */
  ghost predicate Holds(es: seq<Entry>, k: Val, v: Val) {
    exists i :: 0 <= i < |es| && es[i] == Entry(k, v)
  }

  lemma ConsHolds(e: Entry, es: seq<Entry>, x: Val, w: Val)
    ensures Holds([e] + es, x, w) <==> e == Entry(x, w) || Holds(es, x, w)
  {
    var r := [e] + es;
    if e == Entry(x, w) { assert r[0] == e; }
    if Holds(es, x, w) {
      var i :| 0 <= i < |es| && es[i] == Entry(x, w);
      assert r[i + 1] == es[i];
    }
  }

  lemma HeadOnlyOnce(es: seq<Entry>, w: Val)
    requires es != [] && DistinctKeys(es)
    ensures !Holds(es[1..], es[0].k, w)
  {
    forall i | 0 <= i < |es[1..]| ensures es[1..][i].k != es[0].k { assert es[1..][i] == es[i + 1]; }
  }

  /** After `m[k] = v` key `k` has `v` and nothing else, and every other key has what it
      had. */
  lemma {:induction false} AssignedKey(es: seq<Entry>, k: Val, v: Val, x: Val, w: Val)
    requires DistinctKeys(es)
    ensures Holds(MapSet(es, k, v), x, w) <==> if x == k then w == v else Holds(es, x, w)
  {
    if es == [] {
      ConsHolds(Entry(k, v), [], x, w);
    } else {
      assert es == [es[0]] + es[1..];
      ConsHolds(es[0], es[1..], x, w);
      if es[0].k == k {
        ConsHolds(Entry(k, v), es[1..], x, w);
        HeadOnlyOnce(es, w);
      } else {
        ConsHolds(es[0], MapSet(es[1..], k, v), x, w);
        AssignedKey(es[1..], k, v, x, w);
      }
    }
  }

  // ---------------------------------------------------------------------
  // Decoding
  // ---------------------------------------------------------------------

  /** The last of the pairs whose key is `x` has value `w`. */
  ghost predicate LastPair(ps: seq<Entry>, x: Val, w: Val) {
    exists i :: 0 <= i < |ps| && ps[i] == Entry(x, w) && forall j :: i < j < |ps| ==> ps[j].k != x
  }

  lemma LastCons(p: Entry, ps: seq<Entry>, x: Val, w: Val)
    ensures LastPair([p] + ps, x, w) <==> LastPair(ps, x, w) || (p == Entry(x, w) && !HasKey(ps, x))
  {
    hide LastPair, HasKey;
    if LastPair(ps, x, w) { LastLater(p, ps, x, w); }
    if p == Entry(x, w) && !HasKey(ps, x) { LastFirst(p, ps, x, w); }
    if LastPair([p] + ps, x, w) { LastEither(p, ps, x, w); }
  }

  lemma LastLater(p: Entry, ps: seq<Entry>, x: Val, w: Val)
    requires LastPair(ps, x, w)
    ensures LastPair([p] + ps, x, w)
  {
    var r := [p] + ps;
    var i :| 0 <= i < |ps| && ps[i] == Entry(x, w) && forall j :: i < j < |ps| ==> ps[j].k != x;
    assert r[i + 1] == Entry(x, w);
    assert forall j :: i + 1 < j < |r| ==> r[j] == ps[j - 1];
  }

  lemma LastFirst(p: Entry, ps: seq<Entry>, x: Val, w: Val)
    requires p == Entry(x, w) && !HasKey(ps, x)
    ensures LastPair([p] + ps, x, w)
  {
    var r := [p] + ps;
    assert r[0] == Entry(x, w);
    assert forall j :: 0 < j < |r| ==> r[j] == ps[j - 1];
  }

  lemma LastEither(p: Entry, ps: seq<Entry>, x: Val, w: Val)
    requires LastPair([p] + ps, x, w)
    ensures LastPair(ps, x, w) || (p == Entry(x, w) && !HasKey(ps, x))
  {
    var r := [p] + ps;
    var i :| 0 <= i < |r| && r[i] == Entry(x, w) && forall j :: i < j < |r| ==> r[j].k != x;
    assert forall j :: 0 <= j < |ps| ==> ps[j] == r[j + 1];
    if i > 0 { assert ps[i - 1] == Entry(x, w); }
  }

  /** The pairs on the wire, up to the first that does not decode. */
  ghost function Pairs(g: Gen, kt: Ty, vt: Ty, m: nat, b: Bytes): seq<Entry> {
    if m == 0 then []
    else
      match DecPair(g, kt, vt, b)
      case Fail(_, _) => []
      case Ok(p, n) => [p] + Pairs(g, kt, vt, m - 1, b[n..])
  }

  /** The same, as a program of either mode reads them. */
  ghost function PairsInto(g: Gen, kt: Ty, vt: Ty, m: nat, b: Bytes): seq<Entry> {
    if m == 0 then []
    else
      var p := DecPairInto(g, kt, vt, b);
      if p.e != NoErr then [] else [p.v] + PairsInto(g, kt, vt, m - 1, b[p.n..])
  }

  /** What `acc` holds once the pairs are assigned to it. */
  ghost predicate Updated(acc: seq<Entry>, ps: seq<Entry>, x: Val, w: Val) {
    LastPair(ps, x, w) || (!HasKey(ps, x) && Holds(acc, x, w))
  }

  lemma UpdatedCons(acc: seq<Entry>, p: Entry, ps: seq<Entry>, x: Val, w: Val)
    requires DistinctKeys(acc)
    ensures Updated(acc, [p] + ps, x, w) <==> Updated(MapSet(acc, p.k, p.v), ps, x, w)
  {
    hide LastPair, Holds, HasKey, MapSet;
    LastCons(p, ps, x, w);
    ConsKey(p, ps, x);
    AssignedKey(acc, p.k, p.v, x, w);
    if HasKey(ps, x) { HasKeyLast(ps, x, w); }
  }

  lemma HasKeyLast(ps: seq<Entry>, x: Val, w: Val)
    ensures LastPair(ps, x, w) ==> HasKey(ps, x)
  {}

  lemma {:induction false} EntriesLast(g: Gen, kt: Ty, vt: Ty, m: nat, acc: seq<Entry>, b: Bytes, x: Val, w: Val)
    requires DistinctKeys(acc) && DecEntries(g, kt, vt, m, acc, b).Ok?
    ensures Holds(DecEntries(g, kt, vt, m, acc, b).v, x, w) <==> Updated(acc, Pairs(g, kt, vt, m, b), x, w)
    decreases m
  {
    hide DecEntries, DecPair, Holds, Updated, MapSet;
    DecEntriesNil(g, kt, vt, acc, b);
    if m == 0 {
      NoneUpdated(acc, x, w);
    } else {
      DecEntriesStep(g, kt, vt, m, acc, b);
      var r := DecPair(g, kt, vt, b);
      MapSetDistinct(acc, r.v.k, r.v.v);
      UpdatedCons(acc, r.v, Pairs(g, kt, vt, m - 1, b[r.n..]), x, w);
      EntriesLast(g, kt, vt, m - 1, MapSet(acc, r.v.k, r.v.v), b[r.n..], x, w);
    }
  }

  lemma NoneUpdated(acc: seq<Entry>, x: Val, w: Val)
    ensures Updated(acc, [], x, w) <==> Holds(acc, x, w)
  {}

  lemma {:induction false} EntriesIntoLast(g: Gen, kt: Ty, vt: Ty, m: nat, acc: seq<Entry>, b: Bytes, x: Val, w: Val)
    requires DistinctKeys(acc) && DecEntriesInto(g, kt, vt, m, acc, b).e == NoErr
    ensures Holds(DecEntriesInto(g, kt, vt, m, acc, b).v, x, w) <==> Updated(acc, PairsInto(g, kt, vt, m, b), x, w)
    decreases m
  {
    hide DecEntriesInto, DecPairInto, Holds, Updated, MapSet;
    EntriesIntoNil(g, kt, vt, acc, b);
    if m == 0 {
      NoneUpdated(acc, x, w);
    } else {
      EntriesIntoStep(g, kt, vt, m, acc, b);
      var p := DecPairInto(g, kt, vt, b);
      MapSetDistinct(acc, p.v.k, p.v.v);
      UpdatedCons(acc, p.v, PairsInto(g, kt, vt, m - 1, b[p.n..]), x, w);
      EntriesIntoLast(g, kt, vt, m - 1, MapSet(acc, p.v.k, p.v.v), b[p.n..], x, w);
    }
  }

  /** A decoded map has at every key the value of the last pair with that key, and no other
      key. */
  lemma LastWins(g: Gen, kt: Ty, vt: Ty, b: Bytes, x: Val, w: Val)
    requires Dec(g, TMap(kt, vt), b).Ok?
    ensures var v, (nn, cc) := Dec(g, TMap(kt, vt), b).v, Uvarint(b);
            v.VMap? && cc > 0 && (Holds(v.entries, x, w) <==> LastPair(Pairs(g, kt, vt, nn, b[cc..]), x, w))
  {
    hide DecEntries, Pairs, Holds, LastPair, Uvarint;
    var (nn, cc) := Uvarint(b);
    if nn == 0 {
      NoPairs(g, kt, vt, b[cc..], x, w);
    } else {
      EntriesLast(g, kt, vt, nn, [], b[cc..], x, w);
      OnlyPairs(Pairs(g, kt, vt, nn, b[cc..]), x, w);
    }
  }

  lemma NoPairs(g: Gen, kt: Ty, vt: Ty, b: Bytes, x: Val, w: Val)
    ensures !Holds([], x, w)
    ensures !LastPair(Pairs(g, kt, vt, 0, b), x, w) && !LastPair(PairsInto(g, kt, vt, 0, b), x, w)
  {}

  lemma OnlyPairs(ps: seq<Entry>, x: Val, w: Val)
    ensures Updated([], ps, x, w) <==> LastPair(ps, x, w)
  {}

  /** The same of decoding into any destination, in either mode. */
  lemma LastWinsInto(g: Gen, ty: Ty, d: Val, b: Bytes, x: Val, w: Val)
    requires ty.TMap? && DecInto(g, ty, d, b).e == NoErr
    ensures var v, (nn, cc) := DecInto(g, ty, d, b).v, Uvarint(b);
            v.VMap? && cc > 0 && (Holds(v.entries, x, w) <==> LastPair(PairsInto(g, ty.key, ty.val, nn, b[cc..]), x, w))
  {
    hide DecEntriesInto, PairsInto, Holds, LastPair, Uvarint;
    var (nn, cc) := Uvarint(b);
    if cc > 0 {
      if nn == 0 {
        NoPairs(g, ty.key, ty.val, b[cc..], x, w);
      } else if DecEntriesInto(g, ty.key, ty.val, nn, [], b[cc..]).e == NoErr {
        EntriesIntoLast(g, ty.key, ty.val, nn, [], b[cc..], x, w);
        OnlyPairs(PairsInto(g, ty.key, ty.val, nn, b[cc..]), x, w);
      }
    }
  }

  // ---------------------------------------------------------------------
  // The emitted method
  // ---------------------------------------------------------------------

  /** Where a method starts to read the `k`-th field. */
  ghost function FieldStart(g: Gen, tys: seq<Ty>, ds: seq<Val>, k: nat, b: Bytes): (n: nat)
    requires |tys| == |ds| && k <= |tys|
    ensures n <= |b|
    decreases k
  {
    if k == 0 then 0
    else
      var r := DecInto(g, tys[0], ds[0], b);
      r.n + FieldStart(g, tys[1..], ds[1..], k - 1, b[r.n..])
  }

  lemma {:induction false} FieldDecoded(g: Gen, tys: seq<Ty>, ds: seq<Val>, k: nat, b: Bytes)
    requires |tys| == |ds| && k < |tys| && DecFieldsInto(g, tys, ds, b).e == NoErr
    ensures var r := DecInto(g, tys[k], ds[k], b[FieldStart(g, tys, ds, k, b)..]);
            r.e == NoErr && DecFieldsInto(g, tys, ds, b).v[k] == r.v
    decreases k
  {
    hide DecInto, DecFieldsInto;
    FieldsIntoStep(g, tys, ds, b);
    var r := DecInto(g, tys[0], ds[0], b);
    if k == 0 {
      assert b[0..] == b;
    } else {
      FieldDecoded(g, tys[1..], ds[1..], k - 1, b[r.n..]);
      var m := FieldStart(g, tys[1..], ds[1..], k - 1, b[r.n..]);
      assert b[r.n..][m..] == b[r.n + m..];
    }
  }

  /** After a successful Unmarshal, in either mode and whatever the receiver held, a map
      field has at every key the value of the last pair read with that key, and no other
      key. */
  lemma MethodLastWins(g: Gen, starts: Starts, fuel: nat, n: Name, d: Val, b: Bytes, k: nat, x: Val, w: Val)
    requires HasTy(g, TStruct(n), d) && fuel >= Need(g, |b|, RankOf(g, n) + 1)
    requires k < |FieldsOf(g, n)| && FieldsOf(g, n)[k].TMap?
    requires Invoke(g, starts, fuel, n, d, b).Next?
    ensures d.VStruct? && |d.fields| == |FieldsOf(g, n)|
    ensures var at := b[FieldStart(g, FieldsOf(g, n), d.fields, k, b)..];
            var ty, (nn, cc), recv := FieldsOf(g, n)[k], Uvarint(at), Invoke(g, starts, fuel, n, d, b).st.recv;
            && recv.VStruct? && k < |recv.fields| && recv.fields[k].VMap? && cc > 0
            && (Holds(recv.fields[k].entries, x, w) <==> LastPair(PairsInto(g, ty.key, ty.val, nn, at[cc..]), x, w))
  {
    hide Invoke, DecInto, DecFieldsInto, FieldStart, PairsInto, HasTy, Holds, LastPair, Uvarint;
    var tys := FieldsOf(g, n);
    FieldsOfTyped(g, n, d);
    assert !Blittable(g, n) by { assert !IsFixedWidth(tys[k]); }
    MethodCode(g, starts, fuel, n, d, b);
    var q := DecFieldsInto(g, tys, d.fields, b);
    assert d.fields[..0] + q.v == q.v;
    FieldDecoded(g, tys, d.fields, k, b);
    LastWinsInto(g, tys[k], d.fields[k], b[FieldStart(g, tys, d.fields, k, b)..], x, w);
  }

  /** Two pairs with key 1: the second one stays. */
  lemma RepeatedKey(g: Gen)
    ensures Dec(g, TMap(U8, U8), [2, 1, 10, 1, 20]) == Ok(VMap(false, [Entry(VNum(1), VNum(20))]), 5)
  {
    hide DecEntries, Uvarint;
    var b: Bytes := [1, 10, 1, 20];
    UvarintInvertsLeb(2, b);
    TwoLeb();
    assert Leb(2) + b == [2, 1, 10, 1, 20];
    TwoPairs(g);
    assert [2, 1, 10, 1, 20][1..] == b;
  }

  lemma TwoPairs(g: Gen)
    ensures DecEntries(g, U8, U8, 2, [], [1, 10, 1, 20]) == Ok([Entry(VNum(1), VNum(20))], 4)
  {
    hide DecEntries, DecPair, MapSet;
    PairOfBytes(g, 1, 10, [1, 20]);
    PairOfBytes(g, 1, 20, []);
    assert [1, 10] + [1, 20] == [1, 10, 1, 20] && [1, 20] + [] == [1, 20];
    assert [1, 10, 1, 20][2..] == [1, 20] && [1, 20][2..] == [];
    Assignments();
    DecEntriesStep(g, U8, U8, 2, [], [1, 10, 1, 20]);
    DecEntriesStep(g, U8, U8, 1, [Entry(VNum(1), VNum(10))], [1, 20]);
    DecEntriesNil(g, U8, U8, [Entry(VNum(1), VNum(20))], []);
  }

  lemma Assignments()
    ensures MapSet([], VNum(1), VNum(10)) == [Entry(VNum(1), VNum(10))]
    ensures MapSet([Entry(VNum(1), VNum(10))], VNum(1), VNum(20)) == [Entry(VNum(1), VNum(20))]
  {
    assert [Entry(VNum(1), VNum(10))][1..] == [];
  }

  lemma PairOfBytes(g: Gen, k: byte, v: byte, s: Bytes)
    ensures DecPair(g, U8, U8, [k, v] + s) == Ok(Entry(VNum(k), VNum(v)), 2)
  {
    var b := [k, v] + s;
    assert b[..1] == [k] && b[1..] == [v] + s && b[1..][..1] == [v];
    ByteRead(k);
    ByteRead(v);
  }

  lemma ByteRead(c: byte)
    ensures ScalarOf(KUint8, [c]) == c
  {
    assert [c][1..] == [];
    assert FromLE([c]) == c + 256 * FromLE([]);
  }
}
