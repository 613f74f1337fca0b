/** Reading and writing through references. */
module Places {
  import opened Schema
  import opened Program

  /** Every temporary the reference names was drawn before counter value `c`. */
  predicate Below(r: Ref, c: nat) {
    match r
    case RField(_) => true
    case RVar(x) => x < c
    case RIndex(r', x) => x < c && Below(r', c)
    case RDeref(r') => Below(r', c)
  }

  lemma {:induction false} BelowMore(r: Ref, c: nat, c': nat)
    requires Below(r, c) && c <= c'
    ensures Below(r, c')
  {
    match r
    case RIndex(r', _) => BelowMore(r', c, c');
    case RDeref(r') => BelowMore(r', c, c');
    case _ =>
  }

  /** Same receiver, and same temporaries below `c`; registers may differ. */
  ghost predicate Agree(c: nat, s: State, t: State) {
    && s.recv == t.recv
    && (forall x :: 0 <= x < c ==> (x in s.tmp <==> x in t.tmp) && (x in s.tmp ==> s.tmp[x] == t.tmp[x]))
    && (forall x :: 0 <= x < c ==> (x in s.idx <==> x in t.idx) && (x in s.idx ==> s.idx[x] == t.idx[x]))
  }

  lemma AgreeSame(c: nat, s: State)
    ensures Agree(c, s, s)
  {}

  /** What was put is what is got, and nothing but receiver and values moves. */
  lemma {:induction false} PutGet(st: State, r: Ref, v: Val)
    requires RefOk(st, r)
    ensures RefOk(Put(st, r, v), r) && Get(Put(st, r, v), r) == v
    ensures var t := Put(st, r, v); t.idx == st.idx && t.i == st.i && t.nn == st.nn && t.cc == st.cc
    decreases r
  {
    match r
    case RIndex(r', x) => PutGet(st, r', WithItems(Get(st, r'), Items(Get(st, r'))[st.idx[x] := v]));
    case RDeref(r') => PutGet(st, r', VRef(v));
    case _ =>
  }

  /** The last write wins. */
  lemma {:induction false} PutPut(st: State, r: Ref, v: Val, w: Val)
    requires RefOk(st, r)
    ensures RefOk(Put(st, r, v), r) && Put(Put(st, r, v), r, w) == Put(st, r, w)
    decreases r
  {
    PutGet(st, r, v);
    match r
    case RField(k) => assert st.recv.fields[k := v][k := w] == st.recv.fields[k := w];
    case RVar(x) => assert st.tmp[x := v][x := w] == st.tmp[x := w];
    case RIndex(r', x) =>
      var d, k := Get(st, r'), st.idx[x];
      PutGet(st, r', WithItems(d, Items(d)[k := v]));
      PutPut(st, r', WithItems(d, Items(d)[k := v]), WithItems(d, Items(d)[k := w]));
      assert Items(d)[k := v][k := w] == Items(d)[k := w];
    case RDeref(r') =>
      PutGet(st, r', VRef(v));
      PutPut(st, r', VRef(v), VRef(w));
  }

  /** Writing back what is there changes nothing. */
  lemma {:induction false} PutSame(st: State, r: Ref)
    requires RefOk(st, r)
    ensures Put(st, r, Get(st, r)) == st
    decreases r
  {
    match r
    case RField(k) => assert st.recv.fields[k := st.recv.fields[k]] == st.recv.fields;
    case RVar(x) => assert st.tmp[x := st.tmp[x]] == st.tmp;
    case RIndex(r', x) =>
      var d := Get(st, r');
      assert Items(d)[st.idx[x] := Items(d)[st.idx[x]]] == Items(d);
      PutSame(st, r');
    case RDeref(r') => PutSame(st, r');
  }

  /** A reference means the same in states that agree on what it names. */
  lemma {:induction false} AgreePut(c: nat, s: State, t: State, r: Ref, v: Val)
    requires Agree(c, s, t) && Below(r, c) && RefOk(t, r)
    ensures RefOk(s, r) && Get(s, r) == Get(t, r)
    ensures Agree(c, Put(s, r, v), Put(t, r, v))
    decreases r
  {
    match r
    case RIndex(r', x) =>
      AgreePut(c, s, t, r', v);
      AgreePut(c, s, t, r', WithItems(Get(t, r'), Items(Get(t, r'))[t.idx[x] := v]));
    case RDeref(r') =>
      AgreePut(c, s, t, r', VRef(v));
    case _ =>
  }

  /** `s` is `st` with `v` put at `r`, up to registers and later temporaries: the place
      still exists, holds `v`, and another write there replaces `v`. */
  lemma Settled(c: nat, s: State, st: State, r: Ref, v: Val, w: Val)
    requires RefOk(st, r) && Below(r, c) && Agree(c, s, Put(st, r, v))
    ensures RefOk(s, r) && Get(s, r) == v && Agree(c, Put(s, r, w), Put(st, r, w))
  {
    PutGet(st, r, v);
    AgreePut(c, s, Put(st, r, v), r, w);
    PutPut(st, r, v, w);
  }

  /** A temporary at or past `c` is invisible below `c`. */
  lemma FreshIndex(c: nat, st: State, x: nat, k: nat)
    requires x >= c
    ensures Agree(c, st.(idx := st.idx[x := k]), st)
  {}

  /** The pointee behind a non-nil pointer is a place of its own. */
  lemma Deref(st: State, r: Ref, c: nat, v: Val)
    requires RefOk(st, r) && Get(st, r).VRef? && Below(r, c)
    ensures RefOk(st, RDeref(r)) && Below(RDeref(r), c)
    ensures Get(st, RDeref(r)) == Get(st, r).v && Put(st, RDeref(r), v) == Put(st, r, VRef(v))
  {}

  /** So is the element a loop counter selects. */
  lemma Index(st: State, r: Ref, x: nat, v: Val)
    requires RefOk(st, r) && (Get(st, r).VSlice? || Get(st, r).VArr?) && Below(r, x)
    requires x in st.idx && st.idx[x] < |Items(Get(st, r))|
    ensures RefOk(st, RIndex(r, x)) && Below(RIndex(r, x), x + 1)
    ensures Get(st, RIndex(r, x)) == Items(Get(st, r))[st.idx[x]]
    ensures Put(st, RIndex(r, x), v) == Put(st, r, WithItems(Get(st, r), Items(Get(st, r))[st.idx[x] := v]))
  {
    BelowMore(r, x, x + 1);
  }
}
