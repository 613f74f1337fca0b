/** References as the generator writes them: text. */
module References {
  import opened Program

  function Digit(d: nat): (c: char)
    requires d < 10
    ensures '0' <= c <= '9'
  {
    '0' + d as char
  }

  /** `%d` */
  function Decimal(n: nat): (s: string)
    ensures s != [] && forall k :: 0 <= k < |s| ==> '0' <= s[k] <= '9'
  {
    if n < 10 then [Digit(n)] else Decimal(n / 10) + [Digit(n % 10)]
  }

  /** The text of a reference. `names` are the receiver's field names; the numbers in
      `ranged` went to range variables (`e1`, in Size, Marshal and Append), all others to
      `j1` and so on, from one counter. */
  function Text(names: seq<string>, ranged: set<nat>, r: Ref): (s: string)
    ensures s != []
  {
    match r
    case RField(k) => "r." + if k < |names| then names[k] else ""
    case RVar(x) => (if x in ranged then "e" else "j") + Decimal(x)
    case RIndex(r', x) => Text(names, ranged, r') + ("[j" + Decimal(x) + "]")
    case RDeref(r') => "(*" + Text(names, ranged, r') + ")"
  }

  predicate HasPrefix(s: string, p: string) { |p| <= |s| && s[..|p|] == p }

  predicate HasSuffix(s: string, p: string) { |p| <= |s| && s[|s| - |p|..] == p }

  /** The text of the address of a reference: a dereference loses its star, anything else
      gains an ampersand. */
  function AddrOf(ref: string): string {
    if HasPrefix(ref, "(*") && HasSuffix(ref[2..], ")") then ref[2..][..|ref| - 3]
    else "(&" + ref + ")"
  }

  /** The prefix and suffix test fires exactly when the outermost step is a dereference. */
  lemma AddrOfIsAddress(names: seq<string>, ranged: set<nat>, r: Ref)
    ensures AddrOf(Text(names, ranged, r)) == if r.RDeref? then Text(names, ranged, r.r) else "(&" + Text(names, ranged, r) + ")"
  {
    var s := Text(names, ranged, r);
    match r
    case RField(_) => assert s[0] == 'r';
    case RVar(x) => assert s[0] == if x in ranged then 'e' else 'j';
    case RIndex(r', x) =>
      assert s[|s| - 1] == ']';
      if HasPrefix(s, "(*") && |s| > 2 { assert s[2..][|s[2..]| - 1] == ']'; }
    case RDeref(r') =>
      assert s[..2] == "(*";
      assert s[2..] == Text(names, ranged, r') + ")";
  }

  // ---------------------------------------------------------------------
  // Distinct references have distinct texts
  // ---------------------------------------------------------------------

  /** Field names are distinct, and have no bracket in them. */
  ghost predicate Identifiers(names: seq<string>) {
    && (forall k :: 0 <= k < |names| ==> Plain(names[k]))
    && (forall j, k :: 0 <= j < k < |names| ==> names[j] != names[k])
  }

  predicate Plain(s: string) {
    s != [] && forall k :: 0 <= k < |s| ==> s[k] !in "[]()*."
  }

  /** Fields the receiver has. */
  predicate Declared(names: seq<string>, r: Ref) {
    match r
    case RField(k) => k < |names|
    case RVar(_) => true
    case RIndex(r', _) => Declared(names, r')
    case RDeref(r') => Declared(names, r')
  }

  lemma {:induction false} DecimalInjective(m: nat, n: nat)
    requires Decimal(m) == Decimal(n)
    ensures m == n
  {
    var s := Decimal(m);
    assert s[|s| - 1] == Digit(m % 10) && s[|s| - 1] == Digit(n % 10);
    if m >= 10 && n >= 10 {
      assert s[..|s| - 1] == Decimal(m / 10) == Decimal(n / 10);
      DecimalInjective(m / 10, n / 10);
    }
  }

  /** The last character tells the last step. */
  lemma LastStep(names: seq<string>, ranged: set<nat>, r: Ref)
    requires Identifiers(names) && Declared(names, r)
    ensures var c := Text(names, ranged, r)[|Text(names, ranged, r)| - 1];
            (c == ']' <==> r.RIndex?) && (c == ')' <==> r.RDeref?)
  {
    if r.RField? {
      assert Plain(names[r.k]);
      assert Text(names, ranged, r)[|Text(names, ranged, r)| - 1] == names[r.k][|names[r.k]| - 1];
    }
  }

  /** Where the last subscript starts. */
  lemma SplitSubscript(a: string, x: nat, b: string, y: nat)
    requires a + ("[j" + Decimal(x) + "]") == b + ("[j" + Decimal(y) + "]")
    ensures a == b && x == y
  {
    var u, w := "[j" + Decimal(x) + "]", "[j" + Decimal(y) + "]";
    var s := a + u;
    assert s[|a|] == '[' && s[|b|] == '[';
    assert a == s[..|a|] == b;
    assert u == s[|a|..] == w;
    assert Decimal(x) == u[2..|u| - 1] == Decimal(y);
    DecimalInjective(x, y);
  }

  /** Two references with the same text are the same reference, so temporaries drawn from
      the counter never collide with each other or with a field. */
  lemma {:induction false} TextIdentifies(names: seq<string>, ranged: set<nat>, r: Ref, q: Ref)
    requires Identifiers(names) && Declared(names, r) && Declared(names, q)
    requires Text(names, ranged, r) == Text(names, ranged, q)
    ensures r == q
    decreases r
  {
    LastStep(names, ranged, r);
    LastStep(names, ranged, q);
    var s := Text(names, ranged, r);
    match r
    case RIndex(r', x) =>
      SplitSubscript(Text(names, ranged, r'), x, Text(names, ranged, q.r), q.x);
      TextIdentifies(names, ranged, r', q.r);
    case RDeref(r') =>
      assert s[2..|s| - 1] == Text(names, ranged, r') == Text(names, ranged, q.r);
      TextIdentifies(names, ranged, r', q.r);
    case RField(k) =>
      assert s[0] == 'r' && s[2..] == names[k];
      assert q.RField?;
      assert s[2..] == names[q.k];
    case RVar(x) =>
      assert s[0] in {'e', 'j'} && s[1..] == Decimal(x);
      assert q.RVar?;
      assert s[1..] == Decimal(q.x);
      DecimalInjective(x, q.x);
  }
}
