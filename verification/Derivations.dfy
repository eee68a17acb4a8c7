/** In how many ways a grammar derives a sequence of names: some rules count as one name each, white space and literals
    as none, and every other rule is looked through. */
module Derivations {
  import opened Gbnf

  ghost function SumTo(f: nat -> nat, n: nat): nat {
    if n == 0 then 0 else SumTo(f, n - 1) + f(n - 1)
  }

  type Ways = seq<string> -> nat

  /** The ways to derive a sequence in two parts. */
  ghost function Conv(f: Ways, g: Ways, sel: seq<string>): nat {
    SumTo((j: nat) => if j > |sel| then 0 else f(sel[..j]) * g(sel[j..]), |sel| + 1)
  }

  /** `kvs` are the rules that count; `depth` bounds how many references are looked through in one another. */
  ghost function ItemWays(t: Table, kvs: set<string>, it: Item, sel: seq<string>, depth: nat): nat
    decreases depth, it, 0
  {
    match it
    case Ref(n) =>
      if n in kvs then (if sel == [n] then 1 else 0)
      else if n == "space" then (if sel == [] then 1 else 0)
      else if n in t && depth > 0 then BodyWays(t, kvs, t[n], sel, depth - 1)
      else 0
    case Group(b) => BodyWays(t, kvs, b, sel, depth)
    case Rep(i, lo, hi) =>
      SumTo((k: nat) => if Allowed(k, lo, hi) then PowWays(t, kvs, i, k, sel, depth) else 0, lo + |sel| + 2)
    case Bar => 0
    case _ => if sel == [] then 1 else 0
  }

  ghost function PowWays(t: Table, kvs: set<string>, it: Item, k: nat, sel: seq<string>, depth: nat): nat
    decreases depth, it, k + 1
  {
    if k == 0 then (if sel == [] then 1 else 0)
    else Conv(s => ItemWays(t, kvs, it, s, depth), s => PowWays(t, kvs, it, k - 1, s, depth), sel)
  }

  /** Of the first alternative of a body. */
  ghost function SeqWays(t: Table, kvs: set<string>, b: Body, sel: seq<string>, depth: nat): nat
    decreases depth, b, 0
  {
    if b == [] || b[0].Bar? then (if sel == [] then 1 else 0)
    else Conv(s => ItemWays(t, kvs, b[0], s, depth), s => SeqWays(t, kvs, b[1..], s, depth), sel)
  }

  ghost function LaterWays(t: Table, kvs: set<string>, b: Body, sel: seq<string>, depth: nat): nat
    decreases depth, b, 0
  {
    if b == [] then 0
    else if b[0].Bar? then SeqWays(t, kvs, b[1..], sel, depth) + LaterWays(t, kvs, b[1..], sel, depth)
    else LaterWays(t, kvs, b[1..], sel, depth)
  }

  ghost function BodyWays(t: Table, kvs: set<string>, b: Body, sel: seq<string>, depth: nat): nat
    decreases depth, b, 1
  {
    SeqWays(t, kvs, b, sel, depth) + LaterWays(t, kvs, b, sel, depth)
  }

  // ---------------------------------------------------------------- sums

  lemma {:induction false} SumOfNone(f: nat -> nat, n: nat)
    requires forall i: nat :: i < n ==> f(i) == 0
    ensures SumTo(f, n) == 0
  {
    if n > 0 { SumOfNone(f, n - 1); }
  }

  lemma {:induction false} SumOfOne(f: nat -> nat, n: nat, k: nat)
    requires k < n && forall i: nat :: i < n && i != k ==> f(i) == 0
    ensures SumTo(f, n) == f(k)
  {
    if k == n - 1 { SumOfNone(f, n - 1); } else { SumOfOne(f, n - 1, k); }
  }

  lemma {:induction false} SumOfTwo(f: nat -> nat, n: nat)
    requires n >= 2 && forall i: nat :: 2 <= i < n ==> f(i) == 0
    ensures SumTo(f, n) == f(0) + f(1)
  {
    if n == 2 {
      assert SumTo(f, 1) == SumTo(f, 0) + f(0);
    } else {
      SumOfTwo(f, n - 1);
    }
  }

  lemma {:induction false} SumSame(f: nat -> nat, g: nat -> nat, n: nat)
    requires forall i: nat :: i < n ==> f(i) == g(i)
    ensures SumTo(f, n) == SumTo(g, n)
  {
    if n > 0 { SumSame(f, g, n - 1); }
  }

  lemma ConvSame(f: Ways, g: Ways, f': Ways, g': Ways, sel: seq<string>)
    requires forall s :: f(s) == f'(s) && g(s) == g'(s)
    ensures Conv(f, g, sel) == Conv(f', g', sel)
  {
    SumSame((j: nat) => if j > |sel| then 0 else f(sel[..j]) * g(sel[j..]),
            (j: nat) => if j > |sel| then 0 else f'(sel[..j]) * g'(sel[j..]), |sel| + 1);
  }

  /** A first part that can only be one sequence. */
  lemma ConvFixed(f: Ways, word: seq<string>, g: Ways, sel: seq<string>)
    requires forall s :: f(s) == if s == word then 1 else 0
    ensures Conv(f, g, sel) == if word <= sel then g(sel[|word|..]) else 0
  {
    var h: nat -> nat := (j: nat) => if j > |sel| then 0 else f(sel[..j]) * g(sel[j..]);
    forall j: nat | j <= |sel| && (j != |word| || !(word <= sel)) ensures h(j) == 0 {
      assert sel[..j] != word;
    }
    if word <= sel {
      SumOfOne(h, |sel| + 1, |word|);
    } else {
      SumOfNone(h, |sel| + 1);
    }
  }

  /** A first part of at most one name. */
  lemma ConvShort(f: Ways, g: Ways, sel: seq<string>)
    requires forall s :: |s| > 1 ==> f(s) == 0
    ensures Conv(f, g, sel) == f([]) * g(sel) + if sel == [] then 0 else f(sel[..1]) * g(sel[1..])
  {
    var h: nat -> nat := (j: nat) => if j > |sel| then 0 else f(sel[..j]) * g(sel[j..]);
    assert sel[..0] == [] && sel[0..] == sel;
    forall j: nat | 2 <= j <= |sel| ensures h(j) == 0 {
      assert |sel[..j]| > 1;
    }
    if sel == [] {
      SumOfOne(h, 1, 0);
    } else {
      SumOfTwo(h, |sel| + 1);
    }
  }

  /** A first part that can be nothing or one name. */
  lemma ConvOptional(f: Ways, n: string, g: Ways, sel: seq<string>)
    requires forall s :: f(s) == if s == [] || s == [n] then 1 else 0
    ensures Conv(f, g, sel) == g(sel) + if [n] <= sel then g(sel[1..]) else 0
  {
    hide Conv;
    ConvShort(f, g, sel);
    if sel != [] {
      assert [n] <= sel <==> sel[..1] == [n];
    }
  }

  /** A second part that can only be empty. */
  lemma ConvNothing(f: Ways, g: Ways, sel: seq<string>)
    requires forall s :: g(s) == if s == [] then 1 else 0
    ensures Conv(f, g, sel) == f(sel)
  {
    var h: nat -> nat := (j: nat) => if j > |sel| then 0 else f(sel[..j]) * g(sel[j..]);
    forall j: nat | j < |sel| ensures h(j) == 0 {
      assert sel[j..] != [];
    }
    assert sel[..|sel|] == sel;
    SumOfOne(h, |sel| + 1, |sel|);
  }

  // ---------------------------------------------------------------- bodies

  /** Alternatives add up. */
  lemma {:induction false} WaysAlt(t: Table, kvs: set<string>, a: Body, b: Body, sel: seq<string>, depth: nat)
    ensures BodyWays(t, kvs, a + [Bar] + b, sel, depth)
              == BodyWays(t, kvs, a, sel, depth) + BodyWays(t, kvs, b, sel, depth)
  {
    SeqBeforeBar(t, kvs, a, b, sel, depth);
    LaterBeforeBar(t, kvs, a, b, sel, depth);
  }

  lemma {:induction false} SeqBeforeBar(t: Table, kvs: set<string>, a: Body, b: Body, sel: seq<string>, depth: nat)
    ensures SeqWays(t, kvs, a + [Bar] + b, sel, depth) == SeqWays(t, kvs, a, sel, depth)
    decreases |a|
  {
    var w := a + [Bar] + b;
    if a != [] && !a[0].Bar? {
      assert w[1..] == a[1..] + [Bar] + b;
      forall s ensures SeqWays(t, kvs, w[1..], s, depth) == SeqWays(t, kvs, a[1..], s, depth) {
        SeqBeforeBar(t, kvs, a[1..], b, s, depth);
      }
      ConvSame(s => ItemWays(t, kvs, w[0], s, depth), s => SeqWays(t, kvs, w[1..], s, depth),
               s => ItemWays(t, kvs, a[0], s, depth), s => SeqWays(t, kvs, a[1..], s, depth), sel);
    }
  }

  lemma {:induction false} LaterBeforeBar(t: Table, kvs: set<string>, a: Body, b: Body, sel: seq<string>, depth: nat)
    ensures LaterWays(t, kvs, a + [Bar] + b, sel, depth)
              == LaterWays(t, kvs, a, sel, depth) + BodyWays(t, kvs, b, sel, depth)
    decreases |a|
  {
    var w := a + [Bar] + b;
    if a == [] {
      assert w[1..] == b;
    } else {
      assert w[1..] == a[1..] + [Bar] + b;
      LaterBeforeBar(t, kvs, a[1..], b, sel, depth);
      SeqBeforeBar(t, kvs, a[1..], b, sel, depth);
    }
  }

  lemma {:induction false} NoLaterWays(t: Table, kvs: set<string>, b: Body, sel: seq<string>, depth: nat)
    requires NoBar(b)
    ensures LaterWays(t, kvs, b, sel, depth) == 0 && BodyWays(t, kvs, b, sel, depth) == SeqWays(t, kvs, b, sel, depth)
  {
    if b != [] { NoLaterWays(t, kvs, b[1..], sel, depth); }
  }

  /** An item that derives a single sequence, in one way. */
  ghost predicate Fixed(t: Table, kvs: set<string>, it: Item, word: seq<string>, depth: nat) {
    forall s :: ItemWays(t, kvs, it, s, depth) == if s == word then 1 else 0
  }

  lemma FixedFirst(t: Table, kvs: set<string>, it: Item, word: seq<string>, b: Body, sel: seq<string>, depth: nat)
    requires Fixed(t, kvs, it, word, depth) && !it.Bar?
    ensures SeqWays(t, kvs, [it] + b, sel, depth)
            == if word <= sel then SeqWays(t, kvs, b, sel[|word|..], depth) else 0
  {
    var w := [it] + b;
    assert w[1..] == b;
    ConvFixed(s => ItemWays(t, kvs, w[0], s, depth), word, s => SeqWays(t, kvs, w[1..], s, depth), sel);
  }

  /** An item that derives nothing or one name. */
  lemma OptionalNameFirst(t: Table, kvs: set<string>, it: Item, n: string, b: Body, sel: seq<string>, depth: nat)
    requires !it.Bar? && forall s :: ItemWays(t, kvs, it, s, depth) == if s == [] || s == [n] then 1 else 0
    ensures SeqWays(t, kvs, [it] + b, sel, depth)
            == SeqWays(t, kvs, b, sel, depth) + if [n] <= sel then SeqWays(t, kvs, b, sel[1..], depth) else 0
  {
    var w := [it] + b;
    assert w[1..] == b;
    ConvOptional(s => ItemWays(t, kvs, w[0], s, depth), n, s => SeqWays(t, kvs, w[1..], s, depth), sel);
  }

  lemma OneItem(t: Table, kvs: set<string>, it: Item, sel: seq<string>, depth: nat)
    requires !it.Bar?
    ensures SeqWays(t, kvs, [it], sel, depth) == ItemWays(t, kvs, it, sel, depth)
    ensures BodyWays(t, kvs, [it], sel, depth) == ItemWays(t, kvs, it, sel, depth)
  {
    var w, none: Body := [it], [];
    assert w[1..] == none;
    ConvNothing(s => ItemWays(t, kvs, w[0], s, depth), s => SeqWays(t, kvs, w[1..], s, depth), sel);
    NoLaterWays(t, kvs, w, sel, depth);
  }

  // ---------------------------------------------------------------- plain text: literals, white space, counted rules

  predicate PlainItem(kvs: set<string>, it: Item) {
    it.Lit? || (it.Ref? && (it.name in kvs || it.name == "space"))
  }

  predicate PlainBody(kvs: set<string>, b: Body) {
    forall i :: 0 <= i < |b| ==> PlainItem(kvs, b[i])
  }

  /** The names it counts. */
  function WordOf(kvs: set<string>, b: Body): seq<string> {
    if b == [] then [] else (if b[0].Ref? && b[0].name in kvs then [b[0].name] else []) + WordOf(kvs, b[1..])
  }

  lemma {:induction false} WordAppend(kvs: set<string>, a: Body, b: Body)
    ensures WordOf(kvs, a + b) == WordOf(kvs, a) + WordOf(kvs, b)
  {
    if a == [] {
      assert a + b == b;
    } else {
      assert (a + b)[1..] == a[1..] + b;
      WordAppend(kvs, a[1..], b);
    }
  }

  lemma {:induction false} PlainFirst(t: Table, kvs: set<string>, a: Body, b: Body, sel: seq<string>, depth: nat)
    requires PlainBody(kvs, a)
    ensures var w := WordOf(kvs, a);
            SeqWays(t, kvs, a + b, sel, depth) == if w <= sel then SeqWays(t, kvs, b, sel[|w|..], depth) else 0
    decreases |a|
  {
    if a == [] {
      assert a + b == b && sel[0..] == sel;
    } else {
      var u: seq<string> := if a[0].Ref? && a[0].name in kvs then [a[0].name] else [];
      var rest := WordOf(kvs, a[1..]);
      assert a + b == [a[0]] + (a[1..] + b);
      FixedFirst(t, kvs, a[0], u, a[1..] + b, sel, depth);
      if u <= sel {
        PlainFirst(t, kvs, a[1..], b, sel[|u|..], depth);
        assert u + rest <= sel <==> rest <= sel[|u|..] by { PrefixParts(u, rest, sel); }
        if u + rest <= sel { assert sel[|u|..][|rest|..] == sel[|u + rest|..]; }
      }
    }
  }

  lemma PrefixParts(u: seq<string>, v: seq<string>, sel: seq<string>)
    requires u <= sel
    ensures u + v <= sel <==> v <= sel[|u|..]
  {
    if v <= sel[|u|..] {
      assert sel == u + sel[|u|..];
    }
    if u + v <= sel { assert sel[|u|..][..|v|] == sel[|u|..|u| + |v|] == v; }
  }

  lemma {:induction false} PlainGroup(t: Table, kvs: set<string>, b: Body, depth: nat)
    requires PlainBody(kvs, b)
    ensures Fixed(t, kvs, Group(b), WordOf(kvs, b), depth)
  {
    forall s ensures ItemWays(t, kvs, Group(b), s, depth) == if s == WordOf(kvs, b) then 1 else 0 {
      NoLaterWays(t, kvs, b, s, depth);
      PlainFirst(t, kvs, b, [], s, depth);
      assert b + [] == b;
      if WordOf(kvs, b) <= s && s[|WordOf(kvs, b)|..] == [] { assert s == WordOf(kvs, b); }
    }
  }

  // ---------------------------------------------------------------- repetitions

  /** `x?` */
  lemma OptWays(t: Table, kvs: set<string>, it: Item, sel: seq<string>, depth: nat)
    ensures ItemWays(t, kvs, Rep(it, 0, Upto(1)), sel, depth)
            == (if sel == [] then 1 else 0) + ItemWays(t, kvs, it, sel, depth)
  {
    var f: nat -> nat := (k: nat) => if Allowed(k, 0, Upto(1)) then PowWays(t, kvs, it, k, sel, depth) else 0;
    SumOfTwo(f, 0 + |sel| + 2);
    PowOnce(t, kvs, it, sel, depth);
  }

  lemma PowOnce(t: Table, kvs: set<string>, it: Item, sel: seq<string>, depth: nat)
    ensures PowWays(t, kvs, it, 1, sel, depth) == ItemWays(t, kvs, it, sel, depth)
  {
    ConvNothing(s => ItemWays(t, kvs, it, s, depth), s => PowWays(t, kvs, it, 0, s, depth), sel);
  }

  lemma {:induction false} PowOfName(t: Table, kvs: set<string>, it: Item, n: string, k: nat, sel: seq<string>,
      depth: nat)
    requires Fixed(t, kvs, it, [n], depth)
    ensures PowWays(t, kvs, it, k, sel, depth) == if sel == Copies(n, k) then 1 else 0
    decreases k
  {
    if k > 0 {
      ConvFixed(s => ItemWays(t, kvs, it, s, depth), [n], s => PowWays(t, kvs, it, k - 1, s, depth), sel);
      if [n] <= sel {
        PowOfName(t, kvs, it, n, k - 1, sel[1..], depth);
        assert sel == [n] + sel[1..];
      }
      assert Copies(n, k) == [n] + Copies(n, k - 1);
    }
  }

  function Copies(n: string, k: nat): (r: seq<string>)
    ensures |r| == k
  {
    seq(k, _ => n)
  }

  lemma PowOfOther(t: Table, kvs: set<string>, it: Item, n: string, k: nat, sel: seq<string>, depth: nat)
    requires Fixed(t, kvs, it, [n], depth) && k != |sel|
    ensures PowWays(t, kvs, it, k, sel, depth) == 0
  {
    PowOfName(t, kvs, it, n, k, sel, depth);
  }

  /** `x*` */
  lemma StarWays(t: Table, kvs: set<string>, it: Item, n: string, sel: seq<string>, depth: nat)
    requires Fixed(t, kvs, it, [n], depth)
    ensures ItemWays(t, kvs, Rep(it, 0, Unbounded), sel, depth) == if sel == Copies(n, |sel|) then 1 else 0
  {
    var f: nat -> nat := (k: nat) => if Allowed(k, 0, Unbounded) then PowWays(t, kvs, it, k, sel, depth) else 0;
    var m := |sel|;
    forall k: nat | k < m + 2 && k != m ensures f(k) == 0 {
      PowOfOther(t, kvs, it, n, k, sel, depth);
    }
    SumOfOne(f, m + 2, m);
    PowOfName(t, kvs, it, n, m, sel, depth);
    assert 0 + |sel| + 2 == m + 2;
  }
}
