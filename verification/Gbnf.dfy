/** GBNF grammars: the text a rule is made of, read as a tree, and the language it denotes.

    A rule body is a flat sequence of items in the order they are written. `Bar` is the `|` sign: it binds
    weaker than juxtaposition, and parentheses are explicit (`Group`), exactly as in the grammar text. */
module Gbnf {
  type Lang = iset<string>

  /** What each rule name denotes. */
  type Env = map<string, Lang>

  datatype Bound = Upto(n: int) | Unbounded

  datatype Item =
    | Lit(text: string)                        // "text", escapes decoded
    | Class(text: string)                      // [text], escapes decoded
    | Ref(name: string)
    | Group(body: seq<Item>)                   // ( body )
    | Rep(item: Item, lo: nat, hi: Bound)      // item{lo,hi}, also written * + ?
    | Bar                                      // |

  type Body = seq<Item>

  /** The rules by name. */
  type Table = map<string, Body>

  // ---------------------------------------------------------------- languages

  ghost function Eps(): Lang {
    iset{""}
  }

  ghost function Cat(a: Lang, b: Lang): Lang {
    iset w | InCat(a, b, w)
  }

  ghost predicate InCat(a: Lang, b: Lang, w: string) {
    exists k :: SplitAt(a, b, w, k)
  }

  ghost predicate SplitAt(a: Lang, b: Lang, w: string, k: int) {
    0 <= k <= |w| && w[..k] in a && w[k..] in b
  }

  ghost function Pow(a: Lang, n: nat): Lang {
    if n == 0 then Eps() else Cat(a, Pow(a, n - 1))
  }

  /** `n` is a repeat count the reader of `{lo,hi}` allows; an upper bound below `lo` still repeats `lo` times. */
  predicate Allowed(n: nat, lo: nat, hi: Bound) {
    lo <= n && match hi { case Unbounded => true case Upto(m) => 0 <= m && (n <= m || n == lo) }
  }

  ghost function RepLang(a: Lang, lo: nat, hi: Bound): Lang {
    iset n: nat, w | Allowed(n, lo, hi) && w in Pow(a, n) :: w
  }

  lemma CatIntro(a: Lang, b: Lang, u: string, v: string)
    requires u in a && v in b
    ensures u + v in Cat(a, b)
  {
    assert (u + v)[..|u|] == u && (u + v)[|u|..] == v;
    assert SplitAt(a, b, u + v, |u|);
  }

  // ---------------------------------------------------------------- character classes

  /** One character per position, or `a-b` for a range, read from left to right. */
  predicate InRanges(t: string, c: char) {
    if t == "" then false
    else if |t| >= 3 && t[1] == '-' then t[0] <= c <= t[2] || InRanges(t[3..], c)
    else c == t[0] || InRanges(t[1..], c)
  }

  predicate ClassHas(t: string, c: char) {
    if t != "" && t[0] == '^' then !InRanges(t[1..], c) else InRanges(t, c)
  }

  /** The reader turns a class without members into nothing at all, which matches the empty string. */
  ghost function ClassLang(t: string): Lang {
    if t == "" || t == "^" then Eps() else iset c: char | ClassHas(t, c) :: [c]
  }

  // ---------------------------------------------------------------- bodies

  ghost function ItemLang(env: Env, it: Item): Lang
    decreases it, 0
  {
    match it
    case Lit(t) => iset{t}
    case Class(t) => ClassLang(t)
    case Ref(n) => if n in env then env[n] else iset{}
    case Group(b) => BodyLang(env, b)
    case Rep(i, lo, hi) => RepLang(ItemLang(env, i), lo, hi)
    case Bar => iset{}
  }

  /** The first alternative of a body. */
  ghost function SeqLang(env: Env, b: Body): Lang
    decreases b, 0
  {
    if b == [] || b[0].Bar? then Eps() else Cat(ItemLang(env, b[0]), SeqLang(env, b[1..]))
  }

  /** The alternatives after the first. */
  ghost function LaterLang(env: Env, b: Body): Lang
    decreases b, 0
  {
    if b == [] then iset{}
    else if b[0].Bar? then SeqLang(env, b[1..]) + LaterLang(env, b[1..])
    else LaterLang(env, b[1..])
  }

  ghost function BodyLang(env: Env, b: Body): Lang
    decreases b, 1
  {
    SeqLang(env, b) + LaterLang(env, b)
  }

  predicate NoBar(b: Body) {
    forall i :: 0 <= i < |b| ==> !b[i].Bar?
  }

  /** `env` satisfies every equation of the grammar. A language-level claim about a table is a claim about
      all its solutions, the least one included. */
  ghost predicate Solves(env: Env, t: Table) {
    forall n :: n in t ==> n in env && env[n] == BodyLang(env, t[n])
  }

  ghost predicate Extends(t: Table, t': Table) {
    forall n :: n in t ==> n in t' && t'[n] == t[n]
  }

  lemma SolvesMono(env: Env, t: Table, t': Table)
    requires Extends(t, t') && Solves(env, t')
    ensures Solves(env, t)
  {
    forall n | n in t ensures n in env && env[n] == BodyLang(env, t[n]) {
      assert n in t';
    }
  }

  // ---------------------------------------------------------------- algebra

  lemma InCatEps(a: Lang, w: string)
    ensures InCat(a, Eps(), w) <==> w in a
    ensures InCat(Eps(), a, w) <==> w in a
  {
    if w in a {
      assert w[..|w|] == w && w[|w|..] == "" && w[..0] == "" && w[0..] == w;
      assert SplitAt(a, Eps(), w, |w|);
      assert SplitAt(Eps(), a, w, 0);
    }
    if InCat(a, Eps(), w) {
      var k :| SplitAt(a, Eps(), w, k);
      assert k == |w| && w[..k] == w;
    }
    if InCat(Eps(), a, w) {
      var k :| SplitAt(Eps(), a, w, k);
      assert k == 0 && w[k..] == w;
    }
  }

  lemma CatEps(a: Lang)
    ensures Cat(a, Eps()) == a
    ensures Cat(Eps(), a) == a
  {
    forall w ensures InCat(a, Eps(), w) <==> w in a {
      InCatEps(a, w);
    }
    forall w ensures InCat(Eps(), a, w) <==> w in a {
      InCatEps(a, w);
    }
  }

  lemma CatAssoc(a: Lang, b: Lang, c: Lang)
    ensures Cat(Cat(a, b), c) == Cat(a, Cat(b, c))
  {
    forall w | w in Cat(Cat(a, b), c) ensures w in Cat(a, Cat(b, c)) {
      var k :| SplitAt(Cat(a, b), c, w, k);
      var j :| SplitAt(a, b, w[..k], j);
      assert w[..k][..j] == w[..j] && w[j..][..k - j] == w[..k][j..] && w[j..][k - j..] == w[k..];
      assert SplitAt(b, c, w[j..], k - j);
      assert SplitAt(a, Cat(b, c), w, j);
    }
    forall w | w in Cat(a, Cat(b, c)) ensures w in Cat(Cat(a, b), c) {
      var j :| SplitAt(a, Cat(b, c), w, j);
      var i :| SplitAt(b, c, w[j..], i);
      var k := j + i;
      assert w[..k][..j] == w[..j] && w[j..][..i] == w[..k][j..] && w[j..][i..] == w[k..];
      assert SplitAt(a, b, w[..k], j);
      assert SplitAt(Cat(a, b), c, w, k);
    }
  }

  lemma InLitCat(t: string, l: Lang, w: string)
    ensures w in Cat(iset{t}, l) <==> t <= w && w[|t|..] in l
  {
    if t <= w && w[|t|..] in l {
      assert w[..|t|] == t;
      assert SplitAt(iset{t}, l, w, |t|);
    }
    if InCat(iset{t}, l, w) {
      var k :| SplitAt(iset{t}, l, w, k);
      assert w[..k] == t && k == |t|;
    }
  }

  lemma InCharCat(t: string, l: Lang, w: string)
    requires t != "" && t != "^"
    ensures w in Cat(ClassLang(t), l) <==> w != "" && ClassHas(t, w[0]) && w[1..] in l
  {
    if w != "" && ClassHas(t, w[0]) && w[1..] in l {
      assert w[..1] == [w[0]];
      assert SplitAt(ClassLang(t), l, w, 1);
    }
    if InCat(ClassLang(t), l, w) {
      var k :| SplitAt(ClassLang(t), l, w, k);
      assert |w[..k]| == 1 && w[0] == w[..k][0];
    }
  }

  lemma {:induction false} NoHyphenRanges(t: string, c: char)
    requires '-' !in t
    ensures InRanges(t, c) <==> c in t
  {
    if t != "" { NoHyphenRanges(t[1..], c); }
  }

  lemma UnionAssoc(a: Lang, b: Lang, c: Lang)
    ensures (a + b) + c == a + (b + c) && iset{} + a == a
  {
  }

  lemma CatUnion(a: Lang, b: Lang, c: Lang)
    ensures Cat(a, b + c) == Cat(a, b) + Cat(a, c)
    ensures Cat(a + b, c) == Cat(a, c) + Cat(b, c)
  {
    forall w, k | SplitAt(a, b, w, k) ensures SplitAt(a, b + c, w, k) {}
    forall w, k | SplitAt(a, c, w, k) ensures SplitAt(a, b + c, w, k) && SplitAt(a + b, c, w, k) {}
    forall w, k | SplitAt(b, c, w, k) ensures SplitAt(a + b, c, w, k) {}
    forall w, k | SplitAt(a, b + c, w, k) ensures SplitAt(a, b, w, k) || SplitAt(a, c, w, k) {}
    forall w, k | SplitAt(a + b, c, w, k) ensures SplitAt(a, c, w, k) || SplitAt(b, c, w, k) {}
  }

  lemma {:induction false} SeqAppend(env: Env, a: Body, b: Body)
    requires NoBar(a)
    ensures SeqLang(env, a + b) == Cat(SeqLang(env, a), SeqLang(env, b))
  {
    if a == [] {
      assert a + b == b;
      CatEps(SeqLang(env, b));
    } else {
      assert (a + b)[1..] == a[1..] + b;
      SeqAppend(env, a[1..], b);
      CatAssoc(ItemLang(env, a[0]), SeqLang(env, a[1..]), SeqLang(env, b));
    }
  }

  lemma {:induction false} BodyOfSeq(env: Env, a: Body)
    requires NoBar(a)
    ensures LaterLang(env, a) == iset{}
    ensures BodyLang(env, a) == SeqLang(env, a)
  {
    if a != [] { BodyOfSeq(env, a[1..]); }
  }

  lemma {:induction false} SeqOne(env: Env, it: Item)
    requires !it.Bar?
    ensures SeqLang(env, [it]) == ItemLang(env, it)
    ensures BodyLang(env, [it]) == ItemLang(env, it)
  {
    var one, none: Body := [it], [];
    assert one[1..] == none;
    calc {
      SeqLang(env, one);
      Cat(ItemLang(env, it), SeqLang(env, none));
      Cat(ItemLang(env, it), Eps());
      { CatEps(ItemLang(env, it)); }
      ItemLang(env, it);
    }
    BodyOfSeq(env, one);
  }

  lemma {:induction false} SeqTwo(env: Env, i: Item, j: Item)
    requires !i.Bar? && !j.Bar?
    ensures SeqLang(env, [i, j]) == Cat(ItemLang(env, i), ItemLang(env, j))
  {
    assert [i, j][1..] == [j];
    SeqOne(env, j);
  }

  /** `a | b` denotes the union of what `a` and `b` denote, whatever bars they hold themselves. */
  lemma {:induction false} BodyAlt(env: Env, a: Body, b: Body)
    ensures BodyLang(env, a + [Bar] + b) == BodyLang(env, a) + BodyLang(env, b)
  {
    var w := a + [Bar] + b;
    SeqBeforeBar(env, a, b);
    if a == [] {
      assert w[1..] == b;
    } else {
      assert w[1..] == a[1..] + [Bar] + b;
      LaterAlt(env, a, b);
    }
  }

  lemma {:induction false} SeqBeforeBar(env: Env, a: Body, b: Body)
    ensures SeqLang(env, a + [Bar] + b) == SeqLang(env, a)
  {
    var w := a + [Bar] + b;
    if a != [] && !a[0].Bar? {
      assert w[1..] == a[1..] + [Bar] + b;
      SeqBeforeBar(env, a[1..], b);
    }
  }

  lemma {:induction false} LaterAlt(env: Env, a: Body, b: Body)
    ensures LaterLang(env, a + [Bar] + b) == LaterLang(env, a) + BodyLang(env, b)
  {
    var w := a + [Bar] + b;
    if a == [] {
      assert w[1..] == b;
    } else {
      assert w[1..] == a[1..] + [Bar] + b;
      LaterAlt(env, a[1..], b);
      SeqBeforeBar(env, a[1..], b);
    }
  }

  lemma PowOne(a: Lang)
    ensures Pow(a, 1) == a
  {
    CatEps(a);
    assert Pow(a, 1) == Cat(a, Pow(a, 0));
  }

  /** `x?` */
  lemma OptLang(a: Lang)
    ensures RepLang(a, 0, Upto(1)) == Eps() + a
  {
    PowOne(a);
    forall w ensures w in RepLang(a, 0, Upto(1)) <==> w in Eps() + a {
      if w in Eps() { assert Allowed(0, 0, Upto(1)) && w in Pow(a, 0); }
      if w in a { assert Allowed(1, 0, Upto(1)) && w in Pow(a, 1); }
    }
  }

  // ---------------------------------------------------------------- bodies read from the end

  /** The alternative being written at the end of `b`, and the alternatives completed before it. */
  ghost function LastLang(env: Env, b: Body): Lang {
    if b == [] || b[|b| - 1].Bar? then Eps() else Cat(LastLang(env, b[..|b| - 1]), ItemLang(env, b[|b| - 1]))
  }

  ghost function EarlierLang(env: Env, b: Body): Lang {
    if b == [] then iset{}
    else
      var front := b[..|b| - 1];
      EarlierLang(env, front) + if b[|b| - 1].Bar? then LastLang(env, front) else iset{}
  }

  lemma {:induction false} BodyFromEnd(env: Env, b: Body, c: Body)
    requires NoBar(c)
    ensures BodyLang(env, b + c) == EarlierLang(env, b) + Cat(LastLang(env, b), SeqLang(env, c))
    decreases |b|
  {
    if b == [] {
      assert b + c == c;
      BodyOfSeq(env, c);
      CatEps(SeqLang(env, c));
    } else {
      var f, x := b[..|b| - 1], b[|b| - 1];
      if x.Bar? {
        assert b + c == f + [Bar] + c;
        BodyAlt(env, f, c);
        BodyOfSeq(env, c);
        BodyFromEnd(env, f, []);
        assert f + [] == f;
        CatEps(LastLang(env, f));
        CatEps(SeqLang(env, c));
      } else {
        assert b + c == f + ([x] + c);
        assert ([x] + c)[1..] == c;
        BodyFromEnd(env, f, [x] + c);
        CatAssoc(LastLang(env, f), ItemLang(env, x), SeqLang(env, c));
      }
    }
  }

  lemma {:induction false} BodyIsEarlierAndLast(env: Env, b: Body)
    ensures BodyLang(env, b) == EarlierLang(env, b) + LastLang(env, b)
  {
    BodyFromEnd(env, b, []);
    assert b + [] == b;
    CatEps(LastLang(env, b));
  }
}
