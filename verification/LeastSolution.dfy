/** What a grammar means: the least solution of its equations. It exists, so claims about all solutions of a table are
    claims about the grammar. */
module LeastSolution {
  import opened Gbnf

  ghost predicate Below(e: Env, f: Env) {
    forall n :: n in e ==> n in f && e[n] <= f[n]
  }

  ghost predicate PreSolves(e: Env, t: Table) {
    forall n :: n in t ==> n in e && BodyLang(e, t[n]) <= e[n]
  }

  ghost predicate InAll(t: Table, n: string, w: string) {
    forall e: Env :: PreSolves(e, t) ==> n in e && w in e[n]
  }

  ghost function Least(t: Table): Env {
    map n | n in t :: iset w | InAll(t, n, w)
  }

  lemma {:induction false} PowMono(a: Lang, b: Lang, n: nat)
    requires a <= b
    ensures Pow(a, n) <= Pow(b, n)
  {
    if n > 0 {
      PowMono(a, b, n - 1);
      CatMono(a, b, Pow(a, n - 1), Pow(b, n - 1));
    }
  }

  lemma CatMono(a: Lang, b: Lang, c: Lang, d: Lang)
    requires a <= b && c <= d
    ensures Cat(a, c) <= Cat(b, d)
  {
    forall w | w in Cat(a, c) ensures w in Cat(b, d) {
      var k :| SplitAt(a, c, w, k);
      assert SplitAt(b, d, w, k);
    }
  }

  lemma {:induction false} ItemMono(e: Env, f: Env, it: Item)
    requires Below(e, f)
    ensures ItemLang(e, it) <= ItemLang(f, it)
    decreases it, 0
  {
    match it
    case Group(b) => BodyMono(e, f, b);
    case Rep(i, lo, hi) =>
      ItemMono(e, f, i);
      forall n: nat, w | Allowed(n, lo, hi)
          && w in Pow(ItemLang(e, i), n) ensures w in RepLang(ItemLang(f, i), lo, hi) {
        PowMono(ItemLang(e, i), ItemLang(f, i), n);
      }
    case _ =>
  }

  lemma {:induction false} SeqMono(e: Env, f: Env, b: Body)
    requires Below(e, f)
    ensures SeqLang(e, b) <= SeqLang(f, b) && LaterLang(e, b) <= LaterLang(f, b)
    decreases b, 0
  {
    if b != [] {
      ItemMono(e, f, b[0]);
      SeqMono(e, f, b[1..]);
      CatMono(ItemLang(e, b[0]), ItemLang(f, b[0]), SeqLang(e, b[1..]), SeqLang(f, b[1..]));
    }
  }

  lemma {:induction false} BodyMono(e: Env, f: Env, b: Body)
    requires Below(e, f)
    ensures BodyLang(e, b) <= BodyLang(f, b)
    decreases b, 1
  {
    SeqMono(e, f, b);
  }

  lemma LeastIsBelow(t: Table, e: Env)
    requires PreSolves(e, t)
    ensures Below(Least(t), e)
  {
  }

  lemma LeastPreSolves(t: Table)
    ensures PreSolves(Least(t), t)
  {
    forall n, w | n in t && w in BodyLang(Least(t), t[n]) ensures InAll(t, n, w) {
      forall e: Env | PreSolves(e, t) ensures n in e && w in e[n] {
        LeastIsBelow(t, e);
        BodyMono(Least(t), e, t[n]);
      }
    }
  }

  /** The least solution is one, and below every other. */
  lemma LeastSolves(t: Table)
    ensures Solves(Least(t), t)
    ensures forall e: Env :: Solves(e, t) ==> Below(Least(t), e)
  {
    LeastPreSolves(t);
    var e: Env := map n | n in t :: BodyLang(Least(t), t[n]);
    forall n | n in t ensures BodyLang(e, t[n]) <= e[n] {
      BodyMono(e, Least(t), t[n]);
    }
    LeastIsBelow(t, e);
    forall n | n in t ensures Least(t)[n] == BodyLang(Least(t), t[n]) {
      assert Least(t)[n] <= e[n] && BodyLang(Least(t), t[n]) <= Least(t)[n];
    }
    forall f: Env | Solves(f, t) ensures Below(Least(t), f) {
      assert PreSolves(f, t);
      LeastIsBelow(t, f);
    }
  }
}
