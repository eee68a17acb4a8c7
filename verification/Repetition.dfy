/** Counted repetition, with or without a separator: `build_repetition` of json-schema-to-grammar.cpp. */
module Repetition {
  import opened Gbnf

  const INT_MAX := 0x7fff_ffff

  /** The text for between `minItems` and `maxItems` items; INT_MAX stands for no upper bound. */
  function BuildRepetition(item: Item, minItems: nat, maxItems: int, separator: Body): Body
    decreases |separator|
  {
    var hasMax := maxItems != INT_MAX;
    if minItems == 0 && maxItems == 1 then [Rep(item, 0, Upto(1))]
    else if separator == [] then
      if minItems == 1 && !hasMax then [Rep(item, 1, Unbounded)]
      else if minItems == 0 && !hasMax then [Rep(item, 0, Unbounded)]
      else [Rep(item, minItems, if hasMax then Upto(maxItems) else Unbounded)]
    else
      var result := [item] + BuildRepetition(Group(separator + [item]), if minItems == 0 then 0 else minItems - 1,
                                             if hasMax then maxItems - 1 else maxItems, []);
      if minItems == 0 then [Rep(Group(result), 0, Upto(1))] else result
  }

  /** No `{lo,hi}` has a negative bound; with one, the grammar text does not parse. */
  predicate Readable(it: Item) {
    match it
    case Group(b) => forall i :: 0 <= i < |b| ==> Readable(b[i])
    case Rep(x, _, hi) => Readable(x) && (hi.Upto? ==> hi.n >= 0)
    case _ => true
  }

  predicate ReadableBody(b: Body) {
    forall i :: 0 <= i < |b| ==> Readable(b[i])
  }

  // ---------------------------------------------------------------- the intended lists

  /** `n` items with separators between them. */
  ghost function Joined(item: Lang, sep: Lang, n: nat): Lang {
    if n == 0 then Eps() else if n == 1 then item else Cat(item, Cat(sep, Joined(item, sep, n - 1)))
  }

  ghost predicate InLists(item: Lang, sep: Lang, lo: nat, hi: int, w: string) {
    exists n: nat :: lo <= n && (hi != 2_147_483_647 ==> n <= hi) && w in Joined(item, sep, n)
  }

  ghost function Lists(item: Lang, sep: Lang, lo: nat, hi: int): Lang {
    iset w | InLists(item, sep, lo, hi, w)
  }

  lemma {:induction false} JoinedIsPow(item: Lang, sep: Lang, n: nat)
    ensures Joined(item, sep, n + 1) == Cat(item, Pow(Cat(sep, item), n))
  {
    if n == 0 {
      CatEps(item);
    } else {
      var p := Pow(Cat(sep, item), n - 1);
      calc {
        Joined(item, sep, n + 1);
        Cat(item, Cat(sep, Joined(item, sep, n)));
        { JoinedIsPow(item, sep, n - 1); }
        Cat(item, Cat(sep, Cat(item, p)));
        { CatAssoc(sep, item, p); }
        Cat(item, Cat(Cat(sep, item), p));
        Cat(item, Pow(Cat(sep, item), n));
      }
    }
  }

  lemma {:induction false} JoinedNoSep(item: Lang, n: nat)
    ensures Joined(item, Eps(), n) == Pow(item, n)
  {
    if n == 1 {
      PowOne(item);
    } else if n > 1 {
      JoinedNoSep(item, n - 1);
      CatEps(Pow(item, n - 1));
    }
  }

  function ToBound(hi: int): Bound { if hi == INT_MAX then Unbounded else Upto(hi) }

  lemma {:induction false} PlainLists(item: Lang, lo: nat, hi: int)
    requires lo <= hi
    ensures RepLang(item, lo, ToBound(hi)) == Lists(item, Eps(), lo, hi)
  {
    forall w ensures w in RepLang(item, lo, ToBound(hi)) <==> InLists(item, Eps(), lo, hi, w) {
      if n: nat :| Allowed(n, lo, ToBound(hi)) && w in Pow(item, n) {
        JoinedNoSep(item, n);
        assert w in Joined(item, Eps(), n);
      }
      if n: nat :| lo <= n && (hi != INT_MAX ==> n <= hi) && w in Joined(item, Eps(), n) {
        JoinedNoSep(item, n);
        assert Allowed(n, lo, ToBound(hi));
      }
    }
  }

  lemma {:induction false} CatOfUnion(a: Lang, b: Lang, lo: nat, hi: Bound, w: string)
    ensures w in Cat(a, RepLang(b, lo, hi)) <==> exists n: nat :: Allowed(n, lo, hi) && w in Cat(a, Pow(b, n))
  {
    if k :| SplitAt(a, RepLang(b, lo, hi), w, k) {
      var n: nat :| Allowed(n, lo, hi) && w[k..] in Pow(b, n);
      assert SplitAt(a, Pow(b, n), w, k);
    }
    if n: nat :| Allowed(n, lo, hi) && w in Cat(a, Pow(b, n)) {
      var k :| SplitAt(a, Pow(b, n), w, k);
      assert SplitAt(a, RepLang(b, lo, hi), w, k);
    }
  }

  function OneMore(hi: int): int { if hi == INT_MAX then INT_MAX else hi + 1 }

  /** One item, then separated items: the lists of at least one. */
  lemma {:induction false} SeparatedLists(item: Lang, sep: Lang, lo: nat, hi: int)
    requires lo <= hi && (hi < INT_MAX - 1 || hi == INT_MAX)
    ensures Cat(item, RepLang(Cat(sep, item), lo, ToBound(hi))) == Lists(item, sep, lo + 1, OneMore(hi))
  {
    forall w ensures w in Cat(item, RepLang(Cat(sep, item), lo, ToBound(hi)))
        <==> InLists(item, sep, lo + 1, OneMore(hi), w) {
      CatOfUnion(item, Cat(sep, item), lo, ToBound(hi), w);
      if n: nat :| Allowed(n, lo, ToBound(hi)) && w in Cat(item, Pow(Cat(sep, item), n)) {
        JoinedIsPow(item, sep, n);
        assert w in Joined(item, sep, n + 1);
      }
      if n: nat :| lo + 1 <= n && (OneMore(hi) != INT_MAX ==> n <= OneMore(hi)) && w in Joined(item, sep, n) {
        JoinedIsPow(item, sep, n - 1);
        assert Allowed(n - 1, lo, ToBound(hi));
      }
    }
  }

  lemma {:induction false} OrNone(item: Lang, sep: Lang, hi: int)
    requires 1 <= hi
    ensures Eps() + Lists(item, sep, 1, hi) == Lists(item, sep, 0, hi)
  {
    forall w ensures w in Eps() + Lists(item, sep, 1, hi) <==> InLists(item, sep, 0, hi, w) {
      if w == "" { assert w in Joined(item, sep, 0); }
      if n: nat :| n <= hi && w in Joined(item, sep, n) && n >= 1 { assert InLists(item, sep, 1, hi, w); }
    }
  }

  // ---------------------------------------------------------------- the text denotes the lists

  function NextItems(item: Item, lo: nat, hi: int, sep: Body): Item {
    Rep(Group(sep + [item]), if lo == 0 then 0 else lo - 1, ToBound(if hi == INT_MAX then hi else hi - 1))
  }

  /** The shape of the text, by cases. */
  lemma {:induction false} Shape(item: Item, lo: nat, hi: int, sep: Body)
    ensures sep == [] || (lo == 0 && hi == 1) ==> BuildRepetition(item, lo, hi, sep) == [Rep(item, lo, ToBound(hi))]
    ensures sep != [] && !(lo == 0 && hi == 1) ==>
              var result := [item] + [NextItems(item, lo, hi, sep)];
              BuildRepetition(item, lo, hi, sep) == if lo == 0 then [Rep(Group(result), 0, Upto(1))] else result
  {
    var lo', hi' := if lo == 0 then 0 else lo - 1, if hi == INT_MAX then hi else hi - 1;
    assert BuildRepetition(Group(sep + [item]), lo', hi', []) == [NextItems(item, lo, hi, sep)];
  }

  predicate HasMeaning(hi: int, sep: Body) { if sep == [] then hi >= 0 else hi > 0 }

  /** The text for a list is readable exactly when the maximum is not negative, and with a separator not 0. */
  lemma {:induction false} RepetitionReadable(item: Item, lo: nat, hi: int, sep: Body)
    requires Readable(item) && ReadableBody(sep)
    ensures ReadableBody(BuildRepetition(item, lo, hi, sep)) <==> HasMeaning(hi, sep)
  {
    Shape(item, lo, hi, sep);
    var b := BuildRepetition(item, lo, hi, sep);
    if sep == [] || (lo == 0 && hi == 1) {
      assert b == [b[0]];
    } else {
      var next := NextItems(item, lo, hi, sep);
      var result := [item] + [next];
      assert Readable(Group(sep + [item]));
      assert Readable(next) <==> hi > 0;
      assert result[1] == next;
      assert Readable(Group(result)) <==> hi > 0;
      if lo == 0 { assert b[0] == Rep(Group(result), 0, Upto(1)); } else { assert b == result; }
    }
  }

  lemma {:induction false} UpToOne(item: Lang, sep: Lang)
    ensures Eps() + item == Lists(item, sep, 0, 1)
  {
    forall w ensures w in Eps() + item <==> InLists(item, sep, 0, 1, w) {
      if w == "" { assert w in Joined(item, sep, 0); }
      if w in item { assert w in Joined(item, sep, 1); }
    }
  }

  lemma {:induction false} SeparatorItem(env: Env, item: Item, sep: Body)
    requires !item.Bar? && NoBar(sep)
    ensures ItemLang(env, Group(sep + [item])) == Cat(SeqLang(env, sep), ItemLang(env, item))
  {
    var b := sep + [item];
    assert BodyLang(env, b) == SeqLang(env, b) by { BodyOfSeq(env, b); }
    assert SeqLang(env, [item]) == ItemLang(env, item) by { SeqOne(env, item); }
    SeqAppend(env, sep, [item]);
  }

  lemma {:induction false} ItemThen(env: Env, item: Item, next: Item)
    requires !item.Bar? && !next.Bar?
    ensures BodyLang(env, [item] + [next]) == Cat(ItemLang(env, item), ItemLang(env, next))
  {
    assert [item] + [next] == [item, next];
    SeqTwo(env, item, next);
    BodyOfSeq(env, [item, next]);
  }

  /** One item, and the next ones each after a separator. */
  lemma {:induction false} OneAndNext(env: Env, item: Item, lo: nat, hi: int, sep: Body)
    requires lo <= hi <= INT_MAX && !item.Bar? && NoBar(sep) && hi > 0
    ensures BodyLang(env, [item] + [NextItems(item, lo, hi, sep)])
            == Lists(ItemLang(env, item), SeqLang(env, sep), if lo == 0 then 1 else lo, hi)
  {
    hide BodyLang, SeqLang, Lists, NoBar;
    var next := NextItems(item, lo, hi, sep);
    SeparatorItem(env, item, sep);
    ItemThen(env, item, next);
    SeparatedLists(ItemLang(env, item), SeqLang(env, sep), if lo == 0 then 0 else lo - 1,
        if hi == INT_MAX then hi else hi - 1);
  }

  lemma {:induction false} OptionalBody(env: Env, b: Body)
    ensures BodyLang(env, [Rep(Group(b), 0, Upto(1))]) == Eps() + BodyLang(env, b)
  {
    hide BodyLang, SeqLang;
    SeqOne(env, Rep(Group(b), 0, Upto(1)));
    OptLang(BodyLang(env, b));
  }

  lemma {:induction false} PlainRepetition(env: Env, item: Item, lo: nat, hi: int)
    requires lo <= hi <= INT_MAX
    ensures BodyLang(env, [Rep(item, lo, ToBound(hi))]) == Lists(ItemLang(env, item), SeqLang(env, []), lo, hi)
  {
    hide BodyLang, Lists, RepLang;
    SeqOne(env, Rep(item, lo, ToBound(hi)));
    PlainLists(ItemLang(env, item), lo, hi);
  }

  lemma {:induction false} AtMostOne(env: Env, item: Item, sep: Body)
    ensures BodyLang(env, [Rep(item, 0, Upto(1))]) == Lists(ItemLang(env, item), SeqLang(env, sep), 0, 1)
  {
    hide BodyLang, Lists, RepLang;
    SeqOne(env, Rep(item, 0, Upto(1)));
    OptLang(ItemLang(env, item));
    UpToOne(ItemLang(env, item), SeqLang(env, sep));
  }

  /** ... and then it denotes the lists of between `lo` and `hi` items; if the minimum is above the maximum, those of
      exactly `lo` items. */
  lemma {:induction false} RepetitionIsLists(env: Env, item: Item, lo: nat, hi: int, sep: Body)
    requires lo <= INT_MAX && hi <= INT_MAX && !item.Bar? && NoBar(sep) && HasMeaning(hi, sep)
    ensures NoBar(BuildRepetition(item, lo, hi, sep))
    ensures BodyLang(env, BuildRepetition(item, lo, hi, sep))
            == if lo <= hi then Lists(ItemLang(env, item), SeqLang(env, sep), lo, hi)
               else Joined(ItemLang(env, item), SeqLang(env, sep), lo)
  {
    hide BodyLang, SeqLang, ItemLang, RepLang, Lists, BuildRepetition, Joined;
    Shape(item, lo, hi, sep);
    if lo > hi {
      CrossedRepetition(env, item, lo, hi, sep);
    } else if sep == [] {
      PlainRepetition(env, item, lo, hi);
    } else if lo == 0 && hi == 1 {
      AtMostOne(env, item, sep);
    } else {
      OneAndNext(env, item, lo, hi, sep);
      if lo == 0 {
        OptionalBody(env, [item] + [NextItems(item, lo, hi, sep)]);
        OrNone(ItemLang(env, item), SeqLang(env, sep), hi);
      }
    }
  }

  /** `{lo,hi}` with the bounds crossed repeats `lo` times. */
  lemma CrossedBounds(a: Lang, lo: nat, hi: int)
    requires 0 <= hi < lo
    ensures RepLang(a, lo, Upto(hi)) == Pow(a, lo)
  {
    hide Pow;
    assert forall n: nat :: Allowed(n, lo, Upto(hi)) <==> n == lo;
  }

  lemma {:induction false} CrossedRepetition(env: Env, item: Item, lo: nat, hi: int, sep: Body)
    requires hi < lo && hi < INT_MAX && !item.Bar? && NoBar(sep) && HasMeaning(hi, sep)
    ensures BodyLang(env, BuildRepetition(item, lo, hi, sep)) == Joined(ItemLang(env, item), SeqLang(env, sep), lo)
  {
    hide BodyLang, SeqLang, RepLang, BuildRepetition, Joined, NoBar;
    var it, s := ItemLang(env, item), SeqLang(env, sep);
    Shape(item, lo, hi, sep);
    if sep == [] {
      SeqOne(env, Rep(item, lo, Upto(hi)));
      CrossedBounds(it, lo, hi);
      NothingBetween(env);
      JoinedNoSep(it, lo);
    } else {
      var next := NextItems(item, lo, hi, sep);
      SeparatorItem(env, item, sep);
      ItemThen(env, item, next);
      CrossedBounds(Cat(s, it), lo - 1, hi - 1);
      JoinedIsPow(it, s, lo - 1);
    }
  }

  lemma NothingBetween(env: Env)
    ensures SeqLang(env, []) == Eps()
  {
  }
}
