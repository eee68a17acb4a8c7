/** The texts of schemas with parts, written part by part: constants, unions and tuples. */
module PartTexts {
  import opened Gbnf
  import opened SchemaSpec
  import opened ConverterState
  import IntegerBounds
  import ObjectKeys
  import ObjectRule
  import Pattern
  import Repetition

  lemma {:induction false} GroupText(env: Env, b: Body)
    ensures BodyLang(env, [Group(b), Ref("space")]) == Cat(BodyLang(env, b), Space(env))
  {
    SeqTwo(env, Group(b), Ref("space"));
    BodyOfSeq(env, [Group(b), Ref("space")]);
  }

  lemma {:induction false} EnumMeans(c: Context, t: Table, s: Schema, alts: Body)
    requires s.SEnum? && forall env: Env :: BodyLang(env, alts) == OneOf(s.values)
    ensures BodyMeans(c, t, [Group(alts), Ref("space")], s)
  {
    forall env: Env ensures BodyLang(env, [Group(alts), Ref("space")]) == Spec(c, env, s) { GroupText(env, alts); }
  }

  /** The text written for the bounds denotes what is intended, or, for bounds that are not got right, gets `x`
      wrong. */
  ghost predicate IntegerText(lo: Minimum, hi: Maximum, body: Body, x: string) {
    if IntegerBounds.Exact(lo, hi) then forall env: Env :: BodyLang(env, body) == IntegerBounds.Intended(lo, hi)
    else forall env: Env :: IntegerBounds.Wrong(lo, hi, BodyLang(env, body), x)
  }

  lemma {:induction false} IntegerMeans(c: Context, t: Table, s: Schema, b: Body)
    requires s.SInteger? && forall env: Env :: BodyLang(env, b) == IntegerBounds.Intended(s.minimum, s.maximum)
    ensures BodyMeans(c, t, [Group(b), Ref("space")], s)
  {
    hide IntegerBounds.Intended;
    forall env: Env ensures BodyLang(env, [Group(b), Ref("space")]) == Spec(c, env, s) { GroupText(env, b); }
  }

  lemma {:induction false} LengthMeans(c: Context, t: Table, s: Schema, chars: Body, body: Body)
    requires s.SLength? && s.minLength <= s.maxLength <= Repetition.INT_MAX && IsBuiltin(c, t, "char")
    requires chars == Repetition.BuildRepetition(Ref("char"), s.minLength, s.maxLength, [])
    requires body == [Lit("\"")] + chars + [Lit("\""), Ref("space")]
    ensures BodyMeans(c, t, body, s)
  {
    hide Repetition.BuildRepetition, Repetition.Lists;
    Repetition.Shape(Ref("char"), s.minLength, s.maxLength, []);
    assert body == [Lit("\""), chars[0], Lit("\""), Ref("space")];
    forall env: Env | Solves(env, t) ensures BodyLang(env, body) == Spec(c, env, s) {
      Pattern.QuotedBody(env, chars[0]);
      SeqOne(env, chars[0]);
      Repetition.RepetitionIsLists(env, Ref("char"), s.minLength, s.maxLength, []);
    }
  }

  lemma {:induction false} BuiltinMeans(c: Context, t: Table, s: Schema)
    requires s.SFormat? && IsBuiltin(c, t, s.prim)
    ensures BodyMeans(c, t, [Ref(s.prim)], s)
  {
    forall env: Env | Solves(env, t) ensures BodyLang(env, [Ref(s.prim)]) == Spec(c, env, s) {
      SeqOne(env, Ref(s.prim));
    }
  }

  lemma {:induction false} ArrayMeans(c: Context, t: Table, s: Schema, part: string, inner: Body)
    requires s.SArray? && s.minItems <= s.maxItems <= Repetition.INT_MAX && s.maxItems > 0 && Means(c, t, part, s.item)
    requires inner == Repetition.BuildRepetition(Ref(part), s.minItems, s.maxItems, ObjectKeys.COMMA)
    ensures BodyMeans(c, t, [Lit("["), Ref("space")] + inner + [Lit("]"), Ref("space")], s)
  {
    hide Repetition.BuildRepetition, Repetition.Lists;
    var body := [Lit("["), Ref("space")] + inner + [Lit("]"), Ref("space")];
    forall env: Env | Solves(env, t) ensures BodyLang(env, body) == Spec(c, env, s) {
      ObjectKeys.CommaText(env);
      Repetition.RepetitionIsLists(env, Ref(part), s.minItems, s.maxItems, ObjectKeys.COMMA);
      ObjectRule.EnclosedText(env, "[", inner, "]");
      BodyOfSeq(env, inner);
    }
  }

  lemma {:induction false} ReferenceMeans(c: Context, t: Table, ref: string, n: string)
    requires SameRule(t, n, Target(c, ref))
    ensures BodyMeans(c, t, [Ref(n)], SRef(ref))
  {
    forall env: Env | Solves(env, t) ensures BodyLang(env, [Ref(n)]) == Spec(c, env, SRef(ref)) {
      SeqOne(env, Ref(n));
    }
  }

  lemma {:induction false} NextLiteral(env: Env, vs: seq<string>, i: nat, before: Body, alts: Body)
    requires i < |vs| && alts == (if i > 0 then before + [Bar] else []) + [Lit(vs[i])]
    requires i > 0 ==> BodyLang(env, before) == OneOf(vs[..i])
    ensures BodyLang(env, alts) == OneOf(vs[..i + 1])
  {
    var one := [Lit(vs[i])];
    SeqOne(env, one[0]);
    assert vs[..i + 1] == vs[..i] + [vs[i]];
    if i > 0 { BodyAlt(env, before, one); } else { assert alts == one; }
  }

  ghost predicate MentionsDone(parts: seq<Schema>, i: nat, done: set<string>)
    requires i <= |parts|
  {
    forall j :: 0 <= j < i ==> Mentions(parts[j]) <= done
  }

  ghost predicate UnionSoFar(c: Context, env: Env, alts: seq<Schema>, i: nat, b: Body)
    requires i <= |alts|
  {
    AnySpec(c, env, alts) == (if i == 0 then iset{} else BodyLang(env, b)) + AnySpec(c, env, alts[i..])
  }

  lemma {:induction false} NextUnion(c: Context, env: Env, alts: seq<Schema>, i: nat, before: Body, b: Body,
      part: string)
    requires i < |alts| && UnionSoFar(c, env, alts, i, before)
    requires b == (if i > 0 then before + [Bar] else []) + [Ref(part)]
    requires ItemLang(env, Ref(part)) == Spec(c, env, alts[i])
    ensures UnionSoFar(c, env, alts, i + 1, b)
  {
    var one, rest := [Ref(part)], AnySpec(c, env, alts[i + 1..]);
    SeqOne(env, one[0]);
    assert alts[i..][1..] == alts[i + 1..];
    if i > 0 {
      BodyAlt(env, before, one);
      UnionAssoc(BodyLang(env, before), BodyLang(env, one), rest);
    } else {
      assert b == one && alts[0..] == alts;
    }
  }

  lemma {:induction false} AllUnion(c: Context, env: Env, alts: seq<Schema>, b: Body)
    requires alts != [] && UnionSoFar(c, env, alts, |alts|, b)
    ensures BodyLang(env, b) == AnySpec(c, env, alts)
  {
    assert alts[|alts|..] == [];
  }

  /** The items after some first one, each after a comma. */
  ghost function TupleRest(c: Context, env: Env, items: seq<Schema>): Lang {
    if items == [] then Eps() else Cat(ObjectKeys.Comma(env), TupleSpec(c, env, items))
  }

  ghost predicate TupleSoFar(c: Context, env: Env, items: seq<Schema>, i: nat, b: Body)
    requires i <= |items|
  {
    i > 0 ==> TupleSpec(c, env, items) == Cat(SeqLang(env, b), TupleRest(c, env, items[i..]))
  }

  lemma {:induction false} TupleHead(c: Context, env: Env, items: seq<Schema>)
    requires items != []
    ensures TupleSpec(c, env, items) == Cat(Spec(c, env, items[0]), TupleRest(c, env, items[1..]))
  {
    if |items| == 1 {
      assert items[1..] == [];
      assert Cat(Spec(c, env, items[0]), Eps()) == Spec(c, env, items[0]) by { CatEps(Spec(c, env, items[0])); }
    }
  }

  lemma {:induction false} NextTuple(c: Context, env: Env, items: seq<Schema>, i: nat, before: Body, b: Body,
      part: string)
    requires i < |items| && TupleSoFar(c, env, items, i, before) && NoBar(before)
    requires b == (if i > 0 then before + ObjectKeys.COMMA else []) + [Ref(part)]
    requires ItemLang(env, Ref(part)) == Spec(c, env, items[i])
    ensures TupleSoFar(c, env, items, i + 1, b)
  {
    hide TupleSpec, SeqLang, ObjectKeys.Comma;
    var one, rest := [Ref(part)], TupleRest(c, env, items[i + 1..]);
    SeqOne(env, one[0]);
    assert items[i..][1..] == items[i + 1..];
    TupleHead(c, env, items[i..]);
    if i > 0 {
      JoinedText(env, before, one);
      assert b == before + ObjectKeys.COMMA + one;
      CatFour(SeqLang(env, before), ObjectKeys.Comma(env), SeqLang(env, one), rest);
    } else {
      assert b == one && items[0..] == items;
    }
  }

  lemma {:induction false} JoinedText(env: Env, before: Body, one: Body)
    requires NoBar(before)
    ensures SeqLang(env, before + ObjectKeys.COMMA + one)
            == Cat(SeqLang(env, before), Cat(ObjectKeys.Comma(env), SeqLang(env, one)))
  {
    hide SeqLang, ObjectKeys.Comma;
    ObjectKeys.CommaText(env);
    SeqAppend(env, ObjectKeys.COMMA, one);
    SeqAppend(env, before, ObjectKeys.COMMA + one);
    assert before + ObjectKeys.COMMA + one == before + (ObjectKeys.COMMA + one);
  }

  lemma CatFour(a: Lang, b: Lang, d: Lang, e: Lang)
    ensures Cat(Cat(a, Cat(b, d)), e) == Cat(a, Cat(b, Cat(d, e)))
  {
    CatAssoc(a, Cat(b, d), e);
    CatAssoc(b, d, e);
  }

  lemma NoItems(c: Context, env: Env)
    ensures SeqLang(env, []) == TupleSpec(c, env, [])
  {
  }

  lemma {:induction false} AllTuple(c: Context, env: Env, items: seq<Schema>, b: Body)
    requires TupleSoFar(c, env, items, |items|, b) && (items == [] ==> b == [])
    ensures SeqLang(env, b) == TupleSpec(c, env, items)
  {
    hide SeqLang, TupleSpec;
    assert items[|items|..] == [];
    CatEps(SeqLang(env, b));
    if items == [] { NoItems(c, env); }
  }

  ghost predicate UnionIn(c: Context, t: Table, alts: seq<Schema>, i: nat, b: Body)
    requires i <= |alts|
  {
    forall env: Env :: Solves(env, t) ==> UnionSoFar(c, env, alts, i, b)
  }

  lemma NoUnionYet(c: Context, t: Table, alts: seq<Schema>)
    ensures UnionIn(c, t, alts, 0, [])
  {
    forall env: Env ensures UnionSoFar(c, env, alts, 0, []) {
      assert alts[0..] == alts;
      UnionAssoc(AnySpec(c, env, alts), iset{}, iset{});
    }
  }

  lemma {:induction false} NextUnionIn(c: Context, t: Table, t': Table, alts: seq<Schema>, i: nat, before: Body,
      b: Body, part: string)
    requires Extends(t, t') && i < |alts| && UnionIn(c, t, alts, i, before)
    requires b == (if i > 0 then before + [Bar] else []) + [Ref(part)] && Means(c, t', part, alts[i])
    ensures UnionIn(c, t', alts, i + 1, b)
  {
    forall env: Env | Solves(env, t') ensures UnionSoFar(c, env, alts, i + 1, b) {
      SolvesMono(env, t, t');
      NextUnion(c, env, alts, i, before, b, part);
    }
  }

  lemma {:induction false} AllUnionIn(c: Context, t: Table, alts: seq<Schema>, b: Body)
    requires alts != [] && UnionIn(c, t, alts, |alts|, b)
    ensures forall env: Env :: Solves(env, t) ==> BodyLang(env, b) == Spec(c, env, SUnion(alts))
  {
    forall env: Env | Solves(env, t) ensures BodyLang(env, b) == Spec(c, env, SUnion(alts)) {
      AllUnion(c, env, alts, b);
    }
  }

  ghost predicate TupleIn(c: Context, t: Table, items: seq<Schema>, i: nat, b: Body)
    requires i <= |items|
  {
    forall env: Env :: Solves(env, t) ==> TupleSoFar(c, env, items, i, b)
  }

  lemma NoTupleYet(c: Context, t: Table, items: seq<Schema>)
    ensures TupleIn(c, t, items, 0, [])
  {
  }

  lemma {:induction false} NextTupleIn(c: Context, t: Table, t': Table, items: seq<Schema>, i: nat, before: Body,
      b: Body, part: string)
    requires Extends(t, t') && i < |items| && TupleIn(c, t, items, i, before) && NoBar(before)
    requires b == (if i > 0 then before + ObjectKeys.COMMA else []) + [Ref(part)] && Means(c, t', part, items[i])
    ensures TupleIn(c, t', items, i + 1, b) && NoBar(b)
  {
    forall env: Env | Solves(env, t') ensures TupleSoFar(c, env, items, i + 1, b) {
      SolvesMono(env, t, t');
      NextTuple(c, env, items, i, before, b, part);
    }
  }

  lemma {:induction false} TupleText(c: Context, env: Env, items: seq<Schema>, inner: Body)
    requires TupleSoFar(c, env, items, |items|, inner) && (items == [] ==> inner == []) && NoBar(inner)
    ensures BodyLang(env, [Lit("["), Ref("space")] + inner + [Lit("]"), Ref("space")]) == Spec(c, env, STuple(items))
  {
    hide BodyLang, SeqLang, NoBar, TupleSoFar;
    ObjectRule.EnclosedText(env, "[", inner, "]");
    AllTuple(c, env, items, inner);
  }

  lemma {:induction false} AllTupleIn(c: Context, t: Table, items: seq<Schema>, inner: Body)
    requires TupleIn(c, t, items, |items|, inner) && (items == [] ==> inner == []) && NoBar(inner)
    ensures forall env: Env :: Solves(env, t) ==>
              BodyLang(env, [Lit("["), Ref("space")] + inner + [Lit("]"), Ref("space")]) == Spec(c, env, STuple(items))
  {
    var body := [Lit("["), Ref("space")] + inner + [Lit("]"), Ref("space")];
    forall env: Env | Solves(env, t) ensures BodyLang(env, body) == Spec(c, env, STuple(items)) {
      TupleText(c, env, items, inner);
    }
  }
}
