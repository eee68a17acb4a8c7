/** The rule for JSON objects (`_build_object_rule` of json-schema-to-grammar.cpp). */
module ObjectRule {
  import opened Gbnf
  import opened Rules
  import opened Derivations
  import opened ObjectCounts
  import opened ObjectKeys

  // ---------------------------------------------------------------- the text

  /** What the entry rules denote in `env`. */
  ghost function EntriesIn(env: Env, kvNames: map<string, string>): Entries {
    k => if k in kvNames then ItemLang(env, Ref(kvNames[k])) else iset{}
  }

  function AllButLast(ks: seq<string>): seq<string> {
    if ks == [] then [] else ks[..|ks| - 1]
  }

  /** `k` is a name for the `-rest` rule after one of the keys. */
  predicate IsRest(name: string, ks: seq<string>, k: string) {
    exists x :: x in ks && Near(Escape(ChildName(name, x + "-rest")), k)
  }

  /** The table grows by such rules. */
  ghost predicate RestsAdded(name: string, ks: seq<string>, t: Table, t': Table) {
    Extends(t, t') && forall k :: k in t' && k !in t ==> IsRest(name, ks, k)
  }

  lemma RestsExtend(name: string, ks: seq<string>, t: Table, t': Table)
    requires RestsAdded(name, ks, t, t')
    ensures Extends(t, t')
  {
  }

  lemma RestsLater(name: string, ks: seq<string>, more: seq<string>, t: Table, t': Table, t'': Table)
    requires forall x :: x in ks ==> x in more
    requires RestsAdded(name, more, t, t') && RestsAdded(name, ks, t', t'')
    ensures RestsAdded(name, more, t, t'')
  {
    forall k | k in t'' && k !in t ensures IsRest(name, more, k) {
      if k !in t' { assert IsRest(name, ks, k); }
    }
  }

  lemma {:induction false} CommaItem(env: Env, kv: Item, lo: nat, hi: Bound)
    requires !kv.Bar?
    ensures SeqLang(env, [Rep(Group(COMMA + [kv]), lo, hi)]) == RepLang(Cat(Comma(env), ItemLang(env, kv)),
            lo, hi)
  {
    CommaText(env);
    SeqOne(env, Rep(Group(COMMA + [kv]), lo, hi));
    BodyOfSeq(env, COMMA + [kv]);
    SeqAppend(env, COMMA, [kv]);
    SeqOne(env, kv);
  }

  /** A name for a `-rest` rule is not that of a built-in rule. */
  lemma RestRuleName(prims: Builtins, name: string, k: string)
    ensures GoodBuiltins(prims) ==> Escape(ChildName(name, k + "-rest")) !in prims
  {
    var front := ChildName(name, k);
    EscapeTail(front, "-rest");
    assert ChildName(name, k + "-rest") == front + "-rest";
    var n := Escape(front) + "-rest";
    assert n[|n| - 1] == 't' && n[|n| - 2] == 's';
  }

  /** `get_recursive_refs`: the first key, alone or after a comma, and a shared rule for the rest. */
  method GetRecursiveRefs(t: RuleTable, name: string, kvNames: map<string, string>, ks: seq<string>,
      firstIsOptional: bool)
    returns (res: Body)
    requires Known(kvNames, ks)
    modifies t
    ensures (old(t.Valid()) ==> t.Valid()) && RestsAdded(name, AllButLast(ks), old(t.rules), t.rules)
    ensures NoBar(res)
    ensures ks == [] ==> res == []
    ensures ks != [] && firstIsOptional ==> res != [] && res[0].Rep?
    ensures ks != [] && StarLast(ks) && Distinguished(old(t.rules), kvNames) && SpaceStays(old(t.rules)) ==>
              RefsCounted(t.rules, kvNames, ks, firstIsOptional, res)
    ensures ks != [] ==> forall env: Env :: Solves(env, t.rules) ==>
              SeqLang(env, res) == if firstIsOptional then RestLang(Comma(env), EntriesIn(env, kvNames), ks)
                                   else StartLang(Comma(env), EntriesIn(env, kvNames), ks)
    decreases |ks|, 1
  {
    res := [];
    if ks == [] {
      return;
    }
    var k := ks[0];
    var kv := Ref(kvNames[k]);
    var commaRef := Group(COMMA + [kv]);
    if firstIsOptional {
      res := [Rep(commaRef, 0, if k == STAR then Unbounded else Upto(1))];
    } else {
      res := [kv] + (if k == STAR then [Rep(commaRef, 0, Unbounded)] else []);
    }
    ghost var first := res;
    if |ks| > 1 {
      var key := RestRule(t, name, kvNames, ks);
      res := res + [Ref(key)];
    }
    if StarLast(ks) && Distinguished(old(t.rules), kvNames) && SpaceStays(old(t.rules)) {
      DistinguishedLater(old(t.rules), t.rules, kvNames);
      assert res == first + res[|first|..];
      RefsAreCounted(t.rules, kvNames, ks, firstIsOptional, res[|first|..], res);
    }
    forall env: Env | Solves(env, t.rules)
      ensures SeqLang(env, res) == if firstIsOptional then RestLang(Comma(env), EntriesIn(env, kvNames), ks)
                                   else StartLang(Comma(env), EntriesIn(env, kvNames), ks)
    {
      RefsText(env, kvNames, ks, firstIsOptional, first, res);
    }
  }

  /** The `-rest` rule shared by the alternatives. */
  method RestRule(t: RuleTable, name: string, kvNames: map<string, string>, ks: seq<string>) returns (key: string)
    requires Known(kvNames, ks) && |ks| > 1
    modifies t
    ensures (old(t.Valid()) ==> t.Valid()) && RestsAdded(name, AllButLast(ks), old(t.rules), t.rules)
    ensures StarLast(ks) && Distinguished(old(t.rules), kvNames) && SpaceStays(old(t.rules)) ==>
              RuleCounted(t.rules, kvNames, ks[1..], key)
    ensures forall env: Env :: Solves(env, t.rules) ==>
              ItemLang(env, Ref(key)) == RestLang(Comma(env), EntriesIn(env, kvNames), ks[1..])
    decreases |ks|, 0
  {
    hide RestLang, StartLang, RestsAdded, EntriesIn, RefsCounted, RuleCounted;
    var rest := GetRecursiveRefs(t, name, kvNames, ks[1..], true);
    RestRuleName(t.prims, name, ks[0]);
    ghost var mid := t.rules;
    key := t.AddRule(ChildName(name, ks[0] + "-rest"), rest);
    RestAdded(name, ks, old(t.rules), mid, t.rules, key, rest);
    RestMeans(kvNames, ks[1..], mid, t.rules, key, rest);
    if StarLast(ks) && Distinguished(old(t.rules), kvNames) && SpaceStays(old(t.rules)) {
      DistinguishedLater(old(t.rules), t.rules, kvNames);
      RuleAdded(mid, t.rules, kvNames, ks[1..], key, rest);
    }
  }

  lemma RestAdded(name: string, ks: seq<string>, t0: Table, mid: Table, t: Table, key: string, rest: Body)
    requires |ks| > 1 && RestsAdded(name, AllButLast(ks[1..]), t0, mid) && t == mid[key := rest] && Extends(mid, t)
    requires KeyFor(Escape(ChildName(name, ks[0] + "-rest")), key)
    ensures RestsAdded(name, AllButLast(ks), t0, t)
  {
    var all := AllButLast(ks);
    KeyIsNear(Escape(ChildName(name, ks[0] + "-rest")), key);
    assert all[0] == ks[0] && all[1..] == AllButLast(ks[1..]);
    forall k | k in t && k !in t0 ensures IsRest(name, all, k) {
      if k in mid { assert IsRest(name, AllButLast(ks[1..]), k); }
    }
  }

  lemma RestMeans(kvNames: map<string, string>, ks: seq<string>, mid: Table, t: Table, key: string, rest: Body)
    requires Extends(mid, t) && key in t && t[key] == rest && NoBar(rest)
    requires forall env: Env :: Solves(env, mid) ==>
              SeqLang(env, rest) == RestLang(Comma(env), EntriesIn(env, kvNames), ks)
    ensures forall env: Env :: Solves(env, t) ==>
              ItemLang(env, Ref(key)) == RestLang(Comma(env), EntriesIn(env, kvNames), ks)
  {
    hide RestLang;
    forall env: Env | Solves(env, t)
      ensures ItemLang(env, Ref(key)) == RestLang(Comma(env), EntriesIn(env, kvNames), ks)
    {
      SolvesMono(env, mid, t);
      BodyOfSeq(env, rest);
    }
  }

  lemma {:induction false} RefsText(env: Env, kvNames: map<string, string>, ks: seq<string>, firstIsOptional: bool,
      first: Body, res: Body)
    requires ks != [] && Known(kvNames, ks)
    requires var kv := Ref(kvNames[ks[0]]);
             first == if firstIsOptional then [Rep(Group(COMMA + [kv]), 0,
                 if ks[0] == STAR then Unbounded else Upto(1))]
                      else [kv] + (if ks[0] == STAR then [Rep(Group(COMMA + [kv]), 0, Unbounded)] else [])
    requires |ks| == 1 ==> res == first
    requires |ks| > 1 ==> |res| == |first| + 1 && res == first + [res[|first|]] && res[|first|].Ref?
                          && ItemLang(env, res[|first|]) == RestLang(Comma(env), EntriesIn(env, kvNames),
                             ks[1..])
    ensures SeqLang(env, res) == if firstIsOptional then RestLang(Comma(env), EntriesIn(env, kvNames), ks)
                                 else StartLang(Comma(env), EntriesIn(env, kvNames), ks)
  {
    var comma, l := Comma(env), EntriesIn(env, kvNames);
    var kv := Ref(kvNames[ks[0]]);
    var r := RestLang(comma, l, ks[1..]);
    assert SeqLang(env, res) == Cat(SeqLang(env, first), r) by {
      if |ks| == 1 {
        assert ks[1..] == [];
        CatEps(SeqLang(env, first));
      } else {
        SeqAppend(env, first, [res[|first|]]);
        SeqOne(env, res[|first|]);
      }
    }
    if firstIsOptional {
      CommaItem(env, kv, 0, if ks[0] == STAR then Unbounded else Upto(1));
    } else {
      var more: Body := if ks[0] == STAR then [Rep(Group(COMMA + [kv]), 0, Unbounded)] else [];
      SeqOne(env, kv);
      SeqAppend(env, [kv], more);
      if ks[0] == STAR { CommaItem(env, kv, 0, Unbounded); }
      CatAssoc(ItemLang(env, kv), SeqLang(env, more), r);
    }
  }

  lemma NoRests(name: string, ks: seq<string>, t: Table)
    ensures RestsAdded(name, AllButLast(ks), t, t)
  {
  }

  lemma ButLastOfRest(ks: seq<string>, i: nat)
    requires i < |ks|
    ensures forall x :: x in AllButLast(ks[i..]) ==> x in AllButLast(ks)
  {
    assert AllButLast(ks)[i..] == AllButLast(ks[i..]);
  }

  lemma StarStaysLast(ks: seq<string>, i: nat)
    requires i < |ks|
    ensures StarLast(ks) ==> StarLast(ks[i..])
  {
  }

  /** One alternative for each optional key to start with. */
  method Alternatives(t: RuleTable, name: string, kvNames: map<string, string>, ks: seq<string>) returns (alts: Body)
    requires Known(kvNames, ks) && ks != []
    modifies t
    ensures (old(t.Valid()) ==> t.Valid()) && RestsAdded(name, AllButLast(ks), old(t.rules), t.rules)
    ensures StarLast(ks) && Distinguished(old(t.rules), kvNames) && SpaceStays(old(t.rules)) ==>
              AltsCounted(t.rules, kvNames, ks, alts)
    ensures forall env: Env :: Solves(env, t.rules) ==>
              BodyLang(env, alts) == StartsLang(Comma(env), EntriesIn(env, kvNames), ks)
  {
    hide WrittenIn, CountedSoFar, RefsCounted, AltsCounted, Distinguished, StartLang, StartsLang, EntriesIn, RestsAdded,
      AllButLast, Comma, BodyLang, SeqLang, GoodBuiltins, Intact, Closed, StarLast;
    alts := [];
    ghost var counted := StarLast(ks) && Distinguished(t.rules, kvNames) && SpaceStays(t.rules);
    NothingWritten(t.rules, kvNames, ks);
    NoRests(name, ks, t.rules);
    for i := 0 to |ks|
      invariant (old(t.Valid()) ==> t.Valid()) && RestsAdded(name, AllButLast(ks), old(t.rules), t.rules)
      invariant i == 0 ==> alts == []
      invariant WrittenIn(t.rules, kvNames, ks, i, alts)
      invariant counted ==> CountedSoFar(t.rules, kvNames, ks, i, alts)
    {
      ghost var before, mid := alts, t.rules;
      StarStaysLast(ks, i);
      var one := GetRecursiveRefs(t, name, kvNames, ks[i..], false);
      alts := if i > 0 then alts + [Bar] + one else one;
      ButLastOfRest(ks, i);
      RestsExtend(name, AllButLast(ks), old(t.rules), mid);
      RestsExtend(name, AllButLast(ks[i..]), mid, t.rules);
      RestsLater(name, AllButLast(ks[i..]), AllButLast(ks), old(t.rules), mid, t.rules);
      NextWritten(mid, t.rules, kvNames, ks, i, before, one, alts);
      if counted {
        DistinguishedLater(old(t.rules), mid, kvNames);
        NextCounted(mid, t.rules, kvNames, ks, i, before, one, alts);
      }
    }
    if counted { AllCounted(t.rules, kvNames, ks, alts); }
    AllWritten(t.rules, kvNames, ks, alts);
  }

  /** The alternatives written, with those to come, are all of them. */
  ghost predicate WrittenIn(t: Table, kvNames: map<string, string>, ks: seq<string>, i: nat, alts: Body)
    requires i <= |ks|
  {
    forall env: Env :: Solves(env, t) ==> WrittenSoFar(env, kvNames, ks, i, alts)
  }

  ghost predicate WrittenSoFar(env: Env, kvNames: map<string, string>, ks: seq<string>, i: nat, alts: Body)
    requires i <= |ks|
  {
    StartsLang(Comma(env), EntriesIn(env, kvNames), ks)
    == (if i == 0 then iset{} else BodyLang(env, alts)) + StartsLang(Comma(env), EntriesIn(env, kvNames),
        ks[i..])
  }

  lemma NothingWritten(t: Table, kvNames: map<string, string>, ks: seq<string>)
    ensures WrittenIn(t, kvNames, ks, 0, [])
    ensures ks != [] ==> CountedSoFar(t, kvNames, ks, 0, [])
  {
    assert ks[0..] == ks;
  }

  lemma NextWritten(mid: Table, t: Table, kvNames: map<string, string>, ks: seq<string>, i: nat, before: Body,
      one: Body, alts: Body)
    requires i < |ks| && Extends(mid, t) && NoBar(one) && alts == (if i > 0 then before + [Bar] + one else one)
    requires WrittenIn(mid, kvNames, ks, i, before)
    requires forall env: Env :: Solves(env, t) ==>
               SeqLang(env, one) == StartLang(Comma(env), EntriesIn(env, kvNames), ks[i..])
    ensures WrittenIn(t, kvNames, ks, i + 1, alts)
  {
    hide StartLang, StartsLang, EntriesIn;
    forall env: Env | Solves(env, t) ensures WrittenSoFar(env, kvNames, ks, i + 1, alts) {
      SolvesMono(env, mid, t);
      BodyOfSeq(env, one);
      BodyAlt(env, before, one);
      NextAlternative(env, kvNames, ks, i, if i == 0 then iset{} else BodyLang(env, before), BodyLang(env, one));
    }
  }

  lemma AllWritten(t: Table, kvNames: map<string, string>, ks: seq<string>, alts: Body)
    requires ks != [] && WrittenIn(t, kvNames, ks, |ks|, alts)
    ensures forall env: Env :: Solves(env, t) ==>
              BodyLang(env, alts) == StartsLang(Comma(env), EntriesIn(env, kvNames), ks)
  {
    assert ks[|ks|..] == [];
  }

  lemma {:induction false} NextAlternative(env: Env, kvNames: map<string, string>, ks: seq<string>, i: nat, b: Lang,
      one: Lang)
    requires i < |ks|
    requires one == StartLang(Comma(env), EntriesIn(env, kvNames), ks[i..])
    requires StartsLang(Comma(env), EntriesIn(env, kvNames), ks)
             == b + StartsLang(Comma(env), EntriesIn(env, kvNames), ks[i..])
    ensures StartsLang(Comma(env), EntriesIn(env, kvNames), ks)
            == (b + one) + StartsLang(Comma(env), EntriesIn(env, kvNames), ks[i + 1..])
    ensures iset{} + one == one
  {
    assert ks[i..][1..] == ks[i + 1..];
    UnionAssoc(b, one, StartsLang(Comma(env), EntriesIn(env, kvNames), ks[i + 1..]));
    UnionAssoc(one, one, one);
  }

  // ---------------------------------------------------------------- the whole object

  ghost function Enclosed(env: Env, open: string, inner: Lang, close: string): Lang {
    Cat(iset{open}, Cat(ItemLang(env, Ref("space")), Cat(inner, Cat(iset{close}, ItemLang(env, Ref("space"))))))
  }

  /** `{ ... }`, each bracket followed by space. */
  lemma {:induction false} EnclosedText(env: Env, open: string, inner: Body, close: string)
    requires NoBar(inner)
    ensures BodyLang(env, [Lit(open), Ref("space")] + inner + [Lit(close), Ref("space")]) == Enclosed(env, open,
            SeqLang(env, inner), close)
  {
    var o, c := [Lit(open), Ref("space")], [Lit(close), Ref("space")];
    SeqTwo(env, o[0], o[1]);
    SeqTwo(env, c[0], c[1]);
    SeqAppend(env, inner, c);
    SeqAppend(env, o, inner + c);
    assert o + inner + c == o + (inner + c);
    BodyOfSeq(env, o + inner + c);
    CatAssoc(iset{open}, ItemLang(env, Ref("space")), SeqLang(env, inner + c));
  }

  /** The required entries, comma-joined. */
  method RequiredText(kvNames: map<string, string>, required: seq<string>) returns (b: Body)
    requires Known(kvNames, required)
    ensures NoBar(b)
    ensures "space" !in kvNames.Values ==>
              PlainBody(kvNames.Values, b) && WordOf(kvNames.Values, b) == Named(kvNames, required)
    ensures forall env: Env :: SeqLang(env, b) == Between(Comma(env), EntriesIn(env, kvNames), required)
  {
    b := [];
    for i := 0 to |required|
      invariant NoBar(b) && (i == 0 ==> b == [])
      invariant "space" !in kvNames.Values ==>
                  PlainBody(kvNames.Values, b) && WordOf(kvNames.Values, b) == Named(kvNames, required[..i])
      invariant forall env: Env :: SeqLang(env, b) == Between(Comma(env), EntriesIn(env, kvNames),
                required[..i])
    {
      ghost var before := b;
      var kv := Ref(kvNames[required[i]]);
      if i > 0 {
        b := b + COMMA;
      }
      b := b + [kv];
      forall env: Env ensures SeqLang(env, b) == Between(Comma(env), EntriesIn(env, kvNames),
          required[..i + 1]) {
        NextRequired(env, kvNames, required[..i], required[i], before, b);
        assert required[..i + 1] == required[..i] + [required[i]];
      }
      if "space" !in kvNames.Values { RequiredWord(kvNames, required, i, before, b); }
    }
    assert required[..|required|] == required;
  }

  lemma RequiredWord(kvNames: map<string, string>, required: seq<string>, i: nat, before: Body, b: Body)
    requires Known(kvNames, required) && i < |required| && "space" !in kvNames.Values && (i == 0 ==> before == [])
    requires PlainBody(kvNames.Values, before) && WordOf(kvNames.Values, before) == Named(kvNames, required[..i])
    requires b == (if i > 0 then before + COMMA else before) + [Ref(kvNames[required[i]])]
    ensures PlainBody(kvNames.Values, b) && WordOf(kvNames.Values, b) == Named(kvNames, required[..i + 1])
  {
    var kvs, kv := kvNames.Values, kvNames[required[i]];
    var one, none: Body := [Ref(kv)], [];
    assert kv in kvs && one[1..] == none && WordOf(kvs, one) == [kv] + WordOf(kvs, none);
    CommaWord(kvs);
    WordAppend(kvs, before, COMMA);
    WordAppend(kvs, if i > 0 then before + COMMA else before, one);
    assert Named(kvNames, required[..i + 1]) == Named(kvNames, required[..i]) + [kv];
  }

  lemma {:induction false} NextRequired(env: Env, kvNames: map<string, string>, done: seq<string>, k: string,
      before: Body, b: Body)
    requires k in kvNames && NoBar(before)
    requires b == (if done == [] then before else before + COMMA) + [Ref(kvNames[k])]
    requires done == [] ==> before == []
    requires SeqLang(env, before) == Between(Comma(env), EntriesIn(env, kvNames), done)
    ensures SeqLang(env, b) == Between(Comma(env), EntriesIn(env, kvNames), done + [k])
  {
    var comma, l, kv := Comma(env), EntriesIn(env, kvNames), Ref(kvNames[k]);
    SeqOne(env, kv);
    if done == [] {
      assert b == [kv] && done + [k] == [k] && [k][1..] == [];
      assert Between(comma, l, [k]) == l(k) by { CatEps(l(k)); }
    } else {
      assert b == before + (COMMA + [kv]);
      CommaText(env);
      SeqAppend(env, COMMA, [kv]);
      SeqAppend(env, before, COMMA + [kv]);
      BetweenAppend(comma, l, done, [k]);
      OneAfter(comma, l, k);
    }
  }

  lemma {:induction false} OneAfter(comma: Lang, l: Entries, k: string)
    ensures After(comma, l, [k]) == Cat(comma, l(k))
  {
    assert [k][1..] == [];
    CatEps(Cat(comma, l(k)));
  }

  /** What it takes for the derivations to be counted: distinct keys, each with a rule of its own. */
  ghost predicate Separate(t: Table, kvNames: map<string, string>, optional: seq<string>) {
    NoStar(optional) && Distinct(optional) && Distinguished(t, kvNames) && SpaceStays(t)
  }

  ghost predicate SpaceStays(t: Table) {
    "space" in t && t["space"] == SPACE_RULE
  }

  lemma DistinguishedLater(t: Table, t': Table, kvNames: map<string, string>)
    requires Extends(t, t') && Distinguished(t, kvNames) && SpaceStays(t)
    ensures Distinguished(t', kvNames) && SpaceStays(t') && "space" !in kvNames.Values
  {
  }

  /** The entries without their braces. */
  method MembersText(t: RuleTable, name: string, kvNames: map<string, string>, required: seq<string>,
      optional: seq<string>, additional: bool)
    returns (inner: Body)
    requires Known(kvNames, required) && Known(kvNames, optional) && (additional ==> STAR in kvNames)
    modifies t
    ensures (old(t.Valid()) ==> t.Valid()) && RestsAdded(name, optional, old(t.rules), t.rules)
    ensures NoBar(inner)
    ensures Separate(old(t.rules), kvNames, optional) ==>
              MembersCounted(t.rules, kvNames, required, optional, additional, inner)
    ensures NoStar(optional) ==> forall env: Env :: Solves(env, t.rules) ==>
              SeqLang(env, inner) == Members(Comma(env), EntriesIn(env, kvNames), required, optional,
                  additional)
  {
    inner := RequiredText(kvNames, required);
    var ks := Keys(optional, additional);
    if ks != [] {
      ghost var before := inner;
      var alts := Alternatives(t, name, kvNames, ks);
      inner := inner + [Rep(Choice(required, alts), 0, Upto(1))];
      if Separate(old(t.rules), kvNames, optional) {
        DistinguishedLater(old(t.rules), t.rules, kvNames);
        MembersAreCounted(t.rules, kvNames, required, optional, additional, before, alts);
      }
      forall env: Env | Solves(env, t.rules) && NoStar(optional)
        ensures SeqLang(env, inner) == Members(Comma(env), EntriesIn(env, kvNames), required, optional,
                additional)
      {
        if required == [] {
          OnlyOptional(env, kvNames, optional, additional, before, alts);
        } else {
          AfterRequired(env, kvNames, required, optional, additional, before, alts);
        }
      }
    } else {
      if Separate(old(t.rules), kvNames, optional) { RequiredAreCounted(t.rules, kvNames, required, inner); }
      forall env: Env
        ensures SeqLang(env, inner) == Members(Comma(env), EntriesIn(env, kvNames), required, optional,
                additional)
      {
        NoOptionalMembers(Comma(env), EntriesIn(env, kvNames), required);
      }
    }
  }

  /** The text of the object rule, once every entry has its rule: all required entries in order, then a selection of
      the optional ones. */
  method ObjectText(t: RuleTable, name: string, kvNames: map<string, string>, required: seq<string>,
      optional: seq<string>, additional: bool)
    returns (rule: Body)
    requires Known(kvNames, required) && Known(kvNames, optional) && (additional ==> STAR in kvNames)
    modifies t
    ensures (old(t.Valid()) ==> t.Valid()) && RestsAdded(name, optional, old(t.rules), t.rules)
    ensures Separate(old(t.rules), kvNames, optional) ==>
              RuleIsUnambiguous(t.rules, kvNames, required, optional, additional, rule)
    ensures NoStar(optional) ==> forall env: Env :: Solves(env, t.rules) ==>
              BodyLang(env, rule) == Enclosed(env, "{", Members(Comma(env), EntriesIn(env, kvNames),
                  required, optional, additional), "}")
  {
    var inner := MembersText(t, name, kvNames, required, optional, additional);
    rule := [Lit("{"), Ref("space")] + inner + [Lit("}"), Ref("space")];
    if Separate(old(t.rules), kvNames, optional) {
      DistinguishedLater(old(t.rules), t.rules, kvNames);
      BracesCounted(t.rules, kvNames, required, optional, additional, inner);
    }
    forall env: Env | Solves(env, t.rules) && NoStar(optional)
      ensures BodyLang(env, rule) == Enclosed(env, "{", Members(Comma(env), EntriesIn(env, kvNames),
              required, optional, additional), "}")
    {
      EnclosedText(env, "{", inner, "}");
    }
  }

  lemma {:induction false} NoOptionalMembers(comma: Lang, l: Entries, required: seq<string>)
    ensures Between(comma, l, required) == Members(comma, l, required, [], false)
  {
    forall w ensures w in Between(comma, l, required) <==> IsMembers(comma, l, required, [], false, w) {
      NothingSelected([], false);
      assert required + [] == required;
      if sel :| Selection([], false, sel) && w in Between(comma, l, required + sel) {
        StarsOnly(false, sel);
        assert sel == [];
      }
    }
  }

  lemma {:induction false} OptItem(env: Env, before: Body, choice: Item)
    requires NoBar(before)
    ensures SeqLang(env, before + [Rep(choice, 0, Upto(1))]) == Cat(SeqLang(env, before), Eps() + ItemLang(env, choice))
  {
    var it := Rep(choice, 0, Upto(1));
    SeqOne(env, it);
    SeqAppend(env, before, [it]);
    OptLang(ItemLang(env, choice));
  }

  lemma {:induction false} OnlyOptional(env: Env, kvNames: map<string, string>, optional: seq<string>,
      additional: bool, before: Body, alts: Body)
    requires NoStar(optional) && NoBar(before)
    requires SeqLang(env, before) == Between(Comma(env), EntriesIn(env, kvNames), [])
    requires BodyLang(env, alts) == StartsLang(Comma(env), EntriesIn(env, kvNames), Keys(optional, additional))
    ensures SeqLang(env, before + [Rep(Group(alts), 0, Upto(1))])
            == Members(Comma(env), EntriesIn(env, kvNames), [], optional, additional)
  {
    var m := Members(Comma(env), EntriesIn(env, kvNames), [], optional, additional);
    OptItem(env, before, Group(alts));
    assert Eps() + ItemLang(env, Group(alts)) == m by {
      OptionalMembers(Comma(env), EntriesIn(env, kvNames), optional, additional);
    }
    assert Cat(Eps(), m) == m by { CatEps(m); }
  }

  lemma {:induction false} AfterRequired(env: Env, kvNames: map<string, string>, required: seq<string>,
      optional: seq<string>,
                                          additional: bool, before: Body, alts: Body)
    requires NoStar(optional) && NoBar(before) && required != []
    requires SeqLang(env, before) == Between(Comma(env), EntriesIn(env, kvNames), required)
    requires BodyLang(env, alts) == StartsLang(Comma(env), EntriesIn(env, kvNames), Keys(optional, additional))
    ensures SeqLang(env, before + [Rep(Group(COMMA + [Group(alts)]), 0, Upto(1))])
            == Members(Comma(env), EntriesIn(env, kvNames), required, optional, additional)
  {
    var comma, l := Comma(env), EntriesIn(env, kvNames);
    var choice := Group(COMMA + [Group(alts)]);
    OptItem(env, before, choice);
    CommaGroup(env, alts);
    CommaStarts(comma, l, optional, additional);
    RequiredMembers(comma, l, required, optional, additional);
  }

  lemma {:induction false} CommaGroup(env: Env, alts: Body)
    ensures ItemLang(env, Group(COMMA + [Group(alts)])) == Cat(Comma(env), BodyLang(env, alts))
  {
    CommaText(env);
    SeqOne(env, Group(alts));
    SeqAppend(env, COMMA, [Group(alts)]);
    BodyOfSeq(env, COMMA + [Group(alts)]);
  }
}
