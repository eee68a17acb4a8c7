/** The keys of a JSON object, required and optional, as the object rule writes them (`_build_object_rule` of
    json-schema-to-grammar.cpp): which sequences there are, and what the rules for them denote. */
module ObjectKeys {
  import opened Gbnf

  // ---------------------------------------------------------------- which keys, in which order

  /** The name under which additional entries go. */
  const STAR := "*"

  const COMMA: Body := [Lit(","), Ref("space")]

  /** What stands between two entries, or two items of an array. */
  ghost function Comma(env: Env): Lang { Cat(iset{","}, ItemLang(env, Ref("space"))) }

  lemma {:induction false} CommaText(env: Env)
    ensures SeqLang(env, COMMA) == Comma(env)
  {
    SeqTwo(env, COMMA[0], COMMA[1]);
  }

  function Stars(n: nat): seq<string> { seq(n, _ => STAR) }

  /** `sub` keeps some of `s`, in order. */
  predicate Subsequence(sub: seq<string>, s: seq<string>) {
    sub == []
    || (s != [] && ((sub[0] == s[0] && Subsequence(sub[1..], s[1..])) || Subsequence(sub, s[1..])))
  }

  /** The optional keys of an object: some of the declared ones in order, then additional entries if allowed. */
  ghost predicate Selection(optional: seq<string>, additional: bool, sel: seq<string>) {
    exists sub, n: nat :: SelectedAs(optional, additional, sel, sub, n)
  }

  ghost predicate SelectedAs(optional: seq<string>, additional: bool, sel: seq<string>, sub: seq<string>, n: nat) {
    Subsequence(sub, optional) && (additional || n == 0) && sel == sub + Stars(n)
  }

  // ---------------------------------------------------------------- their languages

  /** What each key's entry denotes. */
  type Entries = string -> Lang

  /** Entries, each after a comma. */
  ghost function After(comma: Lang, l: Entries, sel: seq<string>): Lang {
    if sel == [] then Eps() else Cat(Cat(comma, l(sel[0])), After(comma, l, sel[1..]))
  }

  /** Entries with commas between them. */
  ghost function Between(comma: Lang, l: Entries, sel: seq<string>): Lang {
    if sel == [] then Eps() else Cat(l(sel[0]), After(comma, l, sel[1..]))
  }

  ghost predicate IsMembers(comma: Lang, l: Entries, required: seq<string>, optional: seq<string>, additional: bool,
      w: string) {
    exists sel :: Selection(optional, additional, sel) && w in Between(comma, l, required + sel)
  }

  /** All the required entries in order, then a selection of the others. */
  ghost function Members(comma: Lang, l: Entries, required: seq<string>, optional: seq<string>,
      additional: bool): Lang {
    iset w | IsMembers(comma, l, required, optional, additional, w)
  }

  // ---------------------------------------------------------------- what the rules denote

  /** The `-rest` rule for the keys `ks`. */
  ghost function RestLang(comma: Lang, l: Entries, ks: seq<string>): Lang {
    if ks == [] then Eps()
    else Cat(RepLang(Cat(comma, l(ks[0])), 0, if ks[0] == STAR then Unbounded else Upto(1)), RestLang(comma, l,
        ks[1..]))
  }

  /** The alternative that starts with the first of `ks`. */
  ghost function StartLang(comma: Lang, l: Entries, ks: seq<string>): Lang
    requires ks != []
  {
    Cat(l(ks[0]), Cat(if ks[0] == STAR then RepLang(Cat(comma, l(STAR)), 0, Unbounded) else Eps(), RestLang(comma, l,
        ks[1..])))
  }

  ghost function StartsLang(comma: Lang, l: Entries, ks: seq<string>): Lang {
    if ks == [] then iset{} else StartLang(comma, l, ks) + StartsLang(comma, l, ks[1..])
  }

  function Keys(optional: seq<string>, additional: bool): seq<string> {
    optional + if additional then [STAR] else []
  }

  predicate NoStar(ks: seq<string>) {
    forall i :: 0 <= i < |ks| ==> ks[i] != STAR
  }

  lemma {:induction false} AfterAppend(comma: Lang, l: Entries, a: seq<string>, b: seq<string>)
    ensures After(comma, l, a + b) == Cat(After(comma, l, a), After(comma, l, b))
  {
    if a == [] {
      assert a + b == b;
      CatEps(After(comma, l, b));
    } else {
      assert (a + b)[1..] == a[1..] + b;
      AfterAppend(comma, l, a[1..], b);
      CatAssoc(Cat(comma, l(a[0])), After(comma, l, a[1..]), After(comma, l, b));
    }
  }

  lemma {:induction false} AfterStars(comma: Lang, l: Entries, n: nat)
    ensures After(comma, l, Stars(n)) == Pow(Cat(comma, l(STAR)), n)
  {
    if n > 0 {
      assert Stars(n)[1..] == Stars(n - 1);
      AfterStars(comma, l, n - 1);
    }
  }

  ghost predicate InRest(comma: Lang, l: Entries, optional: seq<string>, additional: bool, w: string) {
    exists sel :: Selection(optional, additional, sel) && w in After(comma, l, sel)
  }

  /** Unfolding the rule at a declared key: skip it or take it. */
  lemma {:induction false} RestUnfolds(comma: Lang, l: Entries, optional: seq<string>, additional: bool)
    requires optional != [] && optional[0] != STAR
    ensures var r := RestLang(comma, l, Keys(optional[1..], additional));
            RestLang(comma, l, Keys(optional, additional)) == r + Cat(Cat(comma, l(optional[0])), r)
  {
    assert Keys(optional, additional)[1..] == Keys(optional[1..], additional);
    OptCat(Cat(comma, l(optional[0])), RestLang(comma, l, Keys(optional[1..], additional)));
  }

  lemma {:induction false} RestOnlySelections(comma: Lang, l: Entries, optional: seq<string>, additional: bool,
      w: string)
    requires NoStar(optional) && w in RestLang(comma, l, Keys(optional, additional))
    ensures InRest(comma, l, optional, additional, w)
    decreases |optional|
  {
    hide RestLang, After, Selection;
    if optional == [] {
      NoOptionalRest(comma, l, additional, w);
    } else {
      var x, rest := Cat(comma, l(optional[0])), optional[1..];
      var r := RestLang(comma, l, Keys(rest, additional));
      RestUnfolds(comma, l, optional, additional);
      if w in r {
        RestOnlySelections(comma, l, rest, additional, w);
        var sel :| Selection(rest, additional, sel) && w in After(comma, l, sel);
        SkipKey(optional, additional, sel);
      } else {
        var j :| SplitAt(x, r, w, j);
        RestOnlySelections(comma, l, rest, additional, w[j..]);
        var sel :| Selection(rest, additional, sel) && w[j..] in After(comma, l, sel);
        TakeKey(optional, additional, sel);
        TakenWord(comma, l, optional[0], sel, w, j);
      }
    }
  }

  lemma TakenWord(comma: Lang, l: Entries, k: string, sel: seq<string>, w: string, j: int)
    requires SplitAt(Cat(comma, l(k)), After(comma, l, sel), w, j)
    ensures w in After(comma, l, [k] + sel)
  {
    assert ([k] + sel)[1..] == sel;
    assert w in Cat(Cat(comma, l(k)), After(comma, l, sel));
  }

  lemma {:induction false} RestAllSelections(comma: Lang, l: Entries, optional: seq<string>, additional: bool,
      sel: seq<string>, w: string)
    requires NoStar(optional) && Selection(optional, additional, sel) && w in After(comma, l, sel)
    ensures w in RestLang(comma, l, Keys(optional, additional))
    decreases |optional|
  {
    if optional == [] {
      NoOptionalRest(comma, l, additional, w);
    } else {
      var x, rest := Cat(comma, l(optional[0])), optional[1..];
      var r := RestLang(comma, l, Keys(rest, additional));
      RestUnfolds(comma, l, optional, additional);
      TakenOrSkipped(optional, additional, sel);
      if Selection(rest, additional, sel) {
        RestAllSelections(comma, l, rest, additional, sel, w);
      } else {
        var j :| SplitAt(x, After(comma, l, sel[1..]), w, j);
        RestAllSelections(comma, l, rest, additional, sel[1..], w[j..]);
        assert SplitAt(x, r, w, j);
      }
    }
  }

  /** The shared rules let through exactly the selections, each entry after a comma. */
  lemma RestIsSelections(comma: Lang, l: Entries, optional: seq<string>, additional: bool, w: string)
    requires NoStar(optional)
    ensures w in RestLang(comma, l, Keys(optional, additional)) <==> InRest(comma, l, optional, additional, w)
  {
    if w in RestLang(comma, l, Keys(optional, additional)) {
      RestOnlySelections(comma, l, optional, additional, w);
    }
    if sel :| Selection(optional, additional, sel) && w in After(comma, l, sel) {
      RestAllSelections(comma, l, optional, additional, sel, w);
    }
  }

  lemma OptCat(x: Lang, r: Lang)
    ensures Cat(RepLang(x, 0, Upto(1)), r) == r + Cat(x, r)
  {
    OptLang(x);
    CatUnion(r, Eps(), x);
    CatUnion(Eps(), x, r);
    CatEps(r);
  }

  lemma TakeKey(optional: seq<string>, additional: bool, sel: seq<string>)
    requires optional != [] && Selection(optional[1..], additional, sel)
    ensures Selection(optional, additional, [optional[0]] + sel)
  {
    var sub, n: nat :| SelectedAs(optional[1..], additional, sel, sub, n);
    assert ([optional[0]] + sub)[1..] == sub;
    assert [optional[0]] + sel == ([optional[0]] + sub) + Stars(n);
    assert SelectedAs(optional, additional, [optional[0]] + sel, [optional[0]] + sub, n);
  }

  lemma SkipKey(optional: seq<string>, additional: bool, sel: seq<string>)
    requires optional != [] && Selection(optional[1..], additional, sel)
    ensures Selection(optional, additional, sel)
  {
    var sub, n: nat :| SelectedAs(optional[1..], additional, sel, sub, n);
    assert SelectedAs(optional, additional, sel, sub, n);
  }

  lemma TakenOrSkipped(optional: seq<string>, additional: bool, sel: seq<string>)
    requires optional != [] && Selection(optional, additional, sel)
    ensures || Selection(optional[1..], additional, sel)
            || (sel != [] && sel[0] == optional[0] && Selection(optional[1..], additional, sel[1..]))
  {
    var sub, n: nat :| SelectedAs(optional, additional, sel, sub, n);
    if sub == [] || Subsequence(sub, optional[1..]) {
      assert SelectedAs(optional[1..], additional, sel, sub, n);
    } else {
      assert sel[1..] == sub[1..] + Stars(n);
      assert SelectedAs(optional[1..], additional, sel[1..], sub[1..], n);
    }
  }

  lemma StarsOnly(additional: bool, sel: seq<string>)
    ensures Selection([], additional, sel) <==> exists n: nat :: sel == Stars(n) && (additional || n == 0)
  {
    if sub, n: nat :| SelectedAs([], additional, sel, sub, n) {
      assert sel == Stars(n);
    }
    if n: nat :| sel == Stars(n) && (additional || n == 0) {
      assert [] + Stars(n) == Stars(n);
      assert SelectedAs([], additional, sel, [], n);
    }
  }

  lemma RestOfNone(comma: Lang, l: Entries, additional: bool)
    ensures RestLang(comma, l, Keys([], additional))
            == if additional then RepLang(Cat(comma, l(STAR)), 0, Unbounded) else Eps()
  {
    var ks := Keys([], additional);
    if additional {
      assert ks == [STAR] && ks[1..] == [];
      assert RestLang(comma, l, ks[1..]) == Eps();
      assert RestLang(comma, l, ks) == RepLang(Cat(comma, l(STAR)), 0, Unbounded) by {
        CatEps(RepLang(Cat(comma, l(STAR)), 0, Unbounded));
      }
    } else {
      assert ks == [];
    }
  }

  lemma NoOptionalRest(comma: Lang, l: Entries, additional: bool, w: string)
    ensures w in RestLang(comma, l, Keys([], additional)) <==> InRest(comma, l, [], additional, w)
  {
    var x := Cat(comma, l(STAR));
    RestOfNone(comma, l, additional);
    forall n: nat ensures After(comma, l, Stars(n)) == Pow(x, n) { AfterStars(comma, l, n); }
    if w in RestLang(comma, l, Keys([], additional)) {
      var n: nat := 0;
      if additional { n :| Allowed(n, 0, Unbounded) && w in Pow(x, n); }
      StarsOnly(additional, Stars(n));
    }
    if sel :| Selection([], additional, sel) && w in After(comma, l, sel) {
      StarsOnly(additional, sel);
      var n: nat :| sel == Stars(n) && (additional || n == 0);
      assert Allowed(n, 0, Unbounded);
    }
  }

  // ---------------------------------------------------------------- the alternatives

  ghost predicate InStarts(comma: Lang, l: Entries, optional: seq<string>, additional: bool, w: string) {
    exists sel :: sel != [] && Selection(optional, additional, sel) && w in Between(comma, l, sel)
  }

  lemma {:induction false} StartsUnfold(comma: Lang, l: Entries, optional: seq<string>, additional: bool)
    requires optional != [] && optional[0] != STAR
    ensures StartsLang(comma, l, Keys(optional, additional))
            == Cat(l(optional[0]), RestLang(comma, l, Keys(optional[1..], additional))) + StartsLang(comma, l,
                Keys(optional[1..], additional))
  {
    var ks, rest := Keys(optional, additional), Keys(optional[1..], additional);
    assert ks[1..] == rest;
    assert StartLang(comma, l, ks) == Cat(l(optional[0]), RestLang(comma, l, rest)) by { CatEps(RestLang(comma, l,
           rest)); }
  }

  lemma StartsOfNone(comma: Lang, l: Entries, additional: bool)
    ensures StartsLang(comma, l, Keys([], additional))
            == if additional then Cat(l(STAR), RepLang(Cat(comma, l(STAR)), 0, Unbounded)) else iset{}
  {
    var ks := Keys([], additional);
    if additional {
      var x, none := Cat(comma, l(STAR)), ks[1..];
      assert ks == [STAR] && none == [];
      assert RestLang(comma, l, none) == Eps() && StartsLang(comma, l, none) == iset{};
      assert StartLang(comma, l, ks) == Cat(l(STAR), RepLang(x, 0, Unbounded)) by { CatEps(RepLang(x, 0, Unbounded)); }
    } else {
      assert ks == [];
    }
  }

  lemma NoOptionalStarts(comma: Lang, l: Entries, additional: bool, w: string)
    ensures w in StartsLang(comma, l, Keys([], additional)) <==> InStarts(comma, l, [], additional, w)
  {
    var x := Cat(comma, l(STAR));
    StartsOfNone(comma, l, additional);
    forall n: nat ensures After(comma, l, Stars(n)) == Pow(x, n) { AfterStars(comma, l, n); }
    forall n: nat | n > 0 ensures Between(comma, l, Stars(n)) == Cat(l(STAR), Pow(x, n - 1)) {
      assert Stars(n)[1..] == Stars(n - 1);
    }
    if w in StartsLang(comma, l, Keys([], additional)) {
      var j :| SplitAt(l(STAR), RepLang(x, 0, Unbounded), w, j);
      var n: nat :| Allowed(n, 0, Unbounded) && w[j..] in Pow(x, n);
      StarsOnly(additional, Stars(n + 1));
      assert SplitAt(l(STAR), Pow(x, n), w, j);
    }
    if sel :| sel != [] && Selection([], additional, sel) && w in Between(comma, l, sel) {
      StarsOnly(additional, sel);
      var n: nat :| sel == Stars(n) && (additional || n == 0);
      var j :| SplitAt(l(STAR), Pow(x, n - 1), w, j);
      assert Allowed(n - 1, 0, Unbounded);
      assert SplitAt(l(STAR), RepLang(x, 0, Unbounded), w, j);
    }
  }

  lemma {:induction false} StartsOnlySelections(comma: Lang, l: Entries, optional: seq<string>, additional: bool,
      w: string)
    requires NoStar(optional) && w in StartsLang(comma, l, Keys(optional, additional))
    ensures InStarts(comma, l, optional, additional, w)
    decreases |optional|
  {
    if optional == [] {
      NoOptionalStarts(comma, l, additional, w);
    } else {
      var k, rest := optional[0], optional[1..];
      var r := RestLang(comma, l, Keys(rest, additional));
      StartsUnfold(comma, l, optional, additional);
      if w in StartsLang(comma, l, Keys(rest, additional)) {
        StartsOnlySelections(comma, l, rest, additional, w);
        var sel :| sel != [] && Selection(rest, additional, sel) && w in Between(comma, l, sel);
        SkipKey(optional, additional, sel);
      } else {
        var j :| SplitAt(l(k), r, w, j);
        RestOnlySelections(comma, l, rest, additional, w[j..]);
        var sel :| Selection(rest, additional, sel) && w[j..] in After(comma, l, sel);
        TakeKey(optional, additional, sel);
        StartedWord(comma, l, k, sel, w, j);
      }
    }
  }

  lemma StartedWord(comma: Lang, l: Entries, k: string, sel: seq<string>, w: string, j: int)
    requires SplitAt(l(k), After(comma, l, sel), w, j)
    ensures w in Between(comma, l, [k] + sel)
  {
    assert ([k] + sel)[1..] == sel;
    assert w in Cat(l(k), After(comma, l, sel));
  }

  lemma {:induction false} StartsAllSelections(comma: Lang, l: Entries, optional: seq<string>, additional: bool,
      sel: seq<string>, w: string)
    requires NoStar(optional) && sel != [] && Selection(optional, additional, sel) && w in Between(comma, l, sel)
    ensures w in StartsLang(comma, l, Keys(optional, additional))
    decreases |optional|
  {
    if optional == [] {
      NoOptionalStarts(comma, l, additional, w);
    } else {
      var k, rest := optional[0], optional[1..];
      StartsUnfold(comma, l, optional, additional);
      TakenOrSkipped(optional, additional, sel);
      if Selection(rest, additional, sel) {
        StartsAllSelections(comma, l, rest, additional, sel, w);
      } else {
        var j :| SplitAt(l(k), After(comma, l, sel[1..]), w, j);
        RestAllSelections(comma, l, rest, additional, sel[1..], w[j..]);
        assert SplitAt(l(k), RestLang(comma, l, Keys(rest, additional)), w, j);
      }
    }
  }

  // ---------------------------------------------------------------- required and optional together

  lemma {:induction false} BetweenAppend(comma: Lang, l: Entries, a: seq<string>, b: seq<string>)
    requires a != []
    ensures Between(comma, l, a + b) == Cat(Between(comma, l, a), After(comma, l, b))
  {
    assert (a + b)[1..] == a[1..] + b;
    AfterAppend(comma, l, a[1..], b);
    CatAssoc(l(a[0]), After(comma, l, a[1..]), After(comma, l, b));
  }

  lemma {:induction false} AfterIsCommaBetween(comma: Lang, l: Entries, sel: seq<string>)
    requires sel != []
    ensures After(comma, l, sel) == Cat(comma, Between(comma, l, sel))
  {
    CatAssoc(comma, l(sel[0]), After(comma, l, sel[1..]));
  }

  /** An optional comma and alternative is what the shared rules denote. */
  lemma {:induction false} CommaStarts(comma: Lang, l: Entries, optional: seq<string>, additional: bool)
    requires NoStar(optional)
    ensures Eps() + Cat(comma, StartsLang(comma, l, Keys(optional, additional))) == RestLang(comma, l, Keys(optional,
            additional))
  {
    var ks := Keys(optional, additional);
    var starts := StartsLang(comma, l, ks);
    forall w ensures w in Eps() + Cat(comma, starts) <==> w in RestLang(comma, l, ks) {
      if w == "" {
        NothingSelected(optional, additional);
        RestAllSelections(comma, l, optional, additional, [], w);
      }
      if w in Cat(comma, starts) {
        var j :| SplitAt(comma, starts, w, j);
        StartsOnlySelections(comma, l, optional, additional, w[j..]);
        var sel :| sel != [] && Selection(optional, additional, sel) && w[j..] in Between(comma, l, sel);
        AfterIsCommaBetween(comma, l, sel);
        assert SplitAt(comma, Between(comma, l, sel), w, j);
        RestAllSelections(comma, l, optional, additional, sel, w);
      }
      if w in RestLang(comma, l, ks) {
        RestOnlySelections(comma, l, optional, additional, w);
        var sel :| Selection(optional, additional, sel) && w in After(comma, l, sel);
        if sel != [] {
          AfterIsCommaBetween(comma, l, sel);
          var j :| SplitAt(comma, Between(comma, l, sel), w, j);
          StartsAllSelections(comma, l, optional, additional, sel, w[j..]);
          assert SplitAt(comma, starts, w, j);
        }
      }
    }
  }

  lemma NothingSelected(optional: seq<string>, additional: bool)
    ensures Selection(optional, additional, [])
  {
    assert [] + Stars(0) == [];
    assert SelectedAs(optional, additional, [], [], 0);
  }

  /** Without required entries: nothing, or one of the alternatives. */
  lemma {:induction false} OptionalMembers(comma: Lang, l: Entries, optional: seq<string>, additional: bool)
    requires NoStar(optional)
    ensures Eps() + StartsLang(comma, l, Keys(optional, additional)) == Members(comma, l, [], optional, additional)
  {
    var ks := Keys(optional, additional);
    forall w ensures w in Eps() + StartsLang(comma, l, ks) <==> IsMembers(comma, l, [], optional, additional, w) {
      if w == "" {
        NothingSelected(optional, additional);
        var none: seq<string> := [];
        assert none + none == none && w in Between(comma, l, none);
      }
      if w in StartsLang(comma, l, ks) {
        StartsOnlySelections(comma, l, optional, additional, w);
        var sel :| sel != [] && Selection(optional, additional, sel) && w in Between(comma, l, sel);
        assert [] + sel == sel;
      }
      if sel :| Selection(optional, additional, sel) && w in Between(comma, l, [] + sel) {
        assert [] + sel == sel;
        if sel != [] { StartsAllSelections(comma, l, optional, additional, sel, w); }
      }
    }
  }

  /** With required entries: those, and then what the shared rules denote. */
  lemma {:induction false} RequiredMembers(comma: Lang, l: Entries, required: seq<string>, optional: seq<string>,
      additional: bool)
    requires NoStar(optional) && required != []
    ensures Cat(Between(comma, l, required), RestLang(comma, l, Keys(optional, additional)))
            == Members(comma, l, required, optional, additional)
  {
    var b, r := Between(comma, l, required), RestLang(comma, l, Keys(optional, additional));
    forall w ensures w in Cat(b, r) <==> IsMembers(comma, l, required, optional, additional, w) {
      if w in Cat(b, r) {
        var j :| SplitAt(b, r, w, j);
        RestOnlySelections(comma, l, optional, additional, w[j..]);
        var sel :| Selection(optional, additional, sel) && w[j..] in After(comma, l, sel);
        BetweenAppend(comma, l, required, sel);
        assert SplitAt(b, After(comma, l, sel), w, j);
      }
      if sel :| Selection(optional, additional, sel) && w in Between(comma, l, required + sel) {
        BetweenAppend(comma, l, required, sel);
        var j :| SplitAt(b, After(comma, l, sel), w, j);
        RestAllSelections(comma, l, optional, additional, sel, w[j..]);
        assert SplitAt(b, r, w, j);
      }
    }
  }

  // ---------------------------------------------------------------- each selection has one derivation

  /** In how many ways the shared rules for `ks` produce the keys `sel`. */
  function RestCount(ks: seq<string>, sel: seq<string>): nat {
    if ks == [] then (if sel == [] then 1 else 0)
    else if ks[0] == STAR then (if sel == [] then 1 else if sel[0] == STAR then RestCount(ks, sel[1..]) else 0)
    else RestCount(ks[1..], sel) + (if sel != [] && sel[0] == ks[0] then RestCount(ks[1..], sel[1..]) else 0)
  }

  /** In how many ways the alternative that starts with the first of `ks` does. */
  function StartCount(ks: seq<string>, sel: seq<string>): nat
    requires ks != []
  {
    if sel == [] || sel[0] != ks[0] then 0 else RestCount(if ks[0] == STAR then ks else ks[1..], sel[1..])
  }

  /** In how many ways the alternatives do. */
  function StartsCount(ks: seq<string>, sel: seq<string>): nat {
    if ks == [] then 0 else StartCount(ks, sel) + StartsCount(ks[1..], sel)
  }

  predicate Distinct(ks: seq<string>) {
    forall i, j :: 0 <= i < j < |ks| ==> ks[i] != ks[j]
  }

  lemma {:induction false} NoOtherStart(ks: seq<string>, sel: seq<string>)
    requires sel != [] && sel[0] !in ks
    ensures RestCount(ks, sel) == 0 && StartsCount(ks, sel) == 0
  {
    if ks != [] {
      assert ks[0] in ks;
      if ks[0] != STAR || sel[0] == STAR { NoOtherStart(ks[1..], sel); }
      NoOtherStart(ks[1..], sel);
    }
  }

  lemma {:induction false} OneStarCount(sel: seq<string>)
    ensures RestCount([STAR], sel) == if sel == Stars(|sel|) then 1 else 0
  {
    if sel != [] {
      OneStarCount(sel[1..]);
      assert Stars(|sel|)[1..] == Stars(|sel| - 1);
      if sel[0] == STAR && sel[1..] == Stars(|sel| - 1) { assert sel == Stars(|sel|); }
    }
  }

  /** The shared rules produce each selection in exactly one way, and nothing else. */
  lemma {:induction false} OneRestDerivation(optional: seq<string>, additional: bool, sel: seq<string>)
    requires NoStar(optional) && Distinct(optional)
    ensures RestCount(Keys(optional, additional), sel) == if Selection(optional, additional, sel) then 1 else 0
    decreases |optional|
  {
    var ks := Keys(optional, additional);
    if optional == [] {
      StarsOnly(additional, sel);
      assert ks == if additional then [STAR] else [];
      OneStarCount(sel);
      if sel == Stars(|sel|) && additional { assert Selection([], additional, sel); }
      if sel == [] { assert sel == Stars(0); }
    } else {
      var k, rest := optional[0], optional[1..];
      assert ks[1..] == Keys(rest, additional);
      OneRestDerivation(rest, additional, sel);
      if Selection(rest, additional, sel) { SkipKey(optional, additional, sel); }
      if Selection(optional, additional, sel) { TakenOrSkipped(optional, additional, sel); }
      if sel != [] && sel[0] == k {
        OneRestDerivation(rest, additional, sel[1..]);
        assert k !in Keys(rest, additional);
        NoOtherStart(Keys(rest, additional), sel);
        if Selection(rest, additional, sel[1..]) {
          TakeKey(optional, additional, sel[1..]);
          assert [k] + sel[1..] == sel;
        }
      }
    }
  }

  /** So do the alternatives: with distinct names the object rule is unambiguous in the keys. */
  lemma {:induction false} OneDerivation(optional: seq<string>, additional: bool, sel: seq<string>)
    requires NoStar(optional) && Distinct(optional) && sel != []
    ensures StartsCount(Keys(optional, additional), sel) == if Selection(optional, additional, sel) then 1 else 0
    decreases |optional|
  {
    var ks := Keys(optional, additional);
    if optional == [] {
      StarsOnly(additional, sel);
      OneRestDerivation([], additional, sel[1..]);
      StarsOnly(additional, sel[1..]);
      StarsTail(sel);
      assert ks == if additional then [STAR] else [];
      if additional { assert ks[1..] == []; }
    } else {
      var k, rest := optional[0], optional[1..];
      assert ks[1..] == Keys(rest, additional);
      OneDerivation(rest, additional, sel);
      if Selection(rest, additional, sel) { SkipKey(optional, additional, sel); }
      if Selection(optional, additional, sel) { TakenOrSkipped(optional, additional, sel); }
      if sel[0] == k {
        OneRestDerivation(rest, additional, sel[1..]);
        assert k !in Keys(rest, additional);
        NoOtherStart(Keys(rest, additional), sel);
        if Selection(rest, additional, sel[1..]) {
          TakeKey(optional, additional, sel[1..]);
          assert [k] + sel[1..] == sel;
        }
      }
    }
  }

  lemma StarsTail(sel: seq<string>)
    requires sel != []
    ensures (exists n: nat :: sel == Stars(n)) <==> sel[0] == STAR && exists n: nat :: sel[1..] == Stars(n)
  {
    if n: nat :| sel == Stars(n) { assert sel[1..] == Stars(n - 1); }
    if n: nat :| sel[0] == STAR && sel[1..] == Stars(n) { assert sel == Stars(n + 1); }
  }

  // ---------------------------------------------------------------- only the entries of the keys matter

  lemma {:induction false} AfterCongruent(comma: Lang, l: Entries, l': Entries, sel: seq<string>)
    requires forall k :: k in sel ==> l(k) == l'(k)
    ensures After(comma, l, sel) == After(comma, l', sel)
  {
    if sel != [] { AfterCongruent(comma, l, l', sel[1..]); }
  }

  lemma {:induction false} SubsequenceOf(sub: seq<string>, s: seq<string>)
    requires Subsequence(sub, s)
    ensures forall k :: k in sub ==> k in s
  {
    if sub != [] {
      if sub[0] == s[0] && Subsequence(sub[1..], s[1..]) {
        SubsequenceOf(sub[1..], s[1..]);
        assert forall k :: k in sub ==> k == sub[0] || k in sub[1..];
      } else {
        SubsequenceOf(sub, s[1..]);
      }
    }
  }

  lemma SelectedKeys(optional: seq<string>, additional: bool, sel: seq<string>)
    requires Selection(optional, additional, sel)
    ensures forall k :: k in sel ==> k in Keys(optional, additional)
  {
    var sub, n: nat :| SelectedAs(optional, additional, sel, sub, n);
    SubsequenceOf(sub, optional);
    forall k | k in sel ensures k in Keys(optional, additional) {
      if k !in sub { assert k in Stars(n); }
    }
  }

  lemma {:induction false} MembersCongruent(comma: Lang, l: Entries, l': Entries, required: seq<string>,
      optional: seq<string>, additional: bool)
    requires forall k :: k in required || k in Keys(optional, additional) ==> l(k) == l'(k)
    ensures Members(comma, l, required, optional, additional) == Members(comma, l', required, optional, additional)
  {
    forall sel | Selection(optional, additional, sel) ensures Between(comma, l, required + sel) == Between(comma, l',
        required + sel) {
      SelectedKeys(optional, additional, sel);
      var ks := required + sel;
      assert forall k :: k in ks ==> k in required || k in sel;
      if ks != [] { AfterCongruent(comma, l, l', ks[1..]); }
    }
  }
}
