/** The rules for values, arrays and objects refer to each other; whatever satisfies the three denotes the texts of
    JSON values. */
module JsonValues {
  import opened Gbnf
  import opened BuiltinRules
  import opened BuiltinTexts
  import opened JsonTexts
  import LeastSolution

  // ---------------------------------------------------------------- lists with commas

  /** A comma, white space and one more. */
  ghost function Next(x: Lang): Lang { Cat(iset{","}, Cat(Blank(), x)) }

  /** One or more. */
  ghost function Rows(x: Lang): Lang { Cat(x, RepLang(Next(x), 0, Unbounded)) }

  ghost function Single(us: seq<string>): seq<Lang> { seq(|us|, i requires 0 <= i < |us| => iset{us[i]}) }

  ghost predicate AllIn(us: seq<string>, x: Lang) { forall i :: 0 <= i < |us| ==> us[i] in x }

  predicate NoLonger(us: seq<string>, n: nat) { forall i :: 0 <= i < |us| ==> |us[i]| <= n }

  lemma RowsUnfold(x: Lang, n: nat)
    requires n > 0
    ensures Cat(x, Pow(Next(x), n)) == Cat(x, Cat(iset{","}, Cat(Blank(), Cat(x, Pow(Next(x), n - 1)))))
  {
    CatAssoc(iset{","}, Cat(Blank(), x), Pow(Next(x), n - 1));
    CatAssoc(Blank(), x, Pow(Next(x), n - 1));
  }

  /** The elements a list is made of. */
  lemma {:induction false} RowsOut(x: Lang, n: nat, w: string) returns (us: seq<string>)
    requires w in Cat(x, Pow(Next(x), n))
    ensures us != [] && AllIn(us, x) && NoLonger(us, |w|) && w in Listed(Single(us))
    decreases n
  {
    hide Blank, Cat, Listed, Next;
    if n == 0 {
      CatEps(x);
      us := [w];
      OneListed(w);
    } else {
      RowsUnfold(x, n);
      var u, b, v := FirstOut(x, Cat(x, Pow(Next(x), n - 1)), w);
      var rest := RowsOut(x, n - 1, v);
      us := [u] + rest;
      ListedFirst(u, b, v, rest);
    }
  }

  lemma OneListed(w: string)
    ensures w in Listed(Single([w]))
  {
  }

  lemma CatOut(a: Lang, b: Lang, w: string) returns (u: string, v: string)
    requires w in Cat(a, b)
    ensures u in a && v in b && w == u + v
  {
    var i :| SplitAt(a, b, w, i);
    u, v := w[..i], w[i..];
  }

  lemma FirstOut(x: Lang, more: Lang, w: string) returns (u: string, b: string, v: string)
    requires w in Cat(x, Cat(iset{","}, Cat(Blank(), more)))
    ensures u in x && b in Blank() && v in more && w == u + "," + b + v
  {
    hide Blank, Cat;
    var rest, comma, last;
    u, rest := CatOut(x, Cat(iset{","}, Cat(Blank(), more)), w);
    comma, last := CatOut(iset{","}, Cat(Blank(), more), rest);
    b, v := CatOut(Blank(), more, last);
    assert w == u + (comma + (b + v)) == u + "," + b + v;
  }

  lemma ListedFirst(u: string, b: string, v: string, rest: seq<string>)
    requires rest != [] && b in Blank() && v in Listed(Single(rest))
    ensures u + "," + b + v in Listed(Single([u] + rest))
  {
    hide Blank, Cat, Listed;
    var l := Listed(Single(rest));
    CatIntro(Blank(), l, b, v);
    CatIntro(iset{","}, Cat(Blank(), l), ",", b + v);
    CatIntro(iset{u}, Cat(iset{","}, Cat(Blank(), l)), u, "," + (b + v));
    assert u + "," + b + v == u + ("," + (b + v));
    ListedUnfold(Single([u] + rest));
    assert Single([u] + rest)[1..] == Single(rest);
  }

  lemma ListedUnfold(ls: seq<Lang>)
    requires |ls| > 1
    ensures Listed(ls) == Cat(ls[0], Cat(iset{","}, Cat(Blank(), Listed(ls[1..]))))
  {
  }

  ghost predicate AllBelow(ls: seq<Lang>, x: Lang) { forall i :: 0 <= i < |ls| ==> ls[i] <= x }

  lemma {:induction false} ListedBelow(ls: seq<Lang>, x: Lang)
    requires ls != [] && AllBelow(ls, x)
    ensures Listed(ls) <= Cat(x, Pow(Next(x), |ls| - 1))
    decreases |ls|
  {
    if |ls| == 1 {
      CatEps(x);
    } else {
      var more := Cat(x, Pow(Next(x), |ls| - 2));
      RowsUnfold(x, |ls| - 1);
      ListedBelow(ls[1..], x);
      LeastSolution.CatMono(Blank(), Blank(), Listed(ls[1..]), more);
      LeastSolution.CatMono(iset{","}, iset{","}, Cat(Blank(), Listed(ls[1..])), Cat(Blank(), more));
      LeastSolution.CatMono(ls[0], x, Next(Listed(ls[1..])), Next(more));
    }
  }

  lemma PowInRows(x: Lang, n: nat)
    ensures Cat(x, Pow(Next(x), n)) <= Rows(x)
  {
    forall w | w in Pow(Next(x), n) ensures w in RepLang(Next(x), 0, Unbounded) { assert Allowed(n, 0, Unbounded); }
    LeastSolution.CatMono(x, x, Pow(Next(x), n), RepLang(Next(x), 0, Unbounded));
  }

  lemma RowsInPow(x: Lang, w: string) returns (n: nat)
    requires w in Rows(x)
    ensures w in Cat(x, Pow(Next(x), n))
  {
    var i :| SplitAt(x, RepLang(Next(x), 0, Unbounded), w, i);
    n :| Allowed(n, 0, Unbounded) && w[i..] in Pow(Next(x), n);
    assert SplitAt(x, Pow(Next(x), n), w, i);
  }

  /** Longer lists of texts let more through. */
  lemma {:induction false} ListedMono(ks: seq<Lang>, ls: seq<Lang>)
    requires |ks| == |ls| && forall i :: 0 <= i < |ks| ==> ks[i] <= ls[i]
    ensures Listed(ks) <= Listed(ls)
    decreases |ks|
  {
    if |ks| > 1 {
      ListedMono(ks[1..], ls[1..]);
      LeastSolution.CatMono(Blank(), Blank(), Listed(ks[1..]), Listed(ls[1..]));
      LeastSolution.CatMono(iset{","}, iset{","}, Cat(Blank(), Listed(ks[1..])), Cat(Blank(), Listed(ls[1..])));
      LeastSolution.CatMono(ks[0], ls[0], Next(Listed(ks[1..])), Next(Listed(ls[1..])));
    }
  }

  // ---------------------------------------------------------------- brackets

  lemma BracketedMono(open: string, k: Lang, l: Lang, close: string)
    requires k <= l
    ensures Bracketed(open, k, close) <= Bracketed(open, l, close)
  {
    var end := Cat(iset{close}, Blank());
    LeastSolution.CatMono(k, l, end, end);
    LeastSolution.CatMono(Blank(), Blank(), Cat(k, end), Cat(l, end));
    LeastSolution.CatMono(iset{open}, iset{open}, Cat(Blank(), Cat(k, end)), Cat(Blank(), Cat(l, end)));
  }

  /** What stands between the brackets. */
  lemma BracketedOut(open: string, l: Lang, close: string, w: string) returns (v: string)
    requires w in Bracketed(open, l, close) && |open| == 1
    ensures v in l && |v| < |w| && w in Bracketed(open, iset{v}, close)
  {
    var end := Cat(iset{close}, Blank());
    InLitCat(open, Cat(Blank(), Cat(l, end)), w);
    var i :| SplitAt(Blank(), Cat(l, end), w[1..], i);
    var j :| SplitAt(l, end, w[1..][i..], j);
    v := w[1..][i..][..j];
    assert SplitAt(iset{v}, end, w[1..][i..], j);
    assert SplitAt(Blank(), Cat(iset{v}, end), w[1..], i);
    InLitCat(open, Cat(Blank(), Cat(iset{v}, end)), w);
  }

  // ---------------------------------------------------------------- values

  ghost function Leaves(): Lang { StringTexts() + NumberTexts() + BooleanTexts() + NullTexts() }

  ghost function Members(v: Lang): Lang { Cat(StringTexts(), Cat(iset{":"}, Cat(Blank(), v))) }

  /** What the rules for values, arrays and objects say of each other. */
  ghost predicate Knotted(v: Lang, a: Lang, o: Lang) {
    && v == o + a + Leaves()
    && a == Bracketed("[", Eps() + Rows(v), "]")
    && o == Bracketed("{", Eps() + Rows(Members(v)), "}")
  }

  lemma LeafOut(w: string) returns (j: Json)
    requires w in Leaves()
    ensures w in TextsOf(j)
  {
    hide IsString, Numbers, Blank;
    if w in StringTexts() {
      var i :| SplitAt(Strings(), Blank(), w, i);
      j := JString(w[..i]);
      assert SplitAt(iset{w[..i]}, Blank(), w, i);
    } else if w in NumberTexts() {
      var i :| SplitAt(Numbers(), Blank(), w, i);
      j := JNumber(w[..i]);
      assert SplitAt(iset{w[..i]}, Blank(), w, i);
    } else if w in BooleanTexts() {
      var i :| SplitAt(iset{"true", "false"}, Blank(), w, i);
      j := JBoolean(w[..i] == "true");
      assert SplitAt(iset{w[..i]}, Blank(), w, i);
    } else {
      j := JNull;
    }
  }

  /** A word of the rule for values is the text of a value. */
  lemma {:induction false} ValueOut(v: Lang, a: Lang, o: Lang, w: string) returns (j: Json)
    requires Knotted(v, a, o) && w in v
    ensures w in TextsOf(j)
    decreases |w|, 1, 0
  {
    hide TextsOf, Leaves, Bracketed, Rows, Members;
    if w in o {
      j := ObjectOut(v, a, o, w);
    } else if w in a {
      j := ArrayOut(v, a, o, w);
    } else {
      j := LeafOut(w);
    }
  }

  lemma {:induction false} ArrayOut(v: Lang, a: Lang, o: Lang, w: string) returns (j: Json)
    requires Knotted(v, a, o) && w in a
    ensures j.JArray? && w in TextsOf(j)
    decreases |w|, 0, 0
  {
    hide Bracketed, Rows, Members, Leaves, Listed;
    var u := BracketedOut("[", Eps() + Rows(v), "]", w);
    if u == "" {
      j := JArray([]);
      NoneListed("[", "]", w);
      assert AllTexts([]) == [];
    } else {
      var n := RowsInPow(v, u);
      var us := RowsOut(v, n, u);
      var js := ValuesOut(v, a, o, us, |u|);
      j := JArray(js);
      ListedTexts(us, AllTexts(js), u);
      BracketedMono("[", iset{u}, Listed(AllTexts(js)), "]");
    }
  }

  lemma NoneListed(open: string, close: string, w: string)
    requires w in Bracketed(open, iset{""}, close)
    ensures w in Bracketed(open, Listed([]), close)
  {
  }

  lemma {:induction false} ListedTexts(us: seq<string>, ls: seq<Lang>, w: string)
    requires |us| == |ls| && w in Listed(Single(us)) && forall i :: 0 <= i < |us| ==> us[i] in ls[i]
    ensures iset{w} <= Listed(ls)
  {
    hide Listed;
    forall i | 0 <= i < |us| ensures Single(us)[i] <= ls[i] {}
    ListedMono(Single(us), ls);
  }

  lemma {:induction false} ValuesOut(v: Lang, a: Lang, o: Lang, us: seq<string>, n: nat) returns (js: seq<Json>)
    requires Knotted(v, a, o) && AllIn(us, v) && NoLonger(us, n)
    ensures |js| == |us| && forall i :: 0 <= i < |us| ==> us[i] in TextsOf(js[i])
    decreases n, 2, |us|
  {
    hide TextsOf, Knotted;
    if us == [] {
      js := [];
    } else {
      var j := ValueOut(v, a, o, us[0]);
      var rest := ValuesOut(v, a, o, us[1..], n);
      js := [j] + rest;
    }
  }

  lemma {:induction false} ObjectOut(v: Lang, a: Lang, o: Lang, w: string) returns (j: Json)
    requires Knotted(v, a, o) && w in o
    ensures j.JObject? && w in TextsOf(j)
    decreases |w|, 0, 0
  {
    hide Bracketed, Rows, Members, Leaves, Listed;
    var u := BracketedOut("{", Eps() + Rows(Members(v)), "}", w);
    if u == "" {
      j := JObject([]);
      NoneListed("{", "}", w);
      assert AllMemberTexts([]) == [];
    } else {
      var n := RowsInPow(Members(v), u);
      var us := RowsOut(Members(v), n, u);
      var ms := MembersOut(v, a, o, us, |u|);
      j := JObject(ms);
      ListedTexts(us, AllMemberTexts(ms), u);
      BracketedMono("{", iset{u}, Listed(AllMemberTexts(ms)), "}");
    }
  }

  lemma {:induction false} MembersOut(v: Lang, a: Lang, o: Lang, us: seq<string>, n: nat) returns (ms: seq<Member>)
    requires Knotted(v, a, o) && AllIn(us, Members(v)) && NoLonger(us, n)
    ensures |ms| == |us| && forall i :: 0 <= i < |us| ==> us[i] in MemberTexts(ms[i])
    decreases n, 2, |us|
  {
    hide MemberTexts, Knotted, Cat;
    if us == [] {
      ms := [];
    } else {
      var k, b, u, c, x := EntryOut(Strings(), v, us[0]);
      var j := ValueOut(v, a, o, x);
      MemberIn(k, b, u, c, x, j);
      var rest := MembersOut(v, a, o, us[1..], n);
      ms := [Member(k, j)] + rest;
    }
  }

  /** A key with its white space, a colon with its, and a value. */
  lemma EntryOut(q: Lang, v: Lang, w: string) returns (k: string, b: string, u: string, c: string, x: string)
    requires w in Cat(Cat(q, Blank()), Cat(iset{":"}, Cat(Blank(), v)))
    ensures k in q && b in Blank() && c in Blank() && x in v && u == k + b && w == u + (":" + (c + x))
  {
    hide Blank, Cat;
    var rest, colon, last;
    u, rest := CatOut(Cat(q, Blank()), Cat(iset{":"}, Cat(Blank(), v)), w);
    k, b := CatOut(q, Blank(), u);
    colon, last := CatOut(iset{":"}, Cat(Blank(), v), rest);
    c, x := CatOut(Blank(), v, last);
  }

  lemma MemberIn(k: string, b: string, u: string, c: string, x: string, j: Json)
    requires k in Strings() && b in Blank() && c in Blank() && x in TextsOf(j) && u == k + b
    ensures u + (":" + (c + x)) in MemberTexts(Member(k, j))
  {
    hide IsString, Blank, TextsOf, Cat;
    CatIntro(iset{k}, Blank(), k, b);
    CatIntro(Blank(), TextsOf(j), c, x);
    CatIntro(iset{":"}, Cat(Blank(), TextsOf(j)), ":", c + x);
    CatIntro(Spaced(k), Cat(iset{":"}, Cat(Blank(), TextsOf(j))), u, ":" + (c + x));
  }

  /** The text of a value is a word of the rule for values. */
  lemma {:induction false} TextIn(v: Lang, a: Lang, o: Lang, j: Json)
    requires Knotted(v, a, o)
    ensures TextsOf(j) <= v && (j.JArray? ==> TextsOf(j) <= a) && (j.JObject? ==> TextsOf(j) <= o)
    decreases j
  {
    hide Bracketed, Rows, Members, Leaves, Listed, IsString, Numbers, Blank;
    match j
    case JArray(items) =>
      forall i | 0 <= i < |items| ensures AllTexts(items)[i] <= v { TextIn(v, a, o, items[i]); }
      ListedInRows(AllTexts(items), v);
      BracketedMono("[", Listed(AllTexts(items)), Eps() + Rows(v), "]");
    case JObject(ms) =>
      forall i | 0 <= i < |ms| ensures AllMemberTexts(ms)[i] <= Members(v) {
        TextIn(v, a, o, ms[i].value);
        MemberBelow(v, ms[i]);
      }
      ListedInRows(AllMemberTexts(ms), Members(v));
      BracketedMono("{", Listed(AllMemberTexts(ms)), Eps() + Rows(Members(v)), "}");
    case _ => LeafIn(j);
  }

  lemma {:induction false} ListedInRows(ls: seq<Lang>, x: Lang)
    requires AllBelow(ls, x)
    ensures Listed(ls) <= Eps() + Rows(x)
  {
    if ls != [] {
      ListedBelow(ls, x);
      PowInRows(x, |ls| - 1);
    }
  }

  lemma MemberBelow(v: Lang, m: Member)
    requires TextsOf(m.value) <= v
    ensures MemberTexts(m) <= Members(v)
  {
    hide IsString, Blank, TextsOf;
    if IsString(m.key) {
      LeastSolution.CatMono(iset{m.key}, Strings(), Blank(), Blank());
      LeastSolution.CatMono(Blank(), Blank(), TextsOf(m.value), v);
      LeastSolution.CatMono(iset{":"}, iset{":"}, Cat(Blank(), TextsOf(m.value)), Cat(Blank(), v));
      LeastSolution.CatMono(Spaced(m.key), StringTexts(), Cat(iset{":"}, Cat(Blank(), TextsOf(m.value))),
        Cat(iset{":"}, Cat(Blank(), v)));
    }
  }

  lemma LeafIn(j: Json)
    requires !j.JArray? && !j.JObject?
    ensures TextsOf(j) <= Leaves()
  {
    hide IsString, Numbers, Blank;
    match j
    case JString(s) => if IsString(s) { LeastSolution.CatMono(iset{s}, Strings(), Blank(), Blank()); }
    case JNumber(n) => if n in Numbers() { LeastSolution.CatMono(iset{n}, Numbers(), Blank(), Blank()); }
    case JBoolean(b) =>
      LeastSolution.CatMono(iset{if b then "true" else "false"}, iset{"true", "false"}, Blank(), Blank());
    case JNull =>
  }

  /** Whatever satisfies the three rules denotes the texts of values, arrays and objects. */
  lemma {:induction false} KnotIsJson(v: Lang, a: Lang, o: Lang)
    requires Knotted(v, a, o)
    ensures v == ValueTexts() && a == ArrayTexts() && o == ObjectTexts()
  {
    hide Knotted, TextsOf;
    forall w | w in v ensures IsText(w) { var j := ValueOut(v, a, o, w); }
    forall w | w in a ensures IsArrayText(w) { var j := ArrayOut(v, a, o, w); }
    forall w | w in o ensures IsObjectText(w) { var j := ObjectOut(v, a, o, w); }
    forall w, j: Json | w in TextsOf(j) ensures w in v && (j.JArray? ==> w in a) && (j.JObject? ==> w in o) {
      TextIn(v, a, o, j);
    }
  }

  // ---------------------------------------------------------------- the rules

  /** One or more items with commas between them. */
  lemma {:induction false} RowsBody(env: Env, item: Body)
    requires Spaces(env) && NoBar(item)
    ensures BodyLang(env, item + [Many([Lit(","), SP] + item)]) == Rows(SeqLang(env, item))
  {
    hide SeqLang, BodyLang, Blank;
    var more := [Lit(","), SP] + item;
    SeqAppend(env, [Lit(","), SP], item);
    SeqTwo(env, Lit(","), SP);
    CatAssoc(iset{","}, Blank(), SeqLang(env, item));
    BodyOfSeq(env, more);
    SeqAppend(env, item, [Many(more)]);
    SeqOne(env, Many(more));
    BodyOfSeq(env, item + [Many(more)]);
  }

  lemma {:induction false} BracketBody(env: Env, open: string, it: Item, close: string)
    requires Spaces(env) && !it.Bar?
    ensures BodyLang(env, [Lit(open), SP, it, Lit(close), SP]) == Bracketed(open, ItemLang(env, it), close)
  {
    hide SeqLang, BodyLang, Blank, Cat;
    var end := [Lit(close), SP];
    var b := [Lit(open)] + ([SP] + ([it] + end));
    SeqTwo(env, Lit(close), SP);
    SeqCons(env, it, end);
    SeqCons(env, SP, [it] + end);
    SeqCons(env, Lit(open), [SP] + ([it] + end));
    assert b == [Lit(open), SP, it, Lit(close), SP];
    BodyOfSeq(env, b);
  }

  /** A list between brackets, as the rules for arrays and objects write it. */
  lemma {:induction false} ListBody(env: Env, open: string, item: Body, close: string)
    requires Spaces(env) && NoBar(item)
    ensures BodyLang(env, [Lit(open), SP, Opt(item + [Many([Lit(","), SP] + item)]), Lit(close), SP]) ==
            Bracketed(open, Eps() + Rows(SeqLang(env, item)), close)
  {
    hide SeqLang, BodyLang, ItemLang, Rows, Bracketed;
    var inner := item + [Many([Lit(","), SP] + item)];
    RowsBody(env, item);
    OptBody(env, inner);
    BracketBody(env, open, Opt(inner), close);
  }

  lemma {:induction false} MemberText(env: Env)
    requires Spaces(env) && Denotes(env, "string", StringTexts())
    ensures SeqLang(env, MEMBER) == Members(ItemLang(env, Ref("value")))
  {
    hide SeqLang, StringTexts, Blank;
    SeqTwo(env, SP, Ref("value"));
    SeqCons(env, Lit(":"), [SP, Ref("value")]);
    SeqCons(env, Ref("string"), [Lit(":")] + [SP, Ref("value")]);
    assert MEMBER == [Ref("string")] + ([Lit(":")] + [SP, Ref("value")]);
  }

  lemma {:induction false} OrMore(env: Env, it: Item, b: Body, x: Lang, y: Lang)
    requires !it.Bar? && ItemLang(env, it) == x && BodyLang(env, b) == y
    ensures BodyLang(env, [it] + [Bar] + b) == x + y
  {
    BodyAlt(env, [it], b);
    SeqOne(env, it);
  }

  lemma {:induction false} ValueBody(env: Env)
    requires Denotes(env, "string", StringTexts()) && Denotes(env, "number", NumberTexts())
    requires Denotes(env, "boolean", BooleanTexts()) && Denotes(env, "null", NullTexts())
    ensures BodyLang(env, VALUE) == ItemLang(env, Ref("object")) + ItemLang(env, Ref("array")) + Leaves()
  {
    hide BodyLang, ItemLang, StringTexts, NumberTexts, BooleanTexts, NullTexts;
    var s, n, b, u := StringTexts(), NumberTexts(), BooleanTexts(), NullTexts();
    var o, a := ItemLang(env, Ref("object")), ItemLang(env, Ref("array"));
    var b5: Body := [Ref("null")];
    SeqOne(env, Ref("null"));
    var b4 := [Ref("boolean")] + [Bar] + b5;
    OrMore(env, Ref("boolean"), b5, b, u);
    var b3 := [Ref("number")] + [Bar] + b4;
    OrMore(env, Ref("number"), b4, n, b + u);
    var b2 := [Ref("string")] + [Bar] + b3;
    OrMore(env, Ref("string"), b3, s, n + (b + u));
    var b1 := [Ref("array")] + [Bar] + b2;
    OrMore(env, Ref("array"), b2, a, s + (n + (b + u)));
    OrMore(env, Ref("object"), b1, o, a + (s + (n + (b + u))));
    assert VALUE == [Ref("object")] + [Bar] + b1;
    SixSets(o, a, s, n, b, u);
  }

  lemma SixSets(o: Lang, a: Lang, s: Lang, n: Lang, b: Lang, u: Lang)
    ensures o + (a + (s + (n + (b + u)))) == o + a + (s + n + b + u)
  {
  }
}
