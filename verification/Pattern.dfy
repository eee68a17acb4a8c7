/** From a regular expression to a rule: `_visit_pattern` of json-schema-to-grammar.cpp. */
module Pattern {
  import opened Gbnf
  import opened Rules
  import R = Regex
  import Decimal
  import Repetition

  // ---------------------------------------------------------------- items against tokens

  /** The items written so far denote what the tokens read so far match. */
  ghost predicate Agree(env: Env, dotAll: bool, items: Body, toks: seq<R.Token>) {
    && LastLang(env, items) == R.LastLang(dotAll, toks)
    && EarlierLang(env, items) == R.EarlierLang(dotAll, toks)
  }

  ghost predicate AgreeIn(t: Table, dotAll: bool, items: Body, toks: seq<R.Token>) {
    forall env: Env :: Solves(env, t) ==> Agree(env, dotAll, items, toks)
  }

  /** The last item stands for the last atom alone, so that a quantifier may still be put on it. */
  ghost predicate Open(t: Table, dotAll: bool, items: Body, toks: seq<R.Token>) {
    && items != [] && toks != []
    && !items[|items| - 1].Bar?
    && toks[|toks| - 1].P? && toks[|toks| - 1].piece.quant == R.Once
    && AgreeIn(t, dotAll, items[..|items| - 1], toks[..|toks| - 1])
    && forall env: Env :: Solves(env, t) ==>
         ItemLang(env, items[|items| - 1]) == R.AtomLang(dotAll, toks[|toks| - 1].piece.atom)
  }

  /** Ids handed out for quantified subrules: each names the rule made of that item. */
  ghost predicate SubIdsOk(t: Table, subIds: map<Item, string>) {
    forall it :: it in subIds ==> subIds[it] in t && t[subIds[it]] == [it] && !it.Bar?
  }

  lemma {:induction false} Snoc<T>(s: seq<T>, x: T)
    ensures (s + [x])[..|s + [x]| - 1] == s
  {
  }

  lemma {:induction false} PushPiece(env: Env, dotAll: bool, items: Body, toks: seq<R.Token>, it: Item, p: R.Piece)
    requires Agree(env, dotAll, items, toks) && !it.Bar? && ItemLang(env, it) == R.PieceLang(dotAll, p)
    ensures Agree(env, dotAll, items + [it], toks + [R.P(p)])
  {
    Snoc(items, it);
    Snoc(toks, R.P(p));
  }

  lemma {:induction false} PushBar(env: Env, dotAll: bool, items: Body, toks: seq<R.Token>)
    requires Agree(env, dotAll, items, toks)
    ensures Agree(env, dotAll, items + [Bar], toks + [R.Or])
  {
    Snoc(items, Bar);
    Snoc(toks, R.Or);
  }

  lemma {:induction false} OnceIsAtom(dotAll: bool, a: R.Atom)
    ensures R.PieceLang(dotAll, R.Piece(a, R.Once)) == R.AtomLang(dotAll, a)
  {
    OneTime(R.AtomLang(dotAll, a));
  }

  lemma OneTime(l: Lang)
    ensures RepLang(l, 1, Upto(1)) == l
  {
    PowOne(l);
    forall w ensures w in RepLang(l, 1, Upto(1)) <==> w in l {
      if w in l { assert Allowed(1, 1, Upto(1)) && w in Pow(l, 1); }
    }
  }

  /** Pushing the item for an atom leaves it open for a quantifier. */
  lemma {:induction false} PushAtom(t: Table, dotAll: bool, items: Body, toks: seq<R.Token>, it: Item, a: R.Atom)
    requires AgreeIn(t, dotAll, items, toks) && !it.Bar?
    requires forall env: Env :: Solves(env, t) ==> ItemLang(env, it) == R.AtomLang(dotAll, a)
    ensures AgreeIn(t, dotAll, items + [it], toks + [R.P(R.Piece(a, R.Once))])
    ensures Open(t, dotAll, items + [it], toks + [R.P(R.Piece(a, R.Once))])
  {
    Snoc(items, it);
    Snoc(toks, R.P(R.Piece(a, R.Once)));
    OnceIsAtom(dotAll, a);
    forall env: Env | Solves(env, t) ensures Agree(env, dotAll, items + [it], toks + [R.P(R.Piece(a, R.Once))]) {
      PushPiece(env, dotAll, items, toks, it, R.Piece(a, R.Once));
    }
  }

  function Quantified(toks: seq<R.Token>, q: R.Quant): seq<R.Token>
    requires toks != [] && toks[|toks| - 1].P?
  {
    toks[..|toks| - 1] + [R.P(R.Piece(toks[|toks| - 1].piece.atom, q))]
  }

  /** Replacing an open item by a repetition of it puts the quantifier on the last atom. */
  lemma {:induction false} PutQuantifier(t: Table, dotAll: bool, items: Body, toks: seq<R.Token>, it: Item, q: R.Quant)
    requires Open(t, dotAll, items, toks) && !it.Bar?
    requires forall env: Env :: Solves(env, t) ==>
               ItemLang(env, it) == RepLang(ItemLang(env, items[|items| - 1]), R.Least(q), R.Most(q))
    ensures AgreeIn(t, dotAll, items[..|items| - 1] + [it], Quantified(toks, q))
  {
    forall env: Env | Solves(env, t) ensures Agree(env, dotAll, items[..|items| - 1] + [it], Quantified(toks, q)) {
      PushPiece(env, dotAll, items[..|items| - 1], toks[..|toks| - 1], it, R.Piece(toks[|toks| - 1].piece.atom, q));
    }
  }

  /** Characters as tokens. */
  function CharTokens(s: string): seq<R.Token> {
    seq(|s|, i requires 0 <= i < |s| => R.P(R.Piece(R.Char(s[i]), R.Once)))
  }

  lemma {:induction false} CharsAppended(dotAll: bool, toks: seq<R.Token>, s: string)
    ensures R.LastLang(dotAll, toks + CharTokens(s)) == Cat(R.LastLang(dotAll, toks), iset{s})
    ensures R.EarlierLang(dotAll, toks + CharTokens(s)) == R.EarlierLang(dotAll, toks)
    decreases |s|
  {
    var l := R.LastLang(dotAll, toks);
    if s == "" {
      assert toks + CharTokens(s) == toks;
      CatEps(l);
    } else {
      var front, c := s[..|s| - 1], s[|s| - 1];
      var before := toks + CharTokens(front);
      CharsAppended(dotAll, toks, front);
      assert toks + CharTokens(s) == before + [CharToken(c)];
      CharAppended(dotAll, before, c);
      assert front + [c] == s;
      CatTwo(l, front, [c]);
    }
  }

  function CharToken(c: char): R.Token { R.P(R.Piece(R.Char(c), R.Once)) }

  lemma {:induction false} CharAppended(dotAll: bool, toks: seq<R.Token>, c: char)
    ensures R.LastLang(dotAll, toks + [CharToken(c)]) == Cat(R.LastLang(dotAll, toks), iset{[c]})
    ensures R.EarlierLang(dotAll, toks + [CharToken(c)]) == R.EarlierLang(dotAll, toks)
  {
    Snoc(toks, CharToken(c));
    OnceIsAtom(dotAll, R.Char(c));
  }

  lemma CatTwo(l: Lang, u: string, v: string)
    ensures Cat(Cat(l, iset{u}), iset{v}) == Cat(l, iset{u + v})
  {
    CatAssoc(l, iset{u}, iset{v});
    SingleCat(u, v);
  }

  lemma SingleCat(u: string, v: string)
    ensures Cat(iset{u}, iset{v}) == iset{u + v}
  {
    CatIntro(iset{u}, iset{v}, u, v);
    forall w | w in Cat(iset{u}, iset{v}) ensures w == u + v {
      var k :| SplitAt(iset{u}, iset{v}, w, k);
      assert w == w[..k] + w[k..];
    }
  }

  /** A literal stands for its characters, each a token. */
  lemma {:induction false} PushLiteral(t: Table, dotAll: bool, items: Body, toks: seq<R.Token>, s: string)
    requires AgreeIn(t, dotAll, items, toks)
    ensures AgreeIn(t, dotAll, items + [Lit(s)], toks + CharTokens(s))
  {
    CharsAppended(dotAll, toks, s);
    Snoc(items, Lit(s));
    forall env: Env | Solves(env, t) ensures Agree(env, dotAll, items + [Lit(s)], toks + CharTokens(s)) {
      LitAppended(env, items, s);
    }
  }

  lemma {:induction false} LitAppended(env: Env, items: Body, s: string)
    ensures LastLang(env, items + [Lit(s)]) == Cat(LastLang(env, items), iset{s})
    ensures EarlierLang(env, items + [Lit(s)]) == EarlierLang(env, items)
  {
    Snoc(items, Lit(s));
  }

  // ---------------------------------------------------------------- join_seq

  /** The items so far and those kept, with the literal being gathered. */
  ghost predicate Merged(env: Env, items: Body, ret: Body, literal: string) {
    && LastLang(env, items) == Cat(LastLang(env, ret), iset{literal})
    && EarlierLang(env, items) == EarlierLang(env, ret)
  }

  lemma {:induction false} MergeNone(env: Env, none: Body)
    requires none == []
    ensures Merged(env, none, none, "")
  {
    var l := LastLang(env, none);
    assert Cat(l, iset{""}) == l by { CatEmptyWord(l); }
  }

  lemma CatEmptyWord(a: Lang)
    ensures Cat(a, iset{""}) == a
  {
    CatEps(a);
    assert Eps() == iset{""};
  }

  lemma {:induction false} MergeLit(env: Env, items: Body, t: string, ret: Body, literal: string)
    requires Merged(env, items, ret, literal)
    ensures Merged(env, items + [Lit(t)], ret, literal + t)
  {
    LitAppended(env, items, t);
    CatTwo(LastLang(env, ret), literal, t);
  }

  lemma {:induction false} ItemAppended(env: Env, items: Body, it: Item)
    ensures LastLang(env, items + [it]) == if it.Bar? then Eps() else Cat(LastLang(env, items), ItemLang(env, it))
    ensures EarlierLang(env, items + [it]) == EarlierLang(env, items) + if it.Bar? then LastLang(env, items) else iset{}
  {
    Snoc(items, it);
  }

  lemma {:induction false} MergeOther(env: Env, items: Body, it: Item, ret: Body, literal: string)
    requires Merged(env, items, ret, literal)
    ensures Merged(env, items + [it], Flushed(ret, literal) + [it], "")
  {
    var flushed := Flushed(ret, literal);
    MergeFlush(env, items, ret, literal);
    ItemAppended(env, items, it);
    ItemAppended(env, flushed, it);
    CatEmptyWord(LastLang(env, flushed + [it]));
  }

  function Flushed(ret: Body, literal: string): Body {
    if literal == "" then ret else ret + [Lit(literal)]
  }

  lemma {:induction false} MergeFlush(env: Env, items: Body, ret: Body, literal: string)
    requires Merged(env, items, ret, literal)
    ensures LastLang(env, items) == LastLang(env, Flushed(ret, literal))
    ensures EarlierLang(env, items) == EarlierLang(env, Flushed(ret, literal))
  {
    if literal == "" { CatEmptyWord(LastLang(env, ret)); } else { LitAppended(env, ret, literal); }
  }

  /** Merges runs of literals; the language stays. */
  method JoinSeq(items: Body) returns (ret: Body)
    ensures forall env: Env :: BodyLang(env, ret) == BodyLang(env, items)
  {
    ret := [];
    var literal := "";
    forall env: Env ensures Merged(env, ret, ret, "") { MergeNone(env, ret); }
    assert items[..0] == ret;
    for k := 0 to |items|
      invariant forall env: Env :: Merged(env, items[..k], ret, literal)
    {
      ghost var seen := items[..k + 1];
      assert seen == items[..k] + [items[k]];
      ghost var before, gathered := ret, literal;
      if items[k].Lit? {
        literal := literal + items[k].text;
        forall env: Env ensures Merged(env, seen, ret, literal) {
          MergeLit(env, items[..k], items[k].text, before, gathered);
        }
      } else {
        if literal != "" {
          ret := ret + [Lit(literal)];
          literal := "";
        }
        ret := ret + [items[k]];
        forall env: Env ensures Merged(env, seen, ret, literal) {
          MergeOther(env, items[..k], items[k], before, gathered);
        }
      }
    }
    assert items[..|items|] == items;
    ghost var kept := ret;
    if literal != "" {
      ret := ret + [Lit(literal)];
    }
    forall env: Env ensures BodyLang(env, ret) == BodyLang(env, items) {
      MergeFlush(env, items, kept, literal);
      BodyIsEarlierAndLast(env, items);
      BodyIsEarlierAndLast(env, ret);
    }
  }

  // ---------------------------------------------------------------- reading the text

  /** What has been read (`done`, with quantifier `q` of the last atom still to come) and what is left. */
  ghost predicate Reading(toks: seq<R.Token>, done: seq<R.Token>, q: R.Quant, todo: seq<R.Token>) {
    if q == R.Once then toks == done + todo
    else done != [] && done[|done| - 1].P? && toks == Quantified(done, q) + todo
  }

  ghost predicate TailOk(tail: string) {
    tail == "" || tail[0] == ')'
  }

  /** The next character tells what comes next. */
  ghost predicate Announces(c: char, q: R.Quant, todo: seq<R.Token>) {
    match q
    case Once =>
      if todo == [] then c == ')'
      else (match todo[0]
            case Or => c == '|'
            case P(x) => match x.atom
                         case Char(d) => c == d && R.PlainChar(c)
                         case AnyChar => c == '.'
                         case Set(_) => c == '['
                         case Sub(_) => c == '(')
    case Star => c == '*'
    case Plus => c == '+'
    case Maybe => c == '?'
    case _ => c == '{'
  }

  lemma Parts(a: string, q: string, r: string, t: string)
    ensures (a + q) + r + t == a + (q + r + t)
    ensures "" + r + t == r + t
  {
  }

  lemma FirstOfQuant(q: R.Quant)
    requires q != R.Once
    ensures R.ShowQuant(q) != "" && Announces(R.ShowQuant(q)[0], q, [])
  {
  }

  lemma FirstOfAtom(a: R.Atom)
    ensures R.ShowAtom(a) != ""
    ensures R.GoodAtom(a) ==> Announces(R.ShowAtom(a)[0], R.Once, [R.P(R.Piece(a, R.Once))])
  {
  }

  lemma NextChar(s: string, q: R.Quant, todo: seq<R.Token>, tail: string)
    requires s == R.ShowQuant(q) + R.ShowTokens(todo) + tail && s != ""
    requires R.GoodTokens(todo) && TailOk(tail)
    ensures Announces(s[0], q, todo)
  {
    if q != R.Once {
      FirstOfQuant(q);
    } else {
      Parts("", "", R.ShowTokens(todo), tail);
      if todo != [] && todo[0].P? { AfterAtom(s, todo, tail); FirstOfAtom(todo[0].piece.atom); }
    }
  }

  /** Reading one atom leaves its quantifier and the rest. */
  lemma AfterAtom(s: string, todo: seq<R.Token>, tail: string)
    requires todo != [] && todo[0].P? && s == R.ShowQuant(R.Once) + R.ShowTokens(todo) + tail
    ensures var a := R.ShowAtom(todo[0].piece.atom);
            s == a + (R.ShowQuant(todo[0].piece.quant) + R.ShowTokens(todo[1..]) + tail)
  {
    var a, q, r := R.ShowAtom(todo[0].piece.atom), R.ShowQuant(todo[0].piece.quant), R.ShowTokens(todo[1..]);
    assert R.ShowTokens(todo) == (a + q) + r;
    Parts(a, q, r, tail);
    Parts("", "", R.ShowTokens(todo), tail);
  }

  /** An atom has been read: it moves over, its quantifier still to come. */
  lemma MoveAtom(toks: seq<R.Token>, done: seq<R.Token>, todo: seq<R.Token>)
    requires todo != [] && todo[0].P? && Reading(toks, done, R.Once, todo)
    ensures Reading(toks, done + [R.P(R.Piece(todo[0].piece.atom, R.Once))], todo[0].piece.quant, todo[1..])
  {
    var x := R.P(R.Piece(todo[0].piece.atom, R.Once));
    Snoc(done, x);
    assert toks == done + [todo[0]] + todo[1..];
  }

  lemma MoveQuantifier(toks: seq<R.Token>, done: seq<R.Token>, q: R.Quant, todo: seq<R.Token>)
    requires q != R.Once && Reading(toks, done, q, todo)
    ensures Reading(toks, Quantified(done, q), R.Once, todo)
  {
  }

  lemma MoveOr(toks: seq<R.Token>, done: seq<R.Token>, todo: seq<R.Token>)
    requires todo != [] && todo[0] == R.Or && Reading(toks, done, R.Once, todo)
    ensures Reading(toks, done + [R.Or], R.Once, todo[1..])
  {
    assert toks == done + [todo[0]] + todo[1..];
  }

  lemma AgreeMono(t: Table, t': Table, dotAll: bool, items: Body, toks: seq<R.Token>)
    requires Extends(t, t') && AgreeIn(t, dotAll, items, toks)
    ensures AgreeIn(t', dotAll, items, toks)
  {
    forall env: Env | Solves(env, t') ensures Agree(env, dotAll, items, toks) {
      SolvesMono(env, t, t');
    }
  }

  /** Names made here are "dot" or the name of the pattern with a hyphen and a number, perhaps with another number. */
  predicate Auxiliary(name: string, k: string) {
    Near("dot", k) || Near(Escape(name) + "-", k)
  }

  ghost predicate OnlyAuxiliary(name: string, t: Table, t': Table) {
    forall k :: k in t' && k !in t ==> Auxiliary(name, k)
  }

  lemma NoneAdded(name: string, t: Table)
    ensures OnlyAuxiliary(name, t, t)
  {
  }

  lemma MoreAdded(name: string, t: Table, t': Table, t'': Table)
    requires OnlyAuxiliary(name, t, t') && OnlyAuxiliary(name, t', t'')
    ensures OnlyAuxiliary(name, t, t'')
  {
  }

  // ---------------------------------------------------------------- the pieces of the loop

  function DotRule(dotAll: bool): Body {
    [Class(if dotAll then "\0-\U{10FFFF}" else "^\n\r")]
  }

  lemma {:induction false} DotIsAnyChar(env: Env, dotAll: bool)
    ensures BodyLang(env, DotRule(dotAll)) == R.AtomLang(dotAll, R.AnyChar)
  {
    var t := if dotAll then "\0-\U{10FFFF}" else "^\n\r";
    SeqOne(env, Class(t));
    forall c: char ensures ClassHas(t, c) <==> dotAll || c !in "\r\n" {
      if !dotAll {
        assert t[1..] == "\n\r" && "\n\r"[1..] == "\r" && "\r"[1..] == "";
        assert InRanges("\r", c) <==> c == '\r' by { assert !InRanges("", c); }
      }
    }
  }

  /** get_dot */
  method GetDot(t: RuleTable, dotAll: bool, ghost name: string) returns (key: string)
    modifies t
    ensures (old(t.Valid()) ==> t.Valid()) && Extends(old(t.rules), t.rules)
              && OnlyAuxiliary(name, old(t.rules), t.rules)
    ensures forall env: Env :: Solves(env, t.rules) ==> ItemLang(env, Ref(key)) == R.AtomLang(dotAll, R.AnyChar)
  {
    hide Intact, Closed;
    assert GoodBuiltins(t.prims) ==> "dot" !in t.prims;
    key := t.AddRule("dot", DotRule(dotAll));
    EscapeYieldsRuleName("dot");
    KeyIsNear("dot", key);
    forall env: Env | Solves(env, t.rules) ensures ItemLang(env, Ref(key)) == R.AtomLang(dotAll, R.AnyChar) {
      DotIsAnyChar(env, dotAll);
      assert key in t.rules;
    }
  }

  /** Reads up to the closing bracket. */
  method ReadBrackets(p: string, i0: nat, ghost text: string, ghost rest: string) returns (i: nat, brackets: string)
    requires i0 <= |p| && p[i0..] == text + "]" + rest
    requires forall k :: 0 <= k < |text| ==> text[k] != ']' && text[k] != '\\'
    ensures i == i0 + |text| + 1 && i <= |p| && p[i..] == rest
    ensures brackets == text
  {
    i, brackets := i0, "";
    assert forall k :: 0 <= k < |text| ==> p[i0 + k] == text[k] by {
      assert forall k :: 0 <= k < |text| ==> p[i0..][k] == text[k];
    }
    assert p[i0 + |text|] == ']' by { assert p[i0..][|text|] == ']'; }
    while i < |p| && p[i] != ']'
      invariant i0 <= i <= i0 + |text|
      invariant brackets == text[..i - i0]
    {
      brackets := brackets + [p[i]];
      i := i + 1;
    }
    i := i + 1;
    assert p[i..] == p[i0..][|text| + 1..];
  }

  /** split(s, ","), with `cur` the token begun. */
  function Split(s: string, cur: string): seq<string> {
    if s == "" then [cur]
    else if s[0] == ',' then [cur] + Split(s[1..], "")
    else Split(s[1..], cur + [s[0]])
  }

  lemma {:induction false} SplitDigits(n: string, rest: string, cur: string)
    requires Decimal.Digits(n)
    ensures Split(n, cur) == [cur + n]
    ensures Split(n + "," + rest, cur) == [cur + n] + Split(rest, "")
  {
    if n == "" {
      assert n + "," + rest == "," + rest && ("," + rest)[1..] == rest;
      assert cur + n == cur;
    } else {
      assert (n + "," + rest)[1..] == n[1..] + "," + rest;
      SplitDigits(n[1..], rest, cur + [n[0]]);
      assert cur + [n[0]] + n[1..] == cur + n;
    }
  }

  /** What stands between the braces of a counted quantifier. */
  function Braced(q: R.Quant): string
    requires IsBraced(q)
  {
    match q
    case Exactly(n) => n
    case AtLeast(n) => n + ","
    case Range(n, m) => n + "," + m
  }

  predicate IsBraced(q: R.Quant) {
    q.Exactly? || q.AtLeast? || q.Range?
  }

  lemma BracedText(q: R.Quant)
    requires IsBraced(q) && R.GoodQuant(q)
    ensures R.ShowQuant(q) == "{" + Braced(q) + "}"
    ensures forall k :: 0 <= k < |Braced(q)| ==> Braced(q)[k] != '}'
  {
  }

  lemma BracedNumbers(q: R.Quant)
    requires IsBraced(q) && R.GoodQuant(q)
    ensures Split(Braced(q), "") == match q
            case Exactly(n) => [n]
            case AtLeast(n) => [n, ""]
            case Range(n, m) => [n, m]
  {
    match q {
      case Exactly(n) =>
        SplitDigits(n, "", "");
        assert "" + n == n;
      case AtLeast(n) =>
        SplitDigits(n, "", "");
        assert n + "," == n + "," + "" && "" + n == n;
        assert Split("", "") == [""];
      case Range(n, m) =>
        SplitDigits(n, m, "");
        SplitDigits(m, "", "");
        assert "" + n == n && "" + m == m;
    }
  }

  /** Reads the counts of a braced quantifier; INT_MAX stands for no maximum. */
  method ReadCounts(p: string, i0: nat, ghost q: R.Quant, ghost rest: string)
    returns (i: nat, minTimes: nat, maxTimes: nat, errors: seq<string>)
    requires IsBraced(q) && R.GoodQuant(q)
    requires i0 <= |p| && p[i0..] == Braced(q) + "}" + rest
    ensures i == i0 + |Braced(q)| + 1 && i <= |p| && p[i..] == rest
    ensures errors == []
    ensures minTimes == R.Least(q) && Repetition.ToBound(maxTimes) == R.Most(q) && minTimes <= maxTimes <= R.INT_MAX
  {
    ghost var text := Braced(q);
    BracedText(q);
    var curly := "";
    i, errors := i0, [];
    assert forall k :: 0 <= k < |text| ==> p[i0 + k] == text[k] by {
      assert forall k :: 0 <= k < |text| ==> p[i0..][k] == text[k];
    }
    assert p[i0 + |text|] == '}' by { assert p[i0..][|text|] == '}'; }
    while i < |p| && p[i] != '}'
      invariant i0 <= i <= i0 + |text|
      invariant curly == text[..i - i0]
    {
      curly := curly + [p[i]];
      i := i + 1;
    }
    if i >= |p| {
      errors := errors + ["Unbalanced curly brackets"];
    }
    i := i + 1;
    assert p[i..] == p[i0..][|text| + 1..];
    assert curly == text;
    BracedNumbers(q);
    var nums := Split(curly, "");
    minTimes, maxTimes := 0, R.INT_MAX;
    if |nums| == 1 {
      minTimes, maxTimes := R.NumberOf(nums[0]), R.NumberOf(nums[0]);
    } else if |nums| != 2 {
      errors := errors + ["Wrong number of values in curly brackets"];
    } else {
      if nums[0] != "" {
        minTimes := R.NumberOf(nums[0]);
      }
      if nums[1] != "" {
        maxTimes := R.NumberOf(nums[1]);
      }
    }
  }

  ghost predicate CharsAt(todo: seq<R.Token>, literal: string) {
    |literal| <= |todo|
    && forall k :: 0 <= k < |literal| ==>
         todo[k].P? && todo[k].piece.atom == R.Char(literal[k]) && (k < |literal| - 1 ==> todo[k].piece.quant == R.Once)
  }

  /** The quantifier of the last token read. */
  ghost function LastQuant(todo: seq<R.Token>, n: nat): R.Quant
    requires n <= |todo| && (n > 0 ==> todo[n - 1].P?)
  {
    if n == 0 then R.Once else todo[n - 1].piece.quant
  }

  /** The literal gathered from `i` on, given what was gathered before, where no backslash or quote comes in between. */
  function LiteralRun(p: string, i: nat, literal: string): string
    requires i <= |p|
    decreases |p| - i
  {
    if i < |p| && GoesOn(p, i, literal) then LiteralRun(p, i + 1, literal + [p[i]]) else literal
  }

  predicate GoesOn(p: string, i: nat, literal: string)
    requires i < |p|
  {
    !R.NonLiteral(p[i]) && (i == |p| - 1 || literal == "" || p[i + 1] == '.' || !R.NonLiteral(p[i + 1]))
  }

  lemma RunStep(p: string, i: nat, literal: string)
    requires i <= |p|
    ensures LiteralRun(p, i, literal) ==
            if i < |p| && GoesOn(p, i, literal) then LiteralRun(p, i + 1, literal + [p[i]]) else literal
  {
  }

  /** Reads a run of literal characters, looking ahead so that one that carries a quantifier stands alone. */
  method ReadLiteral(p: string, i0: nat, ghost todo: seq<R.Token>, ghost tail: string) returns (i: nat, literal: string)
    requires i0 < |p| && p[i0..] == R.ShowTokens(todo) + tail && R.GoodTokens(todo) && TailOk(tail)
    requires todo != [] && todo[0].P? && todo[0].piece.atom.Char?
    ensures literal != "" && CharsAt(todo, literal) && literal == LiteralRun(p, i0, "") && i == i0 + |literal|
    ensures i0 < i <= |p| && p[i..] == R.ShowQuant(LastQuant(todo, |literal|)) + R.ShowTokens(todo[|literal|..]) + tail
    ensures |literal| > 1 ==> LastQuant(todo, |literal|) == R.Once
  {
    hide R.ShowTokens, R.GoodTokens, TailOk, LiteralRun, LiteralSoFar;
    i, literal := i0, "";
    NothingTaken(p[i..], todo, tail);
    LiteralStep(p[i..], todo, tail, literal);
    while i < |p|
      invariant i0 <= i <= |p| && LiteralSoFar(p[i..], todo, tail, literal)
      invariant |literal| == i - i0 && LiteralRun(p, i, literal) == LiteralRun(p, i0, "")
      decreases |p| - i
    {
      LiteralStep(p[i..], todo, tail, literal);
      RunStep(p, i, literal);
      assert i + 1 < |p| ==> p[i..][1] == p[i + 1];
      assert p[i..][1..] == p[i + 1..];
      if !R.NonLiteral(p[i])
         && (i == |p| - 1 || literal == "" || p[i + 1] == '.' || !R.NonLiteral(p[i + 1])) {
        literal := literal + [p[i]];
        i := i + 1;
      } else {
        break;
      }
    }
    LiteralStep(p[i..], todo, tail, literal);
    RunStep(p, i, literal);
    TakenSoFar(p[i..], todo, tail, literal);
  }

  /** Where no other branch of the reader's loop applies, it gathers nothing exactly at a closing bracket or brace that
      closes nothing: there it stays for ever. */
  lemma StandsStill(p: string, i: nat)
    requires i < |p| && p[i] !in {'.', '(', ')', '[', '|', '*', '+', '?', '{'}
    ensures LiteralRun(p, i, "") == "" <==> p[i] == ']' || p[i] == '}'
  {
    if p[i] != ']' && p[i] != '}' { RunGrows(p, i + 1, "" + [p[i]]); }
  }

  lemma {:induction false} RunGrows(p: string, i: nat, literal: string)
    requires i <= |p|
    ensures |LiteralRun(p, i, literal)| >= |literal|
    decreases |p| - i
  {
    if i < |p| && GoesOn(p, i, literal) { RunGrows(p, i + 1, literal + [p[i]]); }
  }

  lemma NothingTaken(s: string, todo: seq<R.Token>, tail: string)
    requires s == R.ShowTokens(todo) + tail
    ensures LiteralSoFar(s, todo, tail, "")
  {
    Parts("", "", R.ShowTokens(todo), tail);
    assert todo[0..] == todo;
  }

  lemma TakenSoFar(s: string, todo: seq<R.Token>, tail: string, literal: string)
    requires LiteralSoFar(s, todo, tail, literal)
    ensures CharsAt(todo, literal)
    ensures s == R.ShowQuant(LastQuant(todo, |literal|)) + R.ShowTokens(todo[|literal|..]) + tail
    ensures |literal| > 1 ==> LastQuant(todo, |literal|) == R.Once
  {
  }

  ghost predicate LiteralSoFar(s: string, todo: seq<R.Token>, tail: string, literal: string) {
    && CharsAt(todo, literal)
    && s == R.ShowQuant(LastQuant(todo, |literal|)) + R.ShowTokens(todo[|literal|..]) + tail
    && (|literal| > 1 ==> LastQuant(todo, |literal|) == R.Once)
  }

  /** One step of the lookahead: a plain character next is the next token, and if more literal text precedes it and
      no operator but `.` follows, it carries no quantifier. */
  lemma LiteralStep(s: string, todo: seq<R.Token>, tail: string, literal: string)
    requires LiteralSoFar(s, todo, tail, literal) && R.GoodTokens(todo) && TailOk(tail)
    ensures s != "" && !R.NonLiteral(s[0]) && (|s| == 1 || literal == "" || s[1] == '.' || !R.NonLiteral(s[1])) ==>
              LiteralSoFar(s[1..], todo, tail, literal + [s[0]])
    ensures literal == "" && todo != [] && todo[0].P? && todo[0].piece.atom.Char? ==> s != "" && !R.NonLiteral(s[0])
  {
    hide R.ShowTokens, R.ShowQuant, R.ShowAtom, R.GoodTokens, TailOk, LiteralSoFar;
    if literal == "" && todo != [] && todo[0].P? && todo[0].piece.atom.Char? { CharFirst(s, todo, tail); }
    if s != "" && !R.NonLiteral(s[0]) { StepTaken(s, todo, tail, literal); }
  }

  lemma CharFirst(s: string, todo: seq<R.Token>, tail: string)
    requires LiteralSoFar(s, todo, tail, "") && R.GoodTokens(todo)
    requires todo != [] && todo[0].P? && todo[0].piece.atom.Char?
    ensures s != "" && !R.NonLiteral(s[0])
  {
    assert todo[0..] == todo;
    AfterAtom(s, todo, tail);
    var c := todo[0].piece.atom.c;
    assert R.ShowAtom(todo[0].piece.atom) == [c];
    assert s[0] == c;
    assert R.GoodPiece(todo[0].piece) && R.GoodAtom(R.Char(c)) && R.PlainChar(c);
  }

  /** A plain character is the next token. */
  lemma PlainNext(s: string, q: R.Quant, rest: seq<R.Token>, tail: string)
    requires s == R.ShowQuant(q) + R.ShowTokens(rest) + tail && s != "" && !R.NonLiteral(s[0])
    requires R.GoodTokens(rest) && TailOk(tail)
    ensures q == R.Once && rest != [] && rest[0].P? && rest[0].piece.atom == R.Char(s[0])
    ensures s[1..] == R.ShowQuant(rest[0].piece.quant) + R.ShowTokens(rest[1..]) + tail
  {
    NextChar(s, q, rest, tail);
    AfterAtom(s, rest, tail);
    assert R.ShowAtom(R.Char(s[0])) == [s[0]];
  }

  /** Where no operator but `.` follows, there is no quantifier. */
  lemma NoQuantifier(s: string, q: R.Quant, rest: seq<R.Token>, tail: string)
    requires s == R.ShowQuant(q) + R.ShowTokens(rest) + tail && (s == "" || s[0] == '.' || !R.NonLiteral(s[0]))
    requires R.GoodTokens(rest) && TailOk(tail)
    ensures q == R.Once
  {
    if s != "" { NextChar(s, q, rest, tail); }
    if q != R.Once { FirstOfQuant(q); }
  }

  lemma StepTaken(s: string, todo: seq<R.Token>, tail: string, literal: string)
    requires LiteralSoFar(s, todo, tail, literal) && R.GoodTokens(todo) && TailOk(tail)
    requires s != "" && !R.NonLiteral(s[0])
    ensures |s| == 1 || literal == "" || s[1] == '.' || !R.NonLiteral(s[1]) ==>
              LiteralSoFar(s[1..], todo, tail, literal + [s[0]])
  {
    hide R.ShowTokens, R.ShowQuant, R.ShowAtom, TailOk;
    var n := |literal|;
    var rest := todo[n..];
    PlainNext(s, LastQuant(todo, n), rest, tail);
    assert rest[1..] == todo[n + 1..] && rest[0] == todo[n];
    if n > 0 && (|s| == 1 || s[1] == '.' || !R.NonLiteral(s[1])) {
      NoQuantifier(s[1..], rest[0].piece.quant, rest[1..], tail);
    }
  }

  // ---------------------------------------------------------------- the quantifiers

  /** `*`, `+`, `?` put on the last item. */
  function Suffixed(it: Item, c: char): Item {
    if c == '*' then Rep(it, 0, Unbounded) else if c == '+' then Rep(it, 1, Unbounded) else Rep(it, 0, Upto(1))
  }

  /** The rule of its own that a quantified item gets, once for each item. */
  method SubRule(t: RuleTable, name: string, it: Item, subIds0: map<Item, string>) returns (sub: Item,
      subIds: map<Item, string>)
    requires SubIdsOk(t.rules, subIds0) && !it.Bar?
    modifies t
    ensures (old(t.Valid()) ==> t.Valid()) && Extends(old(t.rules), t.rules) && SubIdsOk(t.rules, subIds)
            && OnlyAuxiliary(name, old(t.rules), t.rules)
    ensures !sub.Bar? && forall env: Env :: Solves(env, t.rules) ==> ItemLang(env, sub) == ItemLang(env, it)
  {
    subIds := subIds0;
    if it !in subIds {
      var number := Decimal.Dec(|subIds| + 1);
      SubRuleName(t.prims, name, |subIds| + 1);
      var id := t.AddRule(name + "-" + number, [it]);
      subIds := subIds[it := id];
    }
    sub := Ref(subIds[it]);
    forall env: Env | Solves(env, t.rules) ensures ItemLang(env, sub) == ItemLang(env, it) {
      SeqOne(env, it);
      assert subIds[it] in t.rules;
    }
  }

  /** A braced quantifier: a literal is repeated in place, anything else through a rule of its own. */
  method Repeat(t: RuleTable, name: string, it: Item, subIds0: map<Item, string>, minTimes: nat, maxTimes: nat)
    returns (r: Item, subIds: map<Item, string>)
    requires SubIdsOk(t.rules, subIds0)
    requires !it.Bar? && minTimes <= maxTimes <= R.INT_MAX
    modifies t
    ensures (old(t.Valid()) ==> t.Valid()) && Extends(old(t.rules), t.rules) && SubIdsOk(t.rules, subIds)
            && OnlyAuxiliary(name, old(t.rules), t.rules)
    ensures !r.Bar?
    ensures forall env: Env :: Solves(env, t.rules) ==>
              ItemLang(env, r) == RepLang(ItemLang(env, it), minTimes, Repetition.ToBound(maxTimes))
  {
    var sub := it;
    subIds := subIds0;
    if !it.Lit? {
      sub, subIds := SubRule(t, name, it, subIds);
    }
    var body := Repetition.BuildRepetition(sub, minTimes, maxTimes, []);
    Repetition.Shape(sub, minTimes, maxTimes, []);
    r := body[0];
  }

  lemma SubRuleName(prims: Builtins, name: string, n: nat)
    ensures GoodBuiltins(prims) ==> Escape(name + "-" + Decimal.Dec(n)) !in prims
    ensures forall key :: KeyFor(Escape(name + "-" + Decimal.Dec(n)), key) ==> Auxiliary(name, key)
  {
    hide Escape;
    var d := Decimal.Dec(n);
    var front := Escape(name) + "-";
    Decimal.DecCanonical(n);
    EscapeTail(name, "-" + d);
    assert name + "-" + d == name + ("-" + d) && Escape(name) + ("-" + d) == front + d;
    NotBuiltin(prims, front, d);
    forall key | KeyFor(front + d, key) ensures Auxiliary(name, key) {
      KeyIsNear(front + d, key);
      NearFront(front, d, key);
    }
  }

  lemma NotBuiltin(prims: Builtins, front: string, d: string)
    requires d != "" && Decimal.Digits(d)
    ensures GoodBuiltins(prims) ==> front + d !in prims
  {
    assert (front + d)[|front + d| - 1] == d[|d| - 1];
  }

  lemma NearFront(front: string, d: string, key: string)
    requires Near(front + d, key) && Decimal.Digits(d)
    ensures Near(front, key)
  {
    assert front <= front + d <= key;
    assert key[|front|..] == d + key[|front + d|..];
  }

  // ---------------------------------------------------------------- transform

  /** The text left, `s`, is what the tokens left say. */
  ghost predicate Text(toks: seq<R.Token>, s: string, done: seq<R.Token>, q: R.Quant, todo: seq<R.Token>,
      tail: string) {
    && R.GoodTokens(todo) && R.GoodQuant(q) && Reading(toks, done, q, todo)
    && s == R.ShowQuant(q) + R.ShowTokens(todo) + tail
  }

  /** The items written denote what the tokens read match. */
  ghost predicate Meaning(t: Table, dotAll: bool, items: Body, done: seq<R.Token>, q: R.Quant) {
    AgreeIn(t, dotAll, items, done) && (q != R.Once ==> Open(t, dotAll, items, done))
  }

  lemma TextAtom(toks: seq<R.Token>, s: string, s': string, done: seq<R.Token>, todo: seq<R.Token>, tail: string)
    requires Text(toks, s, done, R.Once, todo, tail)
    requires todo != [] && todo[0].P? && s == R.ShowAtom(todo[0].piece.atom) + s'
    ensures Text(toks, s', done + [R.P(R.Piece(todo[0].piece.atom, R.Once))], todo[0].piece.quant, todo[1..], tail)
  {
    MoveAtom(toks, done, todo);
    AfterAtom(s, todo, tail);
    var a := R.ShowAtom(todo[0].piece.atom);
    assert s' == s[|a|..];
  }

  lemma TextOr(toks: seq<R.Token>, s: string, done: seq<R.Token>, todo: seq<R.Token>, tail: string)
    requires Text(toks, s, done, R.Once, todo, tail)
    requires todo != [] && todo[0].Or?
    ensures s != "" && Text(toks, s[1..], done + [R.Or], R.Once, todo[1..], tail)
  {
    MoveOr(toks, done, todo);
    var rest := R.ShowTokens(todo[1..]);
    assert R.ShowTokens(todo) == "|" + rest;
    assert s == "|" + (rest + tail) by { Parts("", "", R.ShowTokens(todo), tail); Parts("|", "", rest,
           tail); Parts("", "", rest, tail); }
    Parts("", "", rest, tail);
  }

  lemma TextQuant(toks: seq<R.Token>, s: string, s': string, done: seq<R.Token>, q: R.Quant, todo: seq<R.Token>,
      tail: string)
    requires Text(toks, s, done, q, todo, tail)
    requires q != R.Once && s == R.ShowQuant(q) + s'
    ensures Text(toks, s', Quantified(done, q), R.Once, todo, tail)
  {
    MoveQuantifier(toks, done, q, todo);
    Cancel(R.ShowQuant(q), R.ShowTokens(todo), tail, s');
    Parts("", "", R.ShowTokens(todo), tail);
  }

  lemma Cancel(a: string, b: string, c: string, s: string)
    requires a + b + c == a + s
    ensures s == b + c
  {
    assert (a + s)[|a|..] == s && (a + b + c)[|a|..] == b + c;
  }

  lemma MoveLiteral(toks: seq<R.Token>, done: seq<R.Token>, todo: seq<R.Token>, literal: string)
    requires Reading(toks, done, R.Once, todo) && literal != "" && CharsAt(todo, literal)
    requires |literal| > 1 ==> LastQuant(todo, |literal|) == R.Once
    ensures Reading(toks, done + CharTokens(literal), LastQuant(todo, |literal|), todo[|literal|..])
  {
    var n := |literal|;
    if LastQuant(todo, n) == R.Once {
      assert todo[..n] == CharTokens(literal);
      assert toks == done + todo[..n] + todo[n..];
    } else {
      MoveAtom(toks, done, todo);
      assert CharTokens(literal) == [R.P(R.Piece(todo[0].piece.atom, R.Once))];
    }
  }

  lemma TextLiteral(toks: seq<R.Token>, s: string, s': string, done: seq<R.Token>, todo: seq<R.Token>, tail: string,
      literal: string)
    requires Text(toks, s, done, R.Once, todo, tail)
    requires literal != "" && LiteralSoFar(s', todo, tail, literal)
    ensures Text(toks, s', done + CharTokens(literal), LastQuant(todo, |literal|), todo[|literal|..], tail)
  {
    assert R.GoodQuant(LastQuant(todo, |literal|)) by { assert todo[|literal| - 1].P?; }
    MoveLiteral(toks, done, todo, literal);
  }

  lemma {:induction false} MeaningAtom(t: Table, t': Table, dotAll: bool, items: Body, done: seq<R.Token>, it: Item,
      a: R.Atom, q: R.Quant)
    requires Meaning(t, dotAll, items, done, R.Once) && Extends(t, t') && !it.Bar?
    requires forall env: Env :: Solves(env, t') ==> ItemLang(env, it) == R.AtomLang(dotAll, a)
    ensures Meaning(t', dotAll, items + [it], done + [R.P(R.Piece(a, R.Once))], q)
  {
    AgreeMono(t, t', dotAll, items, done);
    PushAtom(t', dotAll, items, done, it, a);
  }

  lemma {:induction false} MeaningOr(t: Table, dotAll: bool, items: Body, done: seq<R.Token>)
    requires Meaning(t, dotAll, items, done, R.Once)
    ensures Meaning(t, dotAll, items + [Bar], done + [R.Or], R.Once)
  {
    forall env: Env | Solves(env, t) ensures Agree(env, dotAll, items + [Bar], done + [R.Or]) {
      PushBar(env, dotAll, items, done);
    }
  }

  lemma {:induction false} OpenMono(t: Table, t': Table, dotAll: bool, items: Body, done: seq<R.Token>)
    requires Open(t, dotAll, items, done) && Extends(t, t')
    ensures Open(t', dotAll, items, done)
  {
    AgreeMono(t, t', dotAll, items[..|items| - 1], done[..|done| - 1]);
    forall env: Env | Solves(env, t') ensures Solves(env, t) { SolvesMono(env, t, t'); }
  }

  lemma {:induction false} MeaningQuant(t: Table, t': Table, dotAll: bool, items: Body, done: seq<R.Token>,
      q: R.Quant, it: Item)
    requires Meaning(t, dotAll, items, done, q) && q != R.Once && Extends(t, t') && !it.Bar?
    requires forall env: Env :: Solves(env, t') ==>
               ItemLang(env, it) == RepLang(ItemLang(env, items[|items| - 1]), R.Least(q), R.Most(q))
    ensures Meaning(t', dotAll, items[..|items| - 1] + [it], Quantified(done, q), R.Once)
  {
    OpenMono(t, t', dotAll, items, done);
    PutQuantifier(t', dotAll, items, done, it, q);
  }

  lemma {:induction false} MeaningLiteral(t: Table, dotAll: bool, items: Body, done: seq<R.Token>, literal: string,
      q: R.Quant)
    requires Meaning(t, dotAll, items, done, R.Once) && literal != "" && (|literal| > 1 ==> q == R.Once)
    ensures Meaning(t, dotAll, items + [Lit(literal)], done + CharTokens(literal), q)
  {
    PushLiteral(t, dotAll, items, done, literal);
    if |literal| == 1 {
      assert literal == [literal[0]] && CharTokens(literal) == [CharToken(literal[0])];
      PushAtom(t, dotAll, items, done, Lit(literal), R.Char(literal[0]));
    }
  }

  function Stripped(done: seq<R.Token>, todo: seq<R.Token>): seq<R.Token>
    requires todo != [] && todo[0].P?
  {
    done + [R.P(R.Piece(todo[0].piece.atom, R.Once))]
  }

  lemma {:induction false} BeginReading(re: R.Regex, s: string, tail: string, t: Table, dotAll: bool)
    requires R.Good(re) && s == R.Show(re) + tail
    ensures Text(R.Tokens(re.branches), s, [], R.Once, R.Tokens(re.branches), tail)
    ensures Meaning(t, dotAll, [], [], R.Once)
  {
    hide R.ShowTokens, R.ShowBranches, R.Tokens, R.GoodTokens, R.GoodPiece;
    var toks := R.Tokens(re.branches);
    R.ShowAllTokens(re.branches);
    R.GoodAllTokens(re.branches);
    Parts("", "", R.ShowTokens(toks), tail);
    assert [] + toks == toks;
    NothingRead(t, dotAll);
  }

  lemma NothingRead(t: Table, dotAll: bool)
    ensures Meaning(t, dotAll, [], [], R.Once)
  {
  }

  /** Everything read: the items, merged, denote the expression. */
  lemma {:induction false} DoneReading(re: R.Regex, dotAll: bool, t: Table, items: Body, done: seq<R.Token>,
      q: R.Quant, body: Body)
    requires re.branches != [] && done == R.Tokens(re.branches) && Meaning(t, dotAll, items, done, q)
    requires forall env: Env :: BodyLang(env, body) == BodyLang(env, items)
    ensures forall env: Env :: Solves(env, t) ==> BodyLang(env, body) == R.RegexLang(dotAll, re)
  {
    R.TokensDenoteRegex(dotAll, re);
    forall env: Env | Solves(env, t) ensures BodyLang(env, body) == R.RegexLang(dotAll, re) {
      BodyIsEarlierAndLast(env, items);
      assert Agree(env, dotAll, items, done);
    }
  }

  lemma {:induction false} EndOfText(toks: seq<R.Token>, s: string, done: seq<R.Token>, q: R.Quant,
      todo: seq<R.Token>, tail: string)
    requires Text(toks, s, done, q, todo, tail)
    requires s == "" || (q == R.Once && todo == [])
    ensures done == toks && s == tail
  {
    if q != R.Once { FirstOfQuant(q); }
    if todo != [] && todo[0].P? { FirstOfAtom(todo[0].piece.atom); }
    if todo == [] {
      assert R.ShowQuant(R.Once) + R.ShowTokens([]) + tail == tail;
    }
  }

  lemma ParenthesisEnds(toks: seq<R.Token>, s: string, done: seq<R.Token>, q: R.Quant, todo: seq<R.Token>,
      tail: string)
    requires Text(toks, s, done, q, todo, tail) && s != "" && s[0] == ')' && TailOk(tail)
    ensures done == toks && s == tail
  {
    NextChar(s, q, todo, tail);
    EndOfText(toks, s, done, q, todo, tail);
  }

  lemma TextEnds(toks: seq<R.Token>, s: string, done: seq<R.Token>, q: R.Quant, todo: seq<R.Token>, tail: string)
    requires Text(toks, s, done, q, todo, tail) && s == ""
    ensures done == toks && tail == ""
  {
    EndOfText(toks, s, done, q, todo, tail);
  }

  /** The text of the next atom, and what follows it. */
  ghost function AfterNext(todo: seq<R.Token>, tail: string): string
    requires todo != [] && todo[0].P?
  {
    R.ShowQuant(todo[0].piece.quant) + R.ShowTokens(todo[1..]) + tail
  }

  lemma MoveOverAtom(toks: seq<R.Token>, s: string, s': string, done: seq<R.Token>, todo: seq<R.Token>, tail: string,
                     t: Table, t': Table, dotAll: bool, items: Body, it: Item)
    requires Text(toks, s, done, R.Once, todo, tail) && Meaning(t, dotAll, items, done, R.Once) && Extends(t, t')
    requires todo != [] && todo[0].P? && !it.Bar? && s' == AfterNext(todo, tail)
    requires forall env: Env :: Solves(env, t') ==> ItemLang(env, it) == R.AtomLang(dotAll, todo[0].piece.atom)
    ensures Text(toks, s', Stripped(done, todo), todo[0].piece.quant, todo[1..], tail)
    ensures Meaning(t', dotAll, items + [it], Stripped(done, todo), todo[0].piece.quant)
  {
    AfterAtom(s, todo, tail);
    TextAtom(toks, s, s', done, todo, tail);
    MeaningAtom(t, t', dotAll, items, done, it, todo[0].piece.atom, todo[0].piece.quant);
  }

  lemma QuantRest(s: string, q: R.Quant, rest: string)
    requires q != R.Once && s == R.ShowQuant(q) + rest
    ensures IsBraced(q) && R.GoodQuant(q) ==> s != "" && s[1..] == Braced(q) + "}" + rest
    ensures !IsBraced(q) ==> s != "" && R.ShowQuant(q) == [s[0]] && s[1..] == rest
  {
    if IsBraced(q) && R.GoodQuant(q) {
      BracedText(q);
      assert s == "{" + (Braced(q) + "}" + rest);
    }
  }

  lemma QuantText(s: string, q: R.Quant, todo: seq<R.Token>, tail: string)
    requires q != R.Once && s == R.ShowQuant(q) + R.ShowTokens(todo) + tail
    ensures s == R.ShowQuant(q) + (R.ShowTokens(todo) + tail)
    ensures IsBraced(q) && R.GoodQuant(q) ==> s != "" && s[1..] == Braced(q) + "}" + (R.ShowTokens(todo) + tail)
    ensures !IsBraced(q) ==> s != "" && R.ShowQuant(q) == [s[0]] && s[1..] == R.ShowTokens(todo) + tail
  {
    hide *;
    Associate(R.ShowQuant(q), R.ShowTokens(todo), tail);
    QuantRest(s, q, R.ShowTokens(todo) + tail);
  }

  lemma Associate(a: string, b: string, c: string)
    ensures a + b + c == a + (b + c)
  {
  }

  /** `*`, `+`, `?` or braces after an item: what the item becomes. */
  method ReadQuantifier(t: RuleTable, p: string, name: string, i0: nat, last: Item, subIds0: map<Item, string>,
                        ghost q: R.Quant, ghost todo: seq<R.Token>, ghost tail: string)
    returns (i: nat, r: Item, subIds: map<Item, string>, errors: seq<string>)
    requires SubIdsOk(t.rules, subIds0) && !last.Bar?
    requires i0 < |p| && q != R.Once && R.GoodQuant(q) && p[i0..] == R.ShowQuant(q) + R.ShowTokens(todo) + tail
    modifies t
    ensures (old(t.Valid()) ==> t.Valid()) && Extends(old(t.rules), t.rules) && SubIdsOk(t.rules, subIds)
            && OnlyAuxiliary(name, old(t.rules), t.rules)
    ensures errors == [] && !r.Bar?
    ensures i0 < i <= |p| && p[i..] == R.ShowTokens(todo) + tail
    ensures forall env: Env :: Solves(env, t.rules) ==>
            ItemLang(env, r) == RepLang(ItemLang(env, last), R.Least(q), R.Most(q))
  {
    var c := p[i0];
    QuantText(p[i0..], q, todo, tail);
    i, subIds, errors := i0 + 1, subIds0, [];
    assert p[i0..][1..] == p[i..];
    if c == '{' {
      var minTimes, maxTimes;
      i, minTimes, maxTimes, errors := ReadCounts(p, i, q, R.ShowTokens(todo) + tail);
      r, subIds := Repeat(t, name, last, subIds, minTimes, maxTimes);
    } else {
      r := Suffixed(last, c);
    }
  }

  /** A dot, a parenthesised expression or a character class. */
  method ReadAtom(t: RuleTable, p: string, dotAll: bool, name: string, i0: nat, subIds0: map<Item, string>,
                  ghost todo: seq<R.Token>, ghost tail: string)
    returns (i: nat, it: Item, subIds: map<Item, string>, errors: seq<string>)
    requires SubIdsOk(t.rules, subIds0)
    requires i0 < |p| && todo != [] && todo[0].P? && !todo[0].piece.atom.Char? && R.GoodTokens(todo)
    requires p[i0..] == R.ShowAtom(todo[0].piece.atom) + AfterNext(todo, tail)
    modifies t
    ensures (old(t.Valid()) ==> t.Valid()) && Extends(old(t.rules), t.rules) && SubIdsOk(t.rules, subIds)
            && OnlyAuxiliary(name, old(t.rules), t.rules)
    ensures errors == [] && !it.Bar?
    ensures i0 < i <= |p| && p[i..] == AfterNext(todo, tail)
    ensures forall env: Env :: Solves(env, t.rules) ==> ItemLang(env, it) == R.AtomLang(dotAll, todo[0].piece.atom)
    decreases |p| - i0, 0
  {
    var c := p[i0];
    ghost var a, rest := todo[0].piece.atom, AfterNext(todo, tail);
    FirstOfAtom(a);
    i, subIds, errors := i0 + 1, subIds0, [];
    assert p[i..] == p[i0..][1..];
    if c == '.' {
      var key := GetDot(t, dotAll, name);
      it := Ref(key);
    } else if c == '(' {
      assert p[i..] == R.Show(a.re) + (")" + rest);
      var sub;
      i, sub, subIds, errors := Transform(t, p, dotAll, name, i, subIds, a.re, ")" + rest);
      it := Group(sub);
    } else {
      assert p[i..] == a.text + "]" + rest;
      var brackets;
      i, brackets := ReadBrackets(p, i, a.text, rest);
      it := Class(brackets);
    }
  }

  /** One turn of the reader's loop, unless it meets a closing parenthesis. */
  method ReadNext(t: RuleTable, p: string, dotAll: bool, name: string, i0: nat, items0: Body, subIds0: map<Item,
      string>,
                  ghost toks: seq<R.Token>, ghost done0: seq<R.Token>, ghost q0: R.Quant, ghost todo0: seq<R.Token>,
                      ghost tail: string)
    returns (i: nat, items: Body, subIds: map<Item, string>, errors: seq<string>,
             ghost done: seq<R.Token>, ghost q: R.Quant, ghost todo: seq<R.Token>)
    requires SubIdsOk(t.rules, subIds0)
    requires i0 < |p| && p[i0] != ')' && TailOk(tail)
    requires Text(toks, p[i0..], done0, q0, todo0, tail) && Meaning(t.rules, dotAll, items0, done0, q0)
    modifies t
    ensures (old(t.Valid()) ==> t.Valid()) && Extends(old(t.rules), t.rules) && SubIdsOk(t.rules, subIds)
            && OnlyAuxiliary(name, old(t.rules), t.rules)
    ensures errors == [] && i0 < i <= |p|
    ensures Text(toks, p[i..], done, q, todo, tail) && Meaning(t.rules, dotAll, items, done, q)
    decreases |p| - i0, 1
  {
    hide Intact, Closed, R.ShowTokens, BodyLang, ItemLang;
    var c := p[i0];
    ghost var s, before := p[i0..], t.rules;
    NextChar(s, q0, todo0, tail);
    if c == '.' || c == '(' || c == '[' {
      var it;
      AfterAtom(s, todo0, tail);
      i, it, subIds, errors := ReadAtom(t, p, dotAll, name, i0, subIds0, todo0, tail);
      MoveOverAtom(toks, s, p[i..], done0, todo0, tail, before, t.rules, dotAll, items0, it);
      items := items0 + [it];
      done, q, todo := Stripped(done0, todo0), todo0[0].piece.quant, todo0[1..];
    } else if c == '|' {
      TextOr(toks, s, done0, todo0, tail);
      MeaningOr(t.rules, dotAll, items0, done0);
      i, subIds, errors := i0 + 1, subIds0, [];
      assert p[i..] == s[1..];
      items := items0 + [Bar];
      done, q, todo := done0 + [R.Or], R.Once, todo0[1..];
    } else if c == '*' || c == '+' || c == '?' || c == '{' {
      var r;
      QuantText(s, q0, todo0, tail);
      i, r, subIds, errors := ReadQuantifier(t, p, name, i0, items0[|items0| - 1], subIds0, q0, todo0, tail);
      TextQuant(toks, s, p[i..], done0, q0, todo0, tail);
      MeaningQuant(before, t.rules, dotAll, items0, done0, q0, r);
      items := items0[..|items0| - 1] + [r];
      done, q, todo := Quantified(done0, q0), R.Once, todo0;
    } else {
      var literal;
      Parts("", "", R.ShowTokens(todo0), tail);
      i, literal := ReadLiteral(p, i0, todo0, tail);
      TextLiteral(toks, s, p[i..], done0, todo0, tail, literal);
      MeaningLiteral(t.rules, dotAll, items0, done0, literal, LastQuant(todo0, |literal|));
      items, subIds, errors := items0 + [Lit(literal)], subIds0, [];
      done, q, todo := done0 + CharTokens(literal), LastQuant(todo0, |literal|), todo0[|literal|..];
    }
  }

  /** The recursive reader. It consumes one expression, and the parenthesis that closes it. */
  method Transform(t: RuleTable, p: string, dotAll: bool, name: string, start: nat, subIds0: map<Item, string>,
                   ghost re: R.Regex, ghost tail: string)
    returns (i: nat, body: Body, subIds: map<Item, string>, errors: seq<string>)
    requires SubIdsOk(t.rules, subIds0)
    requires R.Good(re) && TailOk(tail) && start <= |p| && p[start..] == R.Show(re) + tail
    requires tail != "" && start > 0 ==> p[start - 1] == '('
    modifies t
    ensures (old(t.Valid()) ==> t.Valid()) && Extends(old(t.rules), t.rules) && SubIdsOk(t.rules, subIds)
            && OnlyAuxiliary(name, old(t.rules), t.rules)
    ensures errors == []
    ensures start <= i <= |p| && p[i..] == if tail == "" then "" else tail[1..]
    ensures forall env: Env :: Solves(env, t.rules) ==> BodyLang(env, body) == R.RegexLang(dotAll, re)
    decreases |p| - start, 2
  {
    hide SubIdsOk, R.RegexLang, Text, Meaning, OnlyAuxiliary, R.Tokens, R.Show;
    i, subIds, errors := start, subIds0, [];
    var items: Body := [];
    ghost var toks := R.Tokens(re.branches);
    ghost var done, q, todo := [], R.Once, toks;
    BeginReading(re, p[start..], tail, t.rules, dotAll);
    NoneAdded(name, t.rules);
    while i < |p|
      invariant start <= i <= |p|
      invariant (old(t.Valid()) ==> t.Valid()) && Extends(old(t.rules), t.rules) && SubIdsOk(t.rules, subIds)
                && OnlyAuxiliary(name, old(t.rules), t.rules)
      invariant errors == []
      invariant Text(toks, p[i..], done, q, todo, tail) && Meaning(t.rules, dotAll, items, done, q)
      decreases |p| - i
    {
      if p[i] == ')' {
        ghost var s := p[i..];
        i := i + 1;
        if start > 0 && p[start - 1] != '(' {
          errors := errors + ["Unbalanced parentheses"];
        }
        ParenthesisEnds(toks, s, done, q, todo, tail);
        assert p[i..] == s[1..];
        body := JoinSeq(items);
        DoneReading(re, dotAll, t.rules, items, done, q, body);
        return;
      }
      var errs;
      ghost var before := t.rules;
      i, items, subIds, errs, done, q, todo := ReadNext(t, p, dotAll, name, i, items, subIds, toks, done, q, todo,
          tail);
      errors := errors + errs;
      MoreAdded(name, old(t.rules), before, t.rules);
    }
    TextEnds(toks, p[i..], done, q, todo, tail);
    body := JoinSeq(items);
    DoneReading(re, dotAll, t.rules, items, done, q, body);
  }

  /** `_visit_pattern`: the quoted rule for an anchored expression. */
  method VisitPattern(t: RuleTable, pattern: string, dotAll: bool, name: string, ghost re: R.Regex)
    returns (key: string, errors: seq<string>)
    requires R.Good(re) && pattern == "^" + R.Show(re) + "$"
    modifies t
    ensures (old(t.Valid()) && Escape(name) !in t.prims ==> t.Valid()) && Extends(old(t.rules), t.rules) && errors == []
    ensures forall k :: k in t.rules && k !in old(t.rules) ==> Auxiliary(name, k) || k == key
    ensures KeyFor(Escape(name), key) && key in t.rules
    ensures Escape(name) !in old(t.rules) && !Near("dot", Escape(name)) ==> key == Escape(name)
    ensures forall env: Env :: Solves(env, t.rules) ==>
              env[key] == Cat(iset{"\""}, Cat(R.RegexLang(dotAll, re), Cat(iset{"\""}, ItemLang(env, Ref("space")))))
  {
    errors := [];
    if !(pattern[0] == '^' && pattern[|pattern| - 1] == '$') {
      errors := ["Pattern must start with '^' and end with '$'"];
      return "", errors;
    }
    var subPattern := pattern[1..|pattern| - 1];
    assert subPattern[0..] == R.Show(re) + "";
    var i, body, subIds;
    i, body, subIds, errors := Transform(t, subPattern, dotAll, name, 0, map[], re, "");
    ghost var mid := t.rules;
    key := t.AddRule(name, [Lit("\""), Group(body), Lit("\""), Ref("space")]);
    forall env: Env | Solves(env, t.rules)
      ensures env[key] == Cat(iset{"\""}, Cat(R.RegexLang(dotAll, re), Cat(iset{"\""}, ItemLang(env, Ref("space")))))
    {
      SolvesMono(env, mid, t.rules);
      QuotedBody(env, Group(body));
    }
  }

  lemma {:induction false} QuotedBody(env: Env, it: Item)
    requires !it.Bar?
    ensures BodyLang(env, [Lit("\""), it, Lit("\""), Ref("space")])
            == Cat(iset{"\""}, Cat(ItemLang(env, it), Cat(iset{"\""}, ItemLang(env, Ref("space")))))
  {
    var a, b, c, d := Lit("\""), it, Lit("\""), Ref("space");
    BodyOfSeq(env, [a, b, c, d]);
    assert [a, b, c, d][1..] == [b, c, d] && [b, c, d][1..] == [c, d];
    SeqTwo(env, c, d);
  }
}
