/** What the built-in rules denote, in every solution of a table that holds them. */
module BuiltinTexts {
  import opened Gbnf
  import opened Rules
  import opened BuiltinRules
  import opened JsonTexts

  // ---------------------------------------------------------------- characters, words of a fixed length

  lemma {:induction false} PowOfClass(t: string, n: nat, w: string)
    requires t != "" && t != "^"
    ensures w in Pow(ClassLang(t), n) <==> |w| == n && forall i :: 0 <= i < |w| ==> ClassHas(t, w[i])
  {
    if n > 0 {
      InCharCat(t, Pow(ClassLang(t), n - 1), w);
      if w != "" {
        PowOfClass(t, n - 1, w[1..]);
        assert forall i :: 1 <= i < |w| ==> w[i] == w[1..][i - 1];
      }
    }
  }

  lemma HexClass(c: char)
    ensures ClassHas(HEX.text, c) <==> IsHex(c)
  {
    var t := HEX.text;
    assert t[3..] == "a-fA-F" && "a-fA-F"[3..] == "A-F" && "A-F"[3..] == "";
    assert InRanges("A-F", c) <==> 'A' <= c <= 'F';
    assert InRanges("a-fA-F", c) <==> 'a' <= c <= 'f' || InRanges("A-F", c);
  }

  lemma HexDigits(w: string)
    ensures w in RepLang(ClassLang(HEX.text), 4, Upto(4)) <==> |w| == 4 && AllHex(w)
  {
    PowOfClass(HEX.text, 4, w);
    forall c: char ensures ClassHas(HEX.text, c) <==> IsHex(c) {
      HexClass(c);
    }
    if w in Pow(ClassLang(HEX.text), 4) { assert Allowed(4, 4, Upto(4)); }
  }

  lemma PlainClass(c: char)
    ensures ClassHas(PLAIN.text, c) <==> PlainChar(c)
  {
    var r := "\"\\\U{7F}\0-\U{1F}";
    assert PLAIN.text[1..] == r;
    assert r[1..] == "\\\U{7F}\0-\U{1F}" && r[1..][1..] == "\U{7F}\0-\U{1F}" && r[1..][1..][1..] == "\0-\U{1F}";
    assert "\0-\U{1F}"[3..] == "";
    assert InRanges("\0-\U{1F}", c) <==> c < ' ';
    assert InRanges("\U{7F}\0-\U{1F}", c) <==> c == '\U{7F}' || InRanges("\0-\U{1F}", c);
    assert InRanges("\\\U{7F}\0-\U{1F}", c) <==> c == '\\' || InRanges("\U{7F}\0-\U{1F}", c);
  }

  lemma InHexEscape(w: string)
    ensures w in Cat(iset{"u"}, RepLang(ClassLang(HEX.text), 4, Upto(4))) <==> HexEscape(w)
  {
    InLitCat("u", RepLang(ClassLang(HEX.text), 4, Upto(4)), w);
    if w != "" {
      HexDigits(w[1..]);
      assert |w| == 5 ==> forall i :: 1 <= i < 5 ==> w[i] == w[1..][i - 1];
      assert |w| == 5 ==> forall i :: 0 <= i < 4 ==> w[1..][i] == w[i + 1];
    }
  }

  /** `a | b d` */
  lemma {:induction false} OneOrTwo(env: Env, a: Item, b: Item, d: Item)
    requires !a.Bar? && !b.Bar? && !d.Bar?
    ensures BodyLang(env, [a, Bar, b, d]) == ItemLang(env, a) + Cat(ItemLang(env, b), ItemLang(env, d))
  {
    var x, y := [a], [b, d];
    assert BodyLang(env, x) == ItemLang(env, a) by { SeqOne(env, a); }
    assert BodyLang(env, y) == Cat(ItemLang(env, b), ItemLang(env, d)) by {
      SeqTwo(env, b, d);
      BodyOfSeq(env, y);
    }
    assert [a, Bar, b, d] == x + [Bar] + y;
    BodyAlt(env, x, y);
  }

  lemma InEscape(env: Env, w: string)
    ensures w in ItemLang(env, ESCAPED) <==> ShortEscape(w) || HexEscape(w)
  {
    OneOrTwo(env, SHORT, Lit("u"), Times(HEX, 4));
    InHexEscape(w);
    if |w| == 1 {
      NoHyphenRanges(SHORT.text, w[0]);
      assert w == [w[0]];
    }
  }

  /** The built-in rule `char` is one character of a JSON string. */
  lemma CharIsJson(env: Env, w: string)
    ensures w in BodyLang(env, CHAR) <==> JsonChar(w)
  {
    OneOrTwo(env, PLAIN, Class("\\"), ESCAPED);
    InCharCat("\\", ItemLang(env, ESCAPED), w);
    if w != "" {
      PlainClass(w[0]);
      NoHyphenRanges("\\", w[0]);
      InEscape(env, w[1..]);
      assert |w| == 1 ==> w == [w[0]];
    }
  }

  // ---------------------------------------------------------------- pieces of rules

  /** The first words have all the same length. */
  ghost predicate Fixed(a: Lang, n: nat) { forall u :: u in a ==> |u| == n }

  lemma InFixed(a: Lang, n: nat, b: Lang, w: string)
    requires Fixed(a, n)
    ensures w in Cat(a, b) <==> |w| >= n && w[..n] in a && w[n..] in b
  {
    if |w| >= n && w[..n] in a && w[n..] in b { assert SplitAt(a, b, w, n); }
    if InCat(a, b, w) {
      var k :| SplitAt(a, b, w, k);
      assert |w[..k]| == n;
    }
  }

  lemma {:induction false} SeqCons(env: Env, it: Item, rest: Body)
    requires !it.Bar?
    ensures SeqLang(env, [it] + rest) == Cat(ItemLang(env, it), SeqLang(env, rest))
  {
    assert ([it] + rest)[1..] == rest;
  }

  lemma {:induction false} OptBody(env: Env, b: Body)
    ensures ItemLang(env, Opt(b)) == Eps() + BodyLang(env, b)
  {
    OptLang(BodyLang(env, b));
  }

  lemma RepOfClass(t: string, lo: nat, hi: nat, w: string)
    requires t != "" && t != "^" && lo <= hi
    ensures w in RepLang(ClassLang(t), lo, Upto(hi)) <==>
              lo <= |w| <= hi && forall i :: 0 <= i < |w| ==> ClassHas(t, w[i])
  {
    PowOfClass(t, |w|, w);
    if lo <= |w| <= hi && forall i :: 0 <= i < |w| ==> ClassHas(t, w[i]) { assert Allowed(|w|, lo, Upto(hi)); }
    if n: nat :| Allowed(n, lo, Upto(hi)) && w in Pow(ClassLang(t), n) { PowOfClass(t, n, w); }
  }

  lemma RangeClass(a: char, b: char, c: char)
    requires a != '^'
    ensures ClassHas([a, '-', b], c) <==> a <= c <= b
  {
    var t := [a, '-', b];
    assert t[3..] == "" && !InRanges("", c);
    assert InRanges(t, c) <==> a <= c <= b;
  }

  lemma Digits(lo: nat, hi: nat, w: string)
    requires lo <= hi
    ensures w in RepLang(ClassLang(DIGIT.text), lo, Upto(hi)) <==> lo <= |w| <= hi && AllDigits(w)
  {
    RepOfClass(DIGIT.text, lo, hi, w);
    assert DIGIT.text == ['0', '-', '9'];
    forall c: char ensures ClassHas(DIGIT.text, c) <==> IsDigit(c) { RangeClass('0', '9', c); }
  }

  lemma OneOfClass(t: string, w: string)
    requires t != "" && t != "^"
    ensures w in ClassLang(t) <==> |w| == 1 && ClassHas(t, w[0])
  {
    if |w| == 1 { assert w == [w[0]]; }
  }

  // ---------------------------------------------------------------- white space

  lemma {:induction false} SpaceParts(env: Env)
    ensures BodyLang(env, SPACE_RULE) == Eps() + (iset{" "} + Cat(iset{"\n"}, RepLang(ClassLang(" \t"), 0, Upto(20))))
  {
    hide BodyLang, SeqLang, Cat, RepLang, ClassLang;
    var lines := [Lit("\n"), Rep(Class(" \t"), 0, Upto(20))];
    var one, none: Body := [Lit(" ")], [];
    assert SPACE_RULE == none + [Bar] + (one + [Bar] + lines);
    BodyAlt(env, none, one + [Bar] + lines);
    BodyAlt(env, one, lines);
    SeqOne(env, one[0]);
    SeqTwo(env, lines[0], lines[1]);
    BodyOfSeq(env, lines);
    NoItems(env);
  }

  lemma {:induction false} NoItems(env: Env)
    ensures BodyLang(env, []) == Eps()
  {
    BodyOfSeq(env, []);
  }

  lemma {:induction false} SpaceText(env: Env)
    ensures BodyLang(env, SPACE_RULE) == Blank()
  {
    hide BodyLang, Cat, RepLang, ClassLang;
    SpaceParts(env);
    forall w ensures w in BodyLang(env, SPACE_RULE) <==> IsBlank(w) { InLines(w); }
  }

  lemma InLines(w: string)
    ensures w in Cat(iset{"\n"}, RepLang(ClassLang(" \t"), 0, Upto(20))) <==>
              w != "" && w[0] == '\n' && |w| <= 21 && forall i :: 1 <= i < |w| ==> w[i] == ' ' || w[i] == '\t'
  {
    InLitCat("\n", RepLang(ClassLang(" \t"), 0, Upto(20)), w);
    if w != "" {
      RepOfClass(" \t", 0, 20, w[1..]);
      forall c: char ensures ClassHas(" \t", c) <==> c == ' ' || c == '\t' { NoHyphenRanges(" \t", c); }
      assert forall i :: 1 <= i < |w| ==> w[i] == w[1..][i - 1];
    }
  }

  /** In every solution, `space` is white space. */
  ghost predicate Spaces(env: Env) { ItemLang(env, SP) == Blank() }

  lemma SpaceDenotes(t: Table, env: Env)
    requires "space" in t && t["space"] == SPACE_RULE && Solves(env, t)
    ensures Spaces(env)
  {
    SpaceText(env);
  }

  // ---------------------------------------------------------------- words and numbers

  /** `x space` */
  lemma {:induction false} SpacedItem(env: Env, it: Item)
    requires Spaces(env) && !it.Bar?
    ensures BodyLang(env, [it, SP]) == Cat(ItemLang(env, it), Blank())
  {
    SeqTwo(env, it, SP);
    BodyOfSeq(env, [it, SP]);
  }

  lemma {:induction false} BooleanText(env: Env)
    requires Spaces(env)
    ensures BodyLang(env, BOOLEAN) == BooleanTexts()
  {
    var yes, no: Body := [Lit("true")], [Lit("false")];
    var choice := [Lit("true"), Bar, Lit("false")];
    SpacedItem(env, Group(choice));
    assert choice == yes + [Bar] + no;
    BodyAlt(env, yes, no);
    SeqOne(env, yes[0]);
    SeqOne(env, no[0]);
    assert iset{"true"} + iset{"false"} == iset{"true", "false"};
  }

  lemma {:induction false} NullText(env: Env)
    requires Spaces(env)
    ensures BodyLang(env, NULL) == NullTexts()
  {
    SpacedItem(env, Lit("null"));
  }

  lemma {:induction false} DecimalText(env: Env)
    ensures BodyLang(env, DECIMAL_PART) == Decimals()
  {
    SeqOne(env, DECIMAL_PART[0]);
    forall w ensures w in BodyLang(env, DECIMAL_PART) <==> 1 <= |w| <= 16 && AllDigits(w) { Digits(1, 16, w); }
  }

  lemma {:induction false} IntegralText(env: Env)
    ensures BodyLang(env, INTEGRAL_PART) == Integrals()
  {
    OneOrTwo(env, Class("0"), Class("1-9"), Rep(DIGIT, 0, Upto(15)));
    forall w ensures w in BodyLang(env, INTEGRAL_PART) <==> IsIntegral(w) { InIntegral(w); }
  }

  lemma InIntegral(w: string)
    ensures w in ClassLang("0") + Cat(ClassLang("1-9"), RepLang(ClassLang(DIGIT.text), 0, Upto(15))) <==> IsIntegral(w)
  {
    hide ClassLang, Cat, RepLang;
    OneOfClass("0", w);
    InCharCat("1-9", RepLang(ClassLang(DIGIT.text), 0, Upto(15)), w);
    if w != "" {
      NoHyphenRanges("0", w[0]);
      assert ['1', '-', '9'] == "1-9";
      RangeClass('1', '9', w[0]);
      Digits(0, 15, w[1..]);
      assert AllDigits(w) <==> IsDigit(w[0]) && AllDigits(w[1..]) by {
        assert forall i :: 1 <= i < |w| ==> w[i] == w[1..][i - 1];
      }
    }
  }

  ghost predicate Denotes(env: Env, p: string, l: Lang) { ItemLang(env, Ref(p)) == l }

  lemma {:induction false} SignedText(env: Env)
    requires Denotes(env, "integral-part", Integrals())
    ensures ItemLang(env, SIGNED) == Integers()
  {
    hide Cat, RepLang;
    var minus := Rep(Lit("-"), 0, Upto(1));
    SeqTwo(env, minus, Ref("integral-part"));
    BodyOfSeq(env, [minus, Ref("integral-part")]);
    OptThen(iset{"-"}, Integrals());
    forall w ensures w in ItemLang(env, SIGNED) <==> IsInteger(w) {
      InLitCat("-", Integrals(), w);
    }
  }

  lemma OptThen(x: Lang, r: Lang)
    ensures Cat(RepLang(x, 0, Upto(1)), r) == r + Cat(x, r)
  {
    OptLang(x);
    CatUnion(r, Eps(), x);
    CatUnion(Eps(), x, r);
    CatEps(r);
  }

  lemma {:induction false} IntegerText(env: Env)
    requires Spaces(env) && Denotes(env, "integral-part", Integrals())
    ensures BodyLang(env, INTEGER) == IntegerTexts()
  {
    SpacedItem(env, SIGNED);
    SignedText(env);
  }

  const FRACTION: Body := [Lit("."), Ref("decimal-part")]
  const EXPONENT: Body := [Class("eE"), Rep(Class("-+"), 0, Upto(1)), Ref("integral-part")]

  lemma {:induction false} FractionText(env: Env)
    requires Denotes(env, "decimal-part", Decimals())
    ensures BodyLang(env, FRACTION) == Fractions()
  {
    SeqTwo(env, FRACTION[0], FRACTION[1]);
    BodyOfSeq(env, FRACTION);
    forall w ensures w in BodyLang(env, FRACTION) <==> IsFraction(w) {
      InLitCat(".", Decimals(), w);
    }
  }

  lemma {:induction false} ExponentText(env: Env)
    requires Denotes(env, "integral-part", Integrals())
    ensures BodyLang(env, EXPONENT) == Exponents()
  {
    var sign, whole := Rep(Class("-+"), 0, Upto(1)), Integrals();
    SeqTwo(env, sign, Ref("integral-part"));
    assert EXPONENT == [Class("eE")] + [sign, Ref("integral-part")];
    SeqCons(env, Class("eE"), [sign, Ref("integral-part")]);
    BodyOfSeq(env, EXPONENT);
    OptThen(ClassLang("-+"), whole);
    forall w ensures w in BodyLang(env, EXPONENT) <==> IsExponent(w) {
      InExponent(w);
    }
  }

  lemma InExponent(w: string)
    ensures var whole := Integrals();
            w in Cat(ClassLang("eE"), whole + Cat(ClassLang("-+"), whole)) <==> IsExponent(w)
  {
    var whole := Integrals();
    InCharCat("eE", whole + Cat(ClassLang("-+"), whole), w);
    if w != "" {
      NoHyphenRanges("eE", w[0]);
      InCharCat("-+", whole, w[1..]);
      if |w| > 1 {
        assert w[1..][0] == w[1] && w[1..][1..] == w[2..];
        assert "-+"[1..] == "+" && "+"[1..] == "";
        assert InRanges("+", w[1]) <==> w[1] == '+' by { NoHyphenRanges("+", w[1]); }
      }
    }
  }

  lemma {:induction false} NumberText(env: Env)
    requires Spaces(env) && Denotes(env, "integral-part", Integrals()) && Denotes(env, "decimal-part", Decimals())
    ensures BodyLang(env, NUMBER) == NumberTexts()
  {
    hide Integers, Fractions, Exponents, Cat;
    SignedText(env);
    FractionText(env);
    ExponentText(env);
    OptBody(env, FRACTION);
    OptBody(env, EXPONENT);
    var f, e := Opt(FRACTION), Opt(EXPONENT);
    SeqTwo(env, e, SP);
    SeqCons(env, f, [e, SP]);
    SeqCons(env, SIGNED, [f] + [e, SP]);
    assert NUMBER == [SIGNED] + ([f] + [e, SP]);
    BodyOfSeq(env, NUMBER);
    CatAssoc(Eps() + Fractions(), Eps() + Exponents(), Blank());
    CatAssoc(Integers(), Cat(Eps() + Fractions(), Eps() + Exponents()), Blank());
  }

  // ---------------------------------------------------------------- strings

  /** Something between quotes, and white space. */
  lemma {:induction false} QuotedItem(env: Env, it: Item, l: Lang)
    requires Spaces(env) && !it.Bar? && ItemLang(env, it) == l
    ensures BodyLang(env, [QUOTE, it, QUOTE, SP]) == Quoted(l)
  {
    SeqTwo(env, QUOTE, SP);
    SeqCons(env, it, [QUOTE, SP]);
    SeqCons(env, QUOTE, [it] + [QUOTE, SP]);
    assert [QUOTE, it, QUOTE, SP] == [QUOTE] + ([it] + [QUOTE, SP]);
    BodyOfSeq(env, [QUOTE, it, QUOTE, SP]);
  }

  lemma {:induction false} CharText(env: Env)
    ensures BodyLang(env, CHAR) == Chars()
  {
    forall w ensures w in BodyLang(env, CHAR) <==> JsonChar(w) { CharIsJson(env, w); }
  }

  /** Characters in a row are what stands in a string. */
  lemma {:induction false} CharsInString(n: nat, w: string)
    requires w in Pow(Chars(), n)
    ensures InString(w)
    decreases n
  {
    if n > 0 {
      var k :| SplitAt(Chars(), Pow(Chars(), n - 1), w, k);
      CharsInString(n - 1, w[k..]);
      var u := w[..k];
      if u[0] == '\\' { assert u[1..] == w[1..k]; }
    }
  }

  lemma {:induction false} StringOfChars(w: string) returns (n: nat)
    requires InString(w)
    ensures w in Pow(Chars(), n)
    decreases |w|
  {
    if w == "" {
      n := 0;
    } else {
      var k := if PlainChar(w[0]) && InString(w[1..]) then 1
               else if |w| >= 2 && ShortEscape(w[1..2]) && InString(w[2..]) then 2 else 6;
      n := StringOfChars(w[k..]);
      assert JsonChar(w[..k]) by { assert k > 1 ==> w[..k][1..] == w[1..k]; }
      assert SplitAt(Chars(), Pow(Chars(), n), w, k);
      n := n + 1;
    }
  }

  lemma {:induction false} StringText(env: Env)
    requires Spaces(env) && Denotes(env, "char", Chars())
    ensures BodyLang(env, STRING) == StringTexts()
  {
    var many := Rep(Ref("char"), 0, Unbounded);
    QuotedItem(env, many, ItemLang(env, many));
    forall w ensures w in ItemLang(env, many) <==> InString(w) { InMany(w); }
    StringLang(ItemLang(env, many));
  }

  lemma InMany(w: string)
    ensures w in RepLang(Chars(), 0, Unbounded) <==> InString(w)
  {
    if n: nat :| Allowed(n, 0, Unbounded) && w in Pow(Chars(), n) { CharsInString(n, w); }
    if InString(w) {
      var n := StringOfChars(w);
      assert Allowed(n, 0, Unbounded);
    }
  }

  lemma StringLang(inner: Lang)
    requires forall w :: w in inner <==> InString(w)
    ensures Quoted(inner) == StringTexts()
  {
    CatAssoc(inner, iset{"\""}, Blank());
    CatAssoc(iset{"\""}, Cat(inner, iset{"\""}), Blank());
    forall w ensures w in Cat(iset{"\""}, Cat(inner, iset{"\""})) <==> IsString(w) {
      InLitCat("\"", Cat(inner, iset{"\""}), w);
      if w != "" { InCatLit(inner, "\"", w[1..]); }
      if |w| >= 2 { assert w[1..][..|w[1..]| - 1] == w[1..|w| - 1]; }
    }
    assert Cat(iset{"\""}, Cat(inner, iset{"\""})) == Strings();
  }

  lemma InCatLit(l: Lang, c: string, w: string)
    requires |c| == 1
    ensures w in Cat(l, iset{c}) <==> w != "" && w[|w| - 1..] == c && w[..|w| - 1] in l
  {
    if w != "" && w[|w| - 1..] == c && w[..|w| - 1] in l { assert SplitAt(l, iset{c}, w, |w| - 1); }
    if InCat(l, iset{c}, w) {
      var k :| SplitAt(l, iset{c}, w, k);
      assert |w[k..]| == 1;
    }
  }

  // ---------------------------------------------------------------- words read from a place on

  /** The rest of `w` from `at` on is let through by the text. */
  ghost predicate Goes(env: Env, b: Body, w: string, at: nat) { at <= |w| && w[at..] in SeqLang(env, b) }

  lemma {:induction false} AtEnd(env: Env, w: string, at: nat)
    requires at <= |w|
    ensures Goes(env, [], w, at) <==> at == |w|
  {
    var none: Body := [];
    assert SeqLang(env, none) == Eps() && (w[at..] == "" <==> at == |w|);
  }

  lemma {:induction false} LitAt(env: Env, c: char, rest: Body, w: string, at: nat)
    requires at <= |w|
    ensures Goes(env, [Lit([c])] + rest, w, at) <==> at < |w| && w[at] == c && Goes(env, rest, w, at + 1)
  {
    SeqCons(env, Lit([c]), rest);
    InLitCat([c], SeqLang(env, rest), w[at..]);
    if at < |w| { assert w[at..][1..] == w[at + 1..]; }
  }

  /** An item whose words are `n` characters long. */
  lemma {:induction false} ItemAt(env: Env, it: Item, n: nat, rest: Body, w: string, at: nat)
    requires at <= |w| && !it.Bar? && Fixed(ItemLang(env, it), n)
    ensures Goes(env, [it] + rest, w, at) <==>
              at + n <= |w| && w[at..at + n] in ItemLang(env, it) && Goes(env, rest, w, at + n)
  {
    SeqCons(env, it, rest);
    InFixed(ItemLang(env, it), n, SeqLang(env, rest), w[at..]);
    if at + n <= |w| { assert w[at..][..n] == w[at..at + n] && w[at..][n..] == w[at + n..]; }
  }

  lemma {:induction false} HexAt(env: Env, n: nat, rest: Body, w: string, at: nat)
    requires at <= |w|
    ensures Goes(env, [Times(HEX, n)] + rest, w, at) <==>
              at + n <= |w| && AllHex(w[at..at + n]) && Goes(env, rest, w, at + n)
  {
    forall u ensures u in ItemLang(env, Times(HEX, n)) <==> |u| == n && AllHex(u) {
      RepOfClass(HEX.text, n, n, u);
      forall c: char ensures ClassHas(HEX.text, c) <==> IsHex(c) { HexClass(c); }
    }
    ItemAt(env, Times(HEX, n), n, rest, w, at);
  }

  lemma {:induction false} DigitsAt(env: Env, n: nat, rest: Body, w: string, at: nat)
    requires at <= |w|
    ensures Goes(env, [Times(DIGIT, n)] + rest, w, at) <==>
              at + n <= |w| && AllDigits(w[at..at + n]) && Goes(env, rest, w, at + n)
  {
    forall u ensures u in ItemLang(env, Times(DIGIT, n)) <==> |u| == n && AllDigits(u) { Digits(n, n, u); }
    ItemAt(env, Times(DIGIT, n), n, rest, w, at);
  }

  lemma {:induction false} BetweenAt(env: Env, it: Item, lo: int, hi: int, rest: Body, w: string, at: nat)
    requires at <= |w| && !it.Bar? && forall u :: u in ItemLang(env, it) <==> Between(u, lo, hi)
    ensures Goes(env, [it] + rest, w, at) <==>
              at + 2 <= |w| && Between(w[at..at + 2], lo, hi) && Goes(env, rest, w, at + 2)
  {
    ItemAt(env, it, 2, rest, w, at);
  }

  lemma {:induction false} QuotedBody(env: Env, core: Body, l: Lang)
    requires Spaces(env) && NoBar(core) && SeqLang(env, core) == l
    ensures BodyLang(env, [QUOTE] + core + [QUOTE, SP]) == Quoted(l)
  {
    SeqTwo(env, QUOTE, SP);
    SeqAppend(env, core, [QUOTE, SP]);
    SeqCons(env, QUOTE, core + [QUOTE, SP]);
    assert [QUOTE] + core + [QUOTE, SP] == [QUOTE] + (core + [QUOTE, SP]);
    BodyOfSeq(env, [QUOTE] + core + [QUOTE, SP]);
  }

  // ---------------------------------------------------------------- uuid

  const DASH := Lit("-")

  lemma {:induction false} UuidWord(env: Env, w: string)
    ensures var last := [DASH] + ([Times(HEX, 12)] + []);
            var core := [Times(HEX, 8)] + ([DASH] + ([Times(HEX, 4)] + ([DASH] + ([Times(HEX, 4)] + ([DASH]
                + ([Times(HEX, 4)] + last))))));
            w in SeqLang(env, core) <==> IsUuid(w)
  {
    hide SeqLang, AllHex;
    var b9: Body := [];
    var b8 := [Times(HEX, 12)] + b9;
    var b7 := [DASH] + b8;
    var b6 := [Times(HEX, 4)] + b7;
    var b5 := [DASH] + b6;
    var b4 := [Times(HEX, 4)] + b5;
    var b3 := [DASH] + b4;
    var b2 := [Times(HEX, 4)] + b3;
    var b1 := [DASH] + b2;
    assert w[0..] == w;
    HexAt(env, 8, b1, w, 0);
    if |w| >= 8 { LitAt(env, '-', b2, w, 8); }
    if |w| >= 9 { HexAt(env, 4, b3, w, 9); }
    if |w| >= 13 { LitAt(env, '-', b4, w, 13); }
    if |w| >= 14 { HexAt(env, 4, b5, w, 14); }
    if |w| >= 18 { LitAt(env, '-', b6, w, 18); }
    if |w| >= 19 { HexAt(env, 4, b7, w, 19); }
    if |w| >= 23 { LitAt(env, '-', b8, w, 23); }
    if |w| >= 24 { HexAt(env, 12, b9, w, 24); }
    if |w| >= 36 { AtEnd(env, w, 36); }
    if |w| == 36 { assert w[0..8] == w[..8] && w[24..36] == w[24..]; }
  }

  lemma {:induction false} UuidText(env: Env)
    requires Spaces(env)
    ensures BodyLang(env, UUID) == Quoted(Uuids())
  {
    hide SeqLang, IsUuid;
    var last := [DASH] + ([Times(HEX, 12)] + []);
    var core := [Times(HEX, 8)] + ([DASH] + ([Times(HEX, 4)] + ([DASH] + ([Times(HEX, 4)] + ([DASH]
        + ([Times(HEX, 4)] + last))))));
    forall w ensures w in SeqLang(env, core) <==> IsUuid(w) { UuidWord(env, w); }
    assert SeqLang(env, core) == Uuids();
    QuotedBody(env, core, Uuids());
    assert UUID == [QUOTE] + core + [QUOTE, SP];
  }

  // ---------------------------------------------------------------- date and time

  lemma {:induction false} TwoItems(env: Env, a: Item, b: Item, u: string)
    requires !a.Bar? && !b.Bar? && Fixed(ItemLang(env, a), 1) && Fixed(ItemLang(env, b), 1)
    ensures BodyLang(env, [a, b]) == Cat(ItemLang(env, a), ItemLang(env, b))
    ensures u in BodyLang(env, [a, b]) <==> |u| == 2 && [u[0]] in ItemLang(env, a) && [u[1]] in ItemLang(env, b)
  {
    SeqTwo(env, a, b);
    BodyOfSeq(env, [a, b]);
    InFixed(ItemLang(env, a), 1, ItemLang(env, b), u);
    if |u| == 2 { assert u[..1] == [u[0]] && u[1..] == [u[1]]; }
  }

  lemma OneDigit(lo: char, hi: char, c: char)
    requires '0' <= lo <= hi <= '9'
    ensures Fixed(ClassLang([lo, '-', hi]), 1)
    ensures [c] in ClassLang([lo, '-', hi]) <==> lo <= c <= hi
  {
    RangeClass(lo, hi, c);
    OneOfClass([lo, '-', hi], [c]);
  }

  lemma {:induction false} CharDigit(env: Env, c: char, lo: char, hi: char, u: string)
    requires '0' <= lo <= hi <= '9'
    ensures u in BodyLang(env, [Lit([c]), Class([lo, '-', hi])]) <==> |u| == 2 && u[0] == c && lo <= u[1] <= hi
  {
    hide BodyLang;
    OneDigit(lo, hi, if |u| == 2 then u[1] else ' ');
    TwoItems(env, Lit([c]), Class([lo, '-', hi]), u);
  }

  lemma {:induction false} DigitDigit(env: Env, lo: char, hi: char, u: string)
    requires '0' <= lo <= hi <= '9'
    ensures u in BodyLang(env, [Class([lo, '-', hi]), DIGIT]) <==> |u| == 2 && lo <= u[0] <= hi && IsDigit(u[1])
  {
    hide BodyLang;
    assert ['0', '-', '9'] == "0-9";
    OneDigit(lo, hi, if |u| == 2 then u[0] else ' ');
    OneDigit('0', '9', if |u| == 2 then u[1] else ' ');
    TwoItems(env, Class([lo, '-', hi]), DIGIT, u);
  }

  /** `0[1-9] | 1[0-2]` */
  const MONTH: Body := [Lit("0"), Class("1-9"), Bar, Lit("1"), Class("0-2")]

  lemma {:induction false} MonthText(env: Env, u: string)
    ensures u in ItemLang(env, Group(MONTH)) <==> Between(u, 1, 12)
  {
    hide BodyLang;
    var x, y := [Lit("0"), Class("1-9")], [Lit("1"), Class("0-2")];
    assert MONTH == x + [Bar] + y && ['1', '-', '9'] == "1-9" && ['0', '-', '2'] == "0-2";
    BodyAlt(env, x, y);
    CharDigit(env, '0', '1', '9', u);
    CharDigit(env, '1', '0', '2', u);
  }

  /** `0[1-9] | [1-2][0-9] | 3[0-1]` */
  const DAY: Body := [Lit("0"), Class("1-9"), Bar, Class("1-2"), DIGIT, Bar, Lit("3"), Class("0-1")]

  lemma {:induction false} DayText(env: Env, u: string)
    ensures u in ItemLang(env, Group(DAY)) <==> Between(u, 1, 31)
  {
    hide BodyLang;
    var x, y, z := [Lit("0"), Class("1-9")], [Class("1-2"), DIGIT], [Lit("3"), Class("0-1")];
    assert DAY == x + [Bar] + (y + [Bar] + z) && ['1', '-', '9'] == "1-9" && ['1', '-', '2'] == "1-2";
    assert ['0', '-', '1'] == "0-1";
    BodyAlt(env, x, y + [Bar] + z);
    BodyAlt(env, y, z);
    CharDigit(env, '0', '1', '9', u);
    DigitDigit(env, '1', '2', u);
    CharDigit(env, '3', '0', '1', u);
  }

  lemma {:induction false} HourText(env: Env, u: string)
    ensures u in ItemLang(env, HOUR) <==> Between(u, 0, 23)
  {
    hide BodyLang;
    var x, y := [Class("01"), DIGIT], [Lit("2"), Class("0-3")];
    assert HOUR.body == x + [Bar] + y && ['0', '-', '3'] == "0-3";
    BodyAlt(env, x, y);
    EarlyHour(env, u);
    CharDigit(env, '2', '0', '3', u);
  }

  lemma {:induction false} EarlyHour(env: Env, u: string)
    ensures u in BodyLang(env, [Class("01"), DIGIT]) <==> |u| == 2 && (u[0] == '0' || u[0] == '1') && IsDigit(u[1])
  {
    hide BodyLang;
    assert ['0', '-', '9'] == "0-9";
    var d, c := if |u| == 2 then u[0] else ' ', if |u| == 2 then u[1] else ' ';
    NoHyphenRanges("01", d);
    OneOfClass("01", [d]);
    OneDigit('0', '9', c);
    TwoItems(env, Class("01"), DIGIT, u);
  }

  lemma {:induction false} MinuteAt(env: Env, rest: Body, w: string, at: nat)
    requires at <= |w|
    ensures Goes(env, [Class("0-5")] + ([DIGIT] + rest), w, at) <==>
              at + 2 <= |w| && Between(w[at..at + 2], 0, 59) && Goes(env, rest, w, at + 2)
  {
    hide SeqLang;
    assert ['0', '-', '9'] == "0-9" && ['0', '-', '5'] == "0-5";
    OneDigit('0', '5', ' ');
    OneDigit('0', '9', ' ');
    ItemAt(env, Class("0-5"), 1, [DIGIT] + rest, w, at);
    if at + 1 <= |w| {
      ItemAt(env, DIGIT, 1, rest, w, at + 1);
      assert w[at..at + 1] == [w[at]];
      OneDigit('0', '5', w[at]);
    }
    if at + 2 <= |w| {
      assert w[at + 1..at + 2] == [w[at + 1]];
      OneDigit('0', '9', w[at + 1]);
    }
  }

  lemma {:induction false} DateWord(env: Env, w: string)
    ensures var core := [Times(DIGIT, 4)] + ([DASH] + ([Group(MONTH)] + ([DASH] + ([Group(DAY)] + []))));
            w in SeqLang(env, core) <==> IsDate(w)
  {
    hide SeqLang, AllDigits;
    var b5: Body := [];
    var b4 := [Group(DAY)] + b5;
    var b3 := [DASH] + b4;
    var b2 := [Group(MONTH)] + b3;
    var b1 := [DASH] + b2;
    assert w[0..] == w;
    forall u ensures u in ItemLang(env, Group(MONTH)) <==> Between(u, 1, 12) { MonthText(env, u); }
    forall u ensures u in ItemLang(env, Group(DAY)) <==> Between(u, 1, 31) { DayText(env, u); }
    DigitsAt(env, 4, b1, w, 0);
    if |w| >= 4 { LitAt(env, '-', b2, w, 4); }
    if |w| >= 5 { BetweenAt(env, Group(MONTH), 1, 12, b3, w, 5); }
    if |w| >= 7 { LitAt(env, '-', b4, w, 7); }
    if |w| >= 8 { BetweenAt(env, Group(DAY), 1, 31, b5, w, 8); }
    if |w| >= 10 { AtEnd(env, w, 10); }
    if |w| == 10 { assert w[0..4] == w[..4] && w[8..10] == w[8..]; }
  }

  lemma {:induction false} DateText(env: Env)
    ensures BodyLang(env, DATE) == DateTexts()
  {
    hide SeqLang, IsDate;
    var core := [Times(DIGIT, 4)] + ([DASH] + ([Group(MONTH)] + ([DASH] + ([Group(DAY)] + []))));
    forall w ensures w in SeqLang(env, core) <==> IsDate(w) { DateWord(env, w); }
    assert DATE == core;
    BodyOfSeq(env, DATE);
  }

  const COLON := Lit(":")

  lemma {:induction false} ClockAt(env: Env, rest: Body, w: string, at: nat)
    requires at <= |w|
    ensures Goes(env, [HOUR] + ([COLON] + ([Class("0-5")] + ([DIGIT] + rest))), w, at) <==>
              at + 5 <= |w| && IsClock(w[at..at + 5]) && Goes(env, rest, w, at + 5)
  {
    hide SeqLang, HOUR;
    forall u ensures u in ItemLang(env, HOUR) <==> Between(u, 0, 23) { HourText(env, u); }
    var minutes := [Class("0-5")] + ([DIGIT] + rest);
    HourIsGroup();
    BetweenAt(env, HOUR, 0, 23, [COLON] + minutes, w, at);
    if at + 2 <= |w| { LitAt(env, ':', minutes, w, at + 2); }
    if at + 3 <= |w| { MinuteAt(env, rest, w, at + 3); }
    if at + 5 <= |w| {
      var c := w[at..at + 5];
      assert c[..2] == w[at..at + 2] && c[3..] == w[at + 3..at + 5];
    }
  }

  lemma HourIsGroup()
    ensures !HOUR.Bar?
  {
  }

  const SIGN: Body := [Lit("+"), Bar, Lit("-")]
  const ZONE: Body := [Lit("Z"), Bar, Group(SIGN), HOUR, COLON, Class("0-5"), DIGIT]

  lemma {:induction false} SignText(env: Env, u: string)
    ensures u in ItemLang(env, Group(SIGN)) <==> u == "+" || u == "-"
  {
    var x, y: Body := [Lit("+")], [Lit("-")];
    assert SIGN == x + [Bar] + y;
    BodyAlt(env, x, y);
    SeqOne(env, x[0]);
    SeqOne(env, y[0]);
  }

  lemma {:induction false} ZoneText(env: Env, z: string)
    ensures z in BodyLang(env, ZONE) <==> IsZone(z)
  {
    hide BodyLang, SeqLang, HOUR;
    var none: Body := [];
    var clock := [HOUR] + ([COLON] + ([Class("0-5")] + ([DIGIT] + none)));
    var y := [Group(SIGN)] + clock;
    HourIsGroup();
    assert ZONE == [Lit("Z")] + [Bar] + y;
    BodyAlt(env, [Lit("Z")], y);
    SeqOne(env, Lit("Z"));
    BodyOfSeq(env, y);
    forall u ensures u in ItemLang(env, Group(SIGN)) <==> u == "+" || u == "-" { SignText(env, u); }
    assert z[0..] == z;
    ItemAt(env, Group(SIGN), 1, clock, z, 0);
    if |z| >= 1 {
      assert z[0..1] == [z[0]];
      ClockAt(env, none, z, 1);
    }
    if |z| >= 6 { AtEnd(env, z, 6); }
    if |z| == 6 { assert z[1..6] == z[1..]; }
  }

  const MILLIS: Body := [Lit("."), Times(DIGIT, 3)]

  /** After the seconds. */
  lemma {:induction false} TailText(env: Env, z: string)
    ensures z in SeqLang(env, [Opt(MILLIS)] + [Group(ZONE)]) <==>
              IsZone(z) || (|z| >= 4 && z[0] == '.' && AllDigits(z[1..4]) && IsZone(z[4..]))
  {
    hide BodyLang, IsZone, ZONE;
    var none: Body := [];
    SeqTwo(env, Opt(MILLIS), Group(ZONE));
    OptThen(BodyLang(env, MILLIS), BodyLang(env, ZONE));
    MillisThen(env, z);
    ZoneText(env, z);
    if |z| >= 4 { ZoneText(env, z[4..]); }
  }

  lemma {:induction false} MillisThen(env: Env, z: string)
    ensures z in Cat(BodyLang(env, MILLIS), BodyLang(env, ZONE)) <==>
              |z| >= 4 && z[0] == '.' && AllDigits(z[1..4]) && z[4..] in BodyLang(env, ZONE)
  {
    hide BodyLang, ZONE;
    SeqTwo(env, MILLIS[0], MILLIS[1]);
    BodyOfSeq(env, MILLIS);
    forall u ensures u in BodyLang(env, MILLIS) <==> |u| == 4 && u[0] == '.' && AllDigits(u[1..]) {
      InLitCat(".", ItemLang(env, MILLIS[1]), u);
      if u != "" { Digits(3, 3, u[1..]); }
    }
    InFixed(BodyLang(env, MILLIS), 4, BodyLang(env, ZONE), z);
    if |z| >= 4 { assert z[..4][1..] == z[1..4]; }
  }

  lemma {:induction false} TimeWord(env: Env, w: string)
    ensures var seconds := [COLON] + ([Class("0-5")] + ([DIGIT] + ([Opt(MILLIS)] + [Group(ZONE)])));
            w in SeqLang(env, [HOUR] + ([COLON] + ([Class("0-5")] + ([DIGIT] + seconds)))) <==> IsTime(w)
  {
    hide SeqLang, AllDigits, IsClock, IsZone, HOUR, ZONE, MILLIS;
    var tail := [Opt(MILLIS)] + [Group(ZONE)];
    var seconds := [COLON] + ([Class("0-5")] + ([DIGIT] + tail));
    assert w[0..] == w;
    ClockAt(env, seconds, w, 0);
    if |w| >= 5 { LitAt(env, ':', [Class("0-5")] + ([DIGIT] + tail), w, 5); }
    if |w| >= 6 { MinuteAt(env, tail, w, 6); }
    if |w| >= 8 {
      TailText(env, w[8..]);
      assert w[0..5] == w[..5];
      assert |w| >= 12 ==> w[8..][1..4] == w[9..12] && w[8..][4..] == w[12..];
    }
  }

  lemma {:induction false} TimeText(env: Env)
    ensures BodyLang(env, TIME) == TimeTexts()
  {
    hide SeqLang, IsTime, HOUR;
    var seconds := [COLON] + ([Class("0-5")] + ([DIGIT] + ([Opt(MILLIS)] + [Group(ZONE)])));
    var core := [HOUR] + ([COLON] + ([Class("0-5")] + ([DIGIT] + seconds)));
    forall w ensures w in SeqLang(env, core) <==> IsTime(w) { TimeWord(env, w); }
    HourIsGroup();
    assert TIME == core;
    BodyOfSeq(env, TIME);
  }

  lemma {:induction false} DateTimeText(env: Env)
    requires Denotes(env, "date", DateTexts()) && Denotes(env, "time", TimeTexts())
    ensures BodyLang(env, [Ref("date"), Lit("T"), Ref("time")]) == DateTimeTexts()
  {
    hide IsDate, IsTime, SeqLang;
    var b := [Ref("date"), Lit("T"), Ref("time")];
    SeqTwo(env, b[1], b[2]);
    SeqCons(env, b[0], [b[1], b[2]]);
    assert b == [b[0]] + [b[1], b[2]];
    BodyOfSeq(env, b);
    DateIsTen();
    forall w ensures w in BodyLang(env, b) <==> IsDateTime(w) {
      InFixed(DateTexts(), 10, Cat(iset{"T"}, TimeTexts()), w);
      if |w| >= 10 {
        InLitCat("T", TimeTexts(), w[10..]);
        assert |w| > 10 ==> w[10..][1..] == w[11..];
      }
    }
  }

  lemma DateIsTen()
    ensures Fixed(DateTexts(), 10)
  {
  }
}
