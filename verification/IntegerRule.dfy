/** The grammar of the integers between two bounds: `_build_min_max_int` of json-schema-to-grammar.cpp. */
module IntegerRule {
  import opened Gbnf
  import opened Decimal

  const INT_MIN := -0x8000_0000
  const INT_MAX := 0x7fff_ffff

  // ---------------------------------------------------------------- languages of digit strings

  ghost function CharsFrom(lo: char, hi: char): Lang {
    iset c: char | lo <= c <= hi :: [c]
  }

  ghost function DigitStrings(lo: nat, hi: nat): Lang {
    iset w | Digits(w) && lo <= |w| <= hi
  }

  ghost predicate InBetween(from: string, to: string, w: string)
    requires |from| == |to|
  {
    |w| == |from| && Digits(w) && LexLe(from, w) && LexLe(w, to)
  }

  /** The digit strings as long as `from` and `to` that lie between them. */
  ghost function Between(from: string, to: string): Lang
    requires |from| == |to|
  {
    iset w | InBetween(from, to, w)
  }

  lemma InRangeCat(lo: char, hi: char, l: Lang, w: string)
    ensures w in Cat(CharsFrom(lo, hi), l) <==> w != "" && lo <= w[0] <= hi && w[1..] in l
  {
    if w != "" && lo <= w[0] <= hi && w[1..] in l {
      assert w[..1] == [w[0]];
      assert SplitAt(CharsFrom(lo, hi), l, w, 1);
    }
    if InCat(CharsFrom(lo, hi), l, w) {
      var k :| SplitAt(CharsFrom(lo, hi), l, w, k);
      assert |w[..k]| == 1;
      assert w[0] == w[..k][0];
    }
  }

  lemma {:induction false} PowDigits(n: nat)
    ensures Pow(CharsFrom('0', '9'), n) == DigitStrings(n, n)
  {
    var p := Pow(CharsFrom('0', '9'), n);
    if n > 0 {
      PowDigits(n - 1);
      forall w ensures w in p <==> w in DigitStrings(n, n) {
        InRangeCat('0', '9', Pow(CharsFrom('0', '9'), n - 1), w);
        if w in p { assert w == [w[0]] + w[1..]; }
      }
    } else {
      forall w ensures w in p <==> w in DigitStrings(0, 0) {}
    }
  }

  lemma RepDigits(lo: nat, hi: nat)
    requires lo <= hi
    ensures RepLang(CharsFrom('0', '9'), lo, Upto(hi)) == DigitStrings(lo, hi)
  {
    var r := RepLang(CharsFrom('0', '9'), lo, Upto(hi));
    forall w | w in r ensures w in DigitStrings(lo, hi) {
      var n: nat :| Allowed(n, lo, Upto(hi)) && w in Pow(CharsFrom('0', '9'), n);
      PowDigits(n);
    }
    forall w | w in DigitStrings(lo, hi) ensures w in r {
      PowDigits(|w|);
      assert Allowed(|w|, lo, Upto(hi)) && w in Pow(CharsFrom('0', '9'), |w|);
    }
  }

  // ---------------------------------------------------------------- the emitters

  function DigitRange(from: char, to: char): Item {
    Class(if from == to then [from] else [from, '-', to])
  }

  function MoreDigits(lo: nat, hi: nat): Item {
    if lo == hi == 1 then Class("0-9") else Rep(Class("0-9"), lo, if lo < hi == INT_MAX then Unbounded else Upto(hi))
  }

  lemma ClassRange(env: Env, from: char, to: char)
    requires IsDigit(from) && IsDigit(to) && from <= to
    ensures ItemLang(env, DigitRange(from, to)) == CharsFrom(from, to)
    ensures ItemLang(env, Class([from, '-', to])) == CharsFrom(from, to)
  {
    var t := [from, '-', to];
    assert t[3..] == "" && [from][1..] == "";
    forall c: char ensures ClassHas(t, c) <==> from <= c <= to {
      assert !InRanges("", c);
    }
    if from == to {
      forall c: char ensures ClassHas([from], c) <==> c == from {
        assert !InRanges("", c);
      }
    }
  }

  lemma ClassMore(env: Env, lo: nat, hi: nat)
    requires lo <= hi && (hi < INT_MAX || lo == hi)
    ensures ItemLang(env, MoreDigits(lo, hi)) == DigitStrings(lo, hi)
  {
    ClassRange(env, '0', '9');
    assert ['0', '-', '9'] == "0-9";
    RepDigits(lo, hi);
    if lo == hi == 1 {
      PowDigits(1);
      CatEps(CharsFrom('0', '9'));
      assert Pow(CharsFrom('0', '9'), 1) == Cat(CharsFrom('0', '9'), Pow(CharsFrom('0', '9'), 0));
    }
  }

  /** One emitted alternative: a digit in a range, then `rest`. */
  lemma RangeThen(env: Env, from: char, to: char, rest: Body)
    requires IsDigit(from) && IsDigit(to) && from <= to && NoBar(rest)
    ensures SeqLang(env, [DigitRange(from, to)] + rest) == Cat(CharsFrom(from, to), SeqLang(env, rest))
    ensures BodyLang(env, [DigitRange(from, to)] + rest) == Cat(CharsFrom(from, to), SeqLang(env, rest))
  {
    ClassRange(env, from, to);
    SeqOne(env, DigitRange(from, to));
    SeqAppend(env, [DigitRange(from, to)], rest);
    BodyOfSeq(env, [DigitRange(from, to)] + rest);
  }

  lemma RangeThenMore(env: Env, from: char, to: char, lo: nat, hi: nat)
    requires IsDigit(from) && IsDigit(to) && from <= to && lo <= hi && (hi < INT_MAX || lo == hi)
    ensures BodyLang(env, [DigitRange(from, to), MoreDigits(lo, hi)]) == Cat(CharsFrom(from, to), DigitStrings(lo, hi))
  {
    ClassMore(env, lo, hi);
    SeqOne(env, MoreDigits(lo, hi));
    RangeThen(env, from, to, [MoreDigits(lo, hi)]);
    assert [DigitRange(from, to)] + [MoreDigits(lo, hi)] == [DigitRange(from, to), MoreDigits(lo, hi)];
  }

  lemma RangeThenGroup(env: Env, from: char, to: char, b: Body)
    requires IsDigit(from) && IsDigit(to) && from <= to
    ensures BodyLang(env, [DigitRange(from, to), Group(b)]) == Cat(CharsFrom(from, to), BodyLang(env, b))
  {
    SeqOne(env, Group(b));
    RangeThen(env, from, to, [Group(b)]);
    assert [DigitRange(from, to)] + [Group(b)] == [DigitRange(from, to), Group(b)];
  }

  // ---------------------------------------------------------------- splitting an interval of digit strings

  lemma BetweenAll(n: nat)
    ensures Between(Zeros(n), Nines(n)) == DigitStrings(n, n)
  {
    forall w ensures w in Between(Zeros(n), Nines(n)) <==> w in DigitStrings(n, n) {
      if w in DigitStrings(n, n) { LexZerosNines(w); }
    }
  }

  /** The words of an interval whose first digits differ: those starting with the first digit of `from`, those
      starting with a digit in between, and those starting with the first digit of `to`. */
  ghost function LowPart(from: string, to: string): Lang
    requires |from| == |to| > 0
  {
    Cat(CharsFrom(from[0], from[0]), Between(from[1..], Nines(|from| - 1)))
  }

  ghost function MidPart(from: string, to: string): Lang
    requires |from| == |to| > 0 && IsDigit(from[0]) && IsDigit(to[0])
  {
    Cat(CharsFrom(Succ(from[0]), Pred(to[0])), DigitStrings(|from| - 1, |from| - 1))
  }

  ghost function HighPart(from: string, to: string): Lang
    requires |from| == |to| > 0
  {
    Cat(CharsFrom(to[0], to[0]), Between(Zeros(|to| - 1), to[1..]))
  }

  lemma BetweenSplit(from: string, to: string)
    requires |from| == |to| > 0 && Digits(from) && Digits(to) && from[0] < to[0]
    ensures Between(from, to) == LowPart(from, to) + MidPart(from, to) + HighPart(from, to)
    ensures Succ(from[0]) > Pred(to[0]) ==> MidPart(from, to) == iset{}
    ensures from[1..] == Zeros(|from| - 1) ==>
              LowPart(from, to) + MidPart(from, to) == Cat(CharsFrom(from[0], Pred(to[0])), DigitStrings(|from| - 1,
                  |from| - 1))
    ensures to[1..] == Nines(|to| - 1) ==>
              MidPart(from, to) + HighPart(from, to) == Cat(CharsFrom(Succ(from[0]), to[0]), DigitStrings(|to| - 1,
                  |to| - 1))
  {
    var n := |from| - 1;
    var all := DigitStrings(n, n);
    BetweenAll(n);
    forall w
      ensures w in Between(from, to) <==> w in LowPart(from, to) || w in MidPart(from, to) || w in HighPart(from, to)
      ensures w in MidPart(from, to) ==> Succ(from[0]) <= Pred(to[0])
      ensures from[1..] == Zeros(n) ==>
                (w in LowPart(from, to) + MidPart(from, to) <==> w in Cat(CharsFrom(from[0], Pred(to[0])), all))
      ensures to[1..] == Nines(n) ==>
                (w in MidPart(from, to) + HighPart(from, to) <==> w in Cat(CharsFrom(Succ(from[0]), to[0]), all))
    {
      InParts(from, to, w);
    }
  }

  lemma InParts(from: string, to: string, w: string)
    requires |from| == |to| > 0 && Digits(from) && Digits(to) && from[0] < to[0]
    requires Between(Zeros(|from| - 1), Nines(|from| - 1)) == DigitStrings(|from| - 1, |from| - 1)
    ensures w in Between(from, to) <==> w in LowPart(from, to) || w in MidPart(from, to) || w in HighPart(from, to)
    ensures w in MidPart(from, to) ==> Succ(from[0]) <= Pred(to[0])
    ensures var n := |from| - 1; var all := DigitStrings(n, n);
            && (from[1..] == Zeros(n) ==>
                  (w in LowPart(from, to) + MidPart(from, to) <==> w in Cat(CharsFrom(from[0], Pred(to[0])), all)))
            && (to[1..] == Nines(n) ==>
                  (w in MidPart(from, to) + HighPart(from, to) <==> w in Cat(CharsFrom(Succ(from[0]), to[0]), all)))
  {
    hide Cat, CharsFrom;
    var n := |from| - 1;
    var all := DigitStrings(n, n);
    InRangeCat(from[0], from[0], Between(from[1..], Nines(n)), w);
    InRangeCat(Succ(from[0]), Pred(to[0]), all, w);
    InRangeCat(to[0], to[0], Between(Zeros(n), to[1..]), w);
    InRangeCat(from[0], Pred(to[0]), all, w);
    InRangeCat(Succ(from[0]), to[0], all, w);
    if w != "" {
      assert Digits(w) <==> IsDigit(w[0]) && Digits(w[1..]) by { assert w == [w[0]] + w[1..]; }
      if |w| == n + 1 && Digits(w) { LexZerosNines(w[1..]); }
    }
  }

  lemma {:induction false} InBetweenPrefix(p: string, from: string, to: string, w: string)
    requires |from| == |to| && Digits(p)
    ensures InBetween(p + from, p + to, w) <==> p <= w && InBetween(from, to, w[|p|..])
  {
    if p == "" {
      assert p + from == from && p + to == to && w[0..] == w;
    } else if w != "" {
      assert (p + from)[1..] == p[1..] + from && (p + to)[1..] == p[1..] + to;
      InBetweenPrefix(p[1..], from, to, w[1..]);
      assert p <= w ==> w[1..][|p| - 1..] == w[|p|..];
      assert w == [w[0]] + w[1..] && p == [p[0]] + p[1..];
      assert Digits(w) <==> IsDigit(w[0]) && Digits(w[1..]);
      assert p <= w <==> p[0] == w[0] && p[1..] <= w[1..];
    }
  }

  lemma BetweenPrefix(p: string, from: string, to: string)
    requires |from| == |to| && Digits(p)
    ensures Between(p + from, p + to) == Cat(iset{p}, Between(from, to))
  {
    forall w ensures w in Between(p + from, p + to) <==> w in Cat(iset{p}, Between(from, to)) {
      InLitCat(p, Between(from, to), w);
      InBetweenPrefix(p, from, to, w);
    }
  }

  /** The character after, and the character before. */
  function Succ(c: char): char
    requires c <= '9'
  {
    (c as int + 1) as char
  }

  function Pred(c: char): char
    requires '\0' < c <= '9'
  {
    (c as int - 1) as char
  }

  // ---------------------------------------------------------------- uniform_range

  /** Digits, but for a minus sign that may come first. */
  predicate Signed(w: string) {
    w != "" ==> (IsDigit(w[0]) || w[0] == '-') && Digits(w[1..])
  }

  predicate InOrder(from: string, to: string) {
    |from| == |to| && Digits(to) && LexLe(from, to)
  }

  /** The same up to the last digit, and that is smaller in `to`. */
  predicate Blocked(from: string, to: string) {
    && |from| == |to| > 0 && from[..|from| - 1] == to[..|to| - 1]
    && from[|from| - 1] > to[|to| - 1]
  }

  /** What `uniform_range(from, to)` writes: exactly the digit strings of that length from `from` to `to`. Out of order,
      it lets `to` through, or nothing if only the last digits are out of order. */
  method UniformRange(from: string, to: string) returns (out: Body)
    requires |to| <= |from| && Digits(from) && Signed(to)
    ensures NoBar(out)
    ensures InOrder(from, to) ==> forall env: Env :: SeqLang(env, out) == Between(from, to)
    ensures forall env: Env :: if Blocked(from, to) then SeqLang(env, out) == iset{} else to in SeqLang(env, out)
    decreases |from|
  {
    var i := 0;
    while i < |from| && i < |to| && from[i] == to[i]
      invariant i <= |to|
      invariant from[..i] == to[..i]
    {
      i := i + 1;
    }
    ghost var pre, f, t := from[..i], from[i..], to[i..];
    out := [];
    if i > 0 {
      out := out + [Lit(from[..i])];
    }
    ghost var head := out;
    if i < |from| && i < |to| {
      var last: Item;
      Parts(from, to, i);
      if |from| - i - 1 > 0 {
        var grp := SplitRange(from[i..], to[i..]);
        last := Group(grp);
      } else {
        last := Class([from[i], '-', to[i]]);
        forall env: Env { OneCharacter(env, f, t); }
      }
      out := out + [last];
      forall env: Env { RangeMeaning(env, from, to, i, head, last); }
    } else {
      forall env: Env { PrefixOnly(env, from, to, i, head); }
    }
  }

  /** The parts after the common prefix. */
  lemma Parts(from: string, to: string, i: nat)
    requires i < |to| <= |from| && Digits(from) && Signed(to) && from[..i] == to[..i] && from[i] != to[i]
    ensures var f, t := from[i..], to[i..];
            && Digits(f) && Signed(t) && |t| <= |f| && f[0] != t[0]
            && (InOrder(from, to) ==> InOrder(f, t)) && (Blocked(from, to) <==> |f| == 1 && f[0] > t[0])
            && (|f| == 1 ==> IsDigit(t[0]) || t[0] == '-')
  {
    var f, t := from[i..], to[i..];
    assert t[1..] == to[i + 1..];
    if i > 0 {
      assert to[1..][i - 1] == to[i];
      assert forall k :: i < k < |to| ==> to[1..][k - 1] == to[k];
    }
    if InOrder(from, to) { CommonPrefix(from, to, i); }
    var n := |from|;
    if |to| == n {
      if i < n - 1 {
        assert from[..n - 1][i] == from[i] && to[..n - 1][i] == to[i];
      } else {
        assert from[..n - 1] == from[..i] && to[..n - 1] == to[..i];
      }
    }
  }

  lemma RangeMeaning(env: Env, from: string, to: string, i: nat, head: Body, last: Item)
    requires i < |to| <= |from| && Digits(from) && Signed(to) && from[..i] == to[..i] && from[i] != to[i] && !last.Bar?
    requires head == if i == 0 then [] else [Lit(from[..i])]
    requires var f, t := from[i..], to[i..];
             && (InOrder(f, t) ==> ItemLang(env, last) == Between(f, t))
             && if |f| == 1 && f[0] > t[0] then ItemLang(env, last) == iset{} else t in ItemLang(env, last)
    ensures InOrder(from, to) ==> SeqLang(env, head + [last]) == Between(from, to)
    ensures if Blocked(from, to) then SeqLang(env, head + [last]) == iset{} else to in SeqLang(env, head + [last])
  {
    var pre, f, t := from[..i], from[i..], to[i..];
    Parts(from, to, i);
    PrefixMeaning(env, pre, head);
    SeqOne(env, last);
    SeqAppend(env, head, [last]);
    if InOrder(from, to) { CommonPrefix(from, to, i); }
    assert to == pre + t;
    InLitCat(pre, ItemLang(env, last), to);
    assert to[|pre|..] == t;
    if |f| == 1 && f[0] > t[0] {
      forall w ensures w !in Cat(iset{pre}, ItemLang(env, last)) { InLitCat(pre, ItemLang(env, last), w); }
    }
  }

  lemma OnlyItself(w: string)
    ensures !Blocked(w, w) && (Digits(w) ==> Between(w, w) == iset{w})
  {
    LexRefl(w);
    forall x | |x| == |w| && LexLe(w, x) && LexLe(x, w) ensures x == w { LexAntisym(w, x); }
  }

  lemma PrefixOnly(env: Env, from: string, to: string, i: nat, head: Body)
    requires i == |to| <= |from| && Digits(from) && from[..i] == to[..i]
    requires head == if i == 0 then [] else [Lit(from[..i])]
    ensures InOrder(from, to) ==> SeqLang(env, head) == Between(from, to)
    ensures !Blocked(from, to) && to in SeqLang(env, head)
  {
    PrefixMeaning(env, from[..i], head);
    assert to == to[..i];
    if |from| == |to| {
      assert from == to;
      OnlyItself(to);
    }
  }

  lemma CommonPrefix(from: string, to: string, i: nat)
    requires |from| == |to| && i <= |from| && Digits(from) && LexLe(from, to) && from[..i] == to[..i]
    ensures LexLe(from[i..], to[i..])
    ensures Between(from, to) == Cat(iset{from[..i]}, Between(from[i..], to[i..]))
  {
    var pre, f, t := from[..i], from[i..], to[i..];
    assert from == pre + f && to == pre + t;
    assert Digits(pre) by { assert forall k :: 0 <= k < |pre| ==> pre[k] == from[k]; }
    InBetweenPrefix(pre, f, t, from);
    LexRefl(from);
    assert from[|pre|..] == f;
    BetweenPrefix(pre, f, t);
  }

  lemma PrefixMeaning(env: Env, pre: string, head: Body)
    requires head == if pre == "" then [] else [Lit(pre)]
    ensures SeqLang(env, head) == iset{pre}
  {
    if pre != "" { SeqOne(env, Lit(pre)); }
  }

  lemma EmptyInterval()
    ensures Between("", "") == Eps()
  {
    forall w ensures w in Between("", "") <==> w in Eps() {}
  }

  /** `[a-b]` where only the last characters differ. */
  lemma OneCharacter(env: Env, f: string, t: string)
    requires |f| == |t| == 1 && Digits(f) && Signed(t) && f[0] != t[0]
    ensures InOrder(f, t) ==> ItemLang(env, Class([f[0], '-', t[0]])) == Between(f, t)
    ensures if f[0] > t[0] then ItemLang(env, Class([f[0], '-', t[0]])) == iset{}
            else t in ItemLang(env, Class([f[0], '-', t[0]]))
  {
    var c := [f[0], '-', t[0]];
    assert c[3..] == "" && t == [t[0]];
    forall x: char ensures ClassHas(c, x) <==> f[0] <= x <= t[0] {
      assert !InRanges("", x);
    }
    if InOrder(f, t) { OneDigit(env, f, t); }
  }

  lemma OneDigit(env: Env, f: string, t: string)
    requires |f| == |t| == 1 && Digits(f) && Digits(t) && f[0] <= t[0]
    ensures ItemLang(env, Class([f[0], '-', t[0]])) == Between(f, t)
  {
    ClassRange(env, f[0], t[0]);
    forall w ensures w in Between(f, t) <==> w in CharsFrom(f[0], t[0]) {
      if w in CharsFrom(f[0], t[0]) { assert w == [w[0]]; }
      if |w| == 1 {
        assert w == [w[0]] && f[1..] == w[1..] == t[1..] == "";
        assert LexLe("", "");
      }
    }
  }

  /** The parenthesised part of `uniform_range`, written once the first characters differ. */
  method SplitRange(from: string, to: string) returns (grp: Body)
    requires 1 <= |to| <= |from| && |from| > 1 && Digits(from) && Signed(to) && from[0] != to[0]
    ensures InOrder(from, to) ==> forall env: Env :: BodyLang(env, grp) == Between(from, to)
    ensures forall env: Env :: to in BodyLang(env, grp)
    decreases |from|, 0
  {
    hide BodyLang, SeqLang, CharsFrom, Between;
    var subLen := |from| - 1;
    var fromSub, toSub := from[1..], to[1..];
    var subZeros, subNines := Zeros(subLen), Nines(subLen);
    var toReached := false;
    LexZerosNines(fromSub);
    LexZerosNines(toSub);
    ghost var ordered := InOrder(from, to);
    if ordered { BetweenSplit(from, to); }
    ghost var low: Lang, mid: Lang, high: Lang := iset{}, iset{}, iset{};
    if ordered { low, mid, high := LowPart(from, to), MidPart(from, to), HighPart(from, to); }
    ghost var done := low + mid;
    if fromSub == subZeros {
      grp := [DigitRange(from[0], Pred(to[0])), MoreDigits(subLen, subLen)];
      forall env: Env ensures ordered ==> BodyLang(env, grp) == done {
        if ordered { RangeThenMore(env, from[0], Pred(to[0]), subLen, subLen); }
      }
    } else {
      var sub := UniformRange(fromSub, subNines);
      grp := [DigitRange(from[0], from[0]), Group(sub)];
      forall env: Env ensures ordered ==> BodyLang(env, grp) == low {
        RangeThenGroup(env, from[0], from[0], sub);
        BodyOfSeq(env, sub);
      }
      if from[0] < Pred(to[0]) {
        ghost var before := grp;
        var hi := Pred(to[0]);
        if toSub == subNines {
          hi := to[0];
          toReached := true;
          done := low + mid + high;
        }
        var next := [DigitRange(Succ(from[0]), hi), MoreDigits(subLen, subLen)];
        grp := grp + [Bar] + next;
        forall env: Env
          ensures ordered ==> BodyLang(env, grp) == done
          ensures toReached ==> to in BodyLang(env, grp)
        {
          RangeThenMore(env, Succ(from[0]), hi, subLen, subLen);
          BodyAlt(env, before, next);
          if toReached { InRangeCat(Succ(from[0]), hi, DigitStrings(subLen, subLen), to); }
        }
      }
    }
    if !toReached {
      var sub := UniformRange(subZeros, toSub);
      ghost var before := grp;
      var next := [DigitRange(to[0], to[0])] + sub;
      grp := grp + [Bar] + next;
      forall env: Env
        ensures ordered ==> BodyLang(env, grp) == low + mid + high
        ensures to in BodyLang(env, grp)
      {
        if ordered { RangeThen(env, to[0], to[0], sub); }
        BodyAlt(env, before, next);
        SignThen(env, to, sub);
      }
    }
  }

  lemma NoHyphenOrAlone(c: char)
    requires c != '^'
    ensures ClassHas([c], c) && [c] != "^"
  {
    assert [c][1..] == "";
  }

  /** The first character of `to`, then what lets the rest through. */
  lemma SignThen(env: Env, to: string, sub: Body)
    requires to != "" && Signed(to) && NoBar(sub) && to[1..] in SeqLang(env, sub)
    ensures to in BodyLang(env, [DigitRange(to[0], to[0])] + sub)
  {
    hide SeqLang, BodyLang;
    var it, l := DigitRange(to[0], to[0]), SeqLang(env, sub);
    SeqOne(env, it);
    SeqAppend(env, [it], sub);
    BodyOfSeq(env, [it] + sub);
    NoHyphenOrAlone(to[0]);
    assert to in Cat(ClassLang([to[0]]), l) by { InCharCat([to[0]], l, to); }
  }
}
