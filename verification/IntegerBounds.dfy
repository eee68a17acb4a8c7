/** `_build_min_max_int` as a whole: what it writes for every pair of bounds, and exactly when that is right. */
module IntegerBounds {
  import opened Gbnf
  import opened Decimal
  import opened IntegerRule

  datatype Written = Text(body: Body) | Throws

  // ---------------------------------------------------------------- the intended languages

  /** The least `int` stands for no minimum, the greatest for no maximum. */
  predicate HasMin(minValue: int) { minValue != -2_147_483_648 }

  predicate HasMax(maxValue: int) { maxValue != 2_147_483_647 }

  function Abs(n: int): nat { if n < 0 then -n else n }

  /** std::to_string */
  function ToString(n: int): string {
    if n < 0 then "-" + Dec(-n) else Dec(n)
  }

  /** `n` respects the bounds that are set; with a bound missing, at most 16 digits are asked for. */
  predicate Fits(minValue: int, maxValue: int, n: int) {
    && (HasMin(minValue) ==> minValue <= n)
    && (HasMax(maxValue) ==> n <= maxValue)
    && ((HasMin(minValue) && HasMax(maxValue)) || |Dec(Abs(n))| <= 16)
  }

  /** "-0" comes along whenever the minimum is negative and the maximum, if any, is not. */
  predicate MinusZero(minValue: int, maxValue: int) {
    HasMin(minValue) && minValue < 0 <= maxValue
  }

  /** The numerals of the integers within the bounds, and "-0" where it comes along. */
  ghost predicate IsIntended(minValue: int, maxValue: int, w: string) {
    || (exists n: int :: Fits(minValue, maxValue, n) && w == ToString(n))
    || (MinusZero(minValue, maxValue) && w == "-0")
  }

  ghost function Intended(minValue: int, maxValue: int): Lang {
    iset w | IsIntended(minValue, maxValue, w)
  }

  /** Numbers of one sign that differ in their last digits only. */
  predicate SameTens(m: int, n: int) {
    (m < 0 <==> n < 0) && Abs(m) / 10 == Abs(n) / 10
  }

  /** For which bounds the text written denotes the intended language: a check on the bounds alone. */
  predicate Exact(minValue: int, maxValue: int) {
    if HasMin(minValue) && HasMax(maxValue) && minValue > maxValue then
      SameTens(minValue, maxValue)
    else if HasMin(minValue) && minValue < 0 then
      minValue > -INT_MAX
    else if HasMin(minValue) then
      HasMax(maxValue) || MiddleDigitsFrom2(Dec(minValue), 1)
    else
      maxValue >= 0 || (|Dec(-maxValue)| >= 2 && Dec(-maxValue)[0] == '1' && MiddleDigitsFrom2(Dec(-maxValue), 1))
  }

  ghost function Numerals(lo: nat, hi: nat): Lang {
    iset n: nat | lo <= n <= hi :: Dec(n)
  }

  ghost predicate InTail(from: string, dl: nat, top: bool, w: string) {
    Digits(w) && |w| <= dl && ShortLe(from, w) && (top ==> Canonical(w))
  }

  /** The digit strings of at most `dl` digits not below `from`; without leading zeros when `top`. */
  ghost function Tail(from: string, dl: nat, top: bool): Lang {
    iset w | InTail(from, dl, top, w)
  }

  // ---------------------------------------------------------------- both bounds

  ghost predicate UpTo(lo: nat, d: nat, w: string) {
    Canonical(w) && ShortLe(Dec(lo), w) && |w| < d
  }

  ghost function Below(lo: nat, d: nat): Lang {
    iset w | UpTo(lo, d, w)
  }

  /** The alternatives written so far, each followed by its bar. */
  ghost function Alternatives(env: Env, out: Body): Lang {
    if out == [] then iset{} else BodyLang(env, out[..|out| - 1])
  }

  lemma AddAlternative(env: Env, out: Body, u: Body)
    requires out == [] || out[|out| - 1] == Bar
    requires NoBar(u)
    ensures BodyLang(env, out + u) == Alternatives(env, out) + SeqLang(env, u)
    ensures Alternatives(env, out + u + [Bar]) == Alternatives(env, out) + SeqLang(env, u)
  {
    BodyOfSeq(env, u);
    assert (out + u + [Bar])[..|out + u|] == out + u;
    if out == [] {
      assert out + u == u;
    } else {
      assert out + u == out[..|out| - 1] + [Bar] + u;
      BodyAlt(env, out[..|out| - 1], u);
    }
  }

  lemma LexFromOne(d: nat, w: string)
    requires Digits(w) && |w| == d + 1 && w[0] != '0'
    ensures LexLe("1" + Zeros(d), w)
  {
    assert ("1" + Zeros(d))[1..] == Zeros(d);
    LexZerosNines(w[1..]);
  }

  lemma FromDigits(lo: nat, d: nat, from: string)
    requires d >= |Dec(lo)| && from == if d == |Dec(lo)| then Dec(lo) else "1" + Zeros(d - 1)
    ensures |from| == d && Digits(from)
  {
    DecCanonical(lo);
  }

  /** One pass of the loop over lengths adds the numerals of the next length. */
  lemma BelowStep(lo: nat, d: nat, from: string)
    requires d >= |Dec(lo)|
    requires from == if d == |Dec(lo)| then Dec(lo) else "1" + Zeros(d - 1)
    ensures |from| == d && Digits(from) && InOrder(from, Nines(d)) && Signed(Nines(d))
    ensures Below(lo, d) + Between(from, Nines(d)) == Below(lo, d + 1)
  {
    DecCanonical(lo);
    LexZerosNines(from);
    forall w ensures w in Below(lo, d) + Between(from, Nines(d)) <==> w in Below(lo, d + 1) {
      if |w| == d && Canonical(w) && d > |Dec(lo)| { LexFromOne(d - 1, w); }
      if |w| == d && Digits(w) { LexZerosNines(w); }
    }
  }

  /** The alternatives are the numerals from `lo` on of fewer than `d` digits. */
  ghost predicate WrittenBelow(lo: nat, d: nat, out: Body) {
    forall env: Env :: Alternatives(env, out) == Below(lo, d)
  }

  lemma NothingWritten(lo: nat)
    ensures WrittenBelow(lo, |Dec(lo)|, [])
  {
  }

  lemma NextLength(lo: nat, d: nat, from: string, out: Body, u: Body)
    requires WrittenBelow(lo, d, out) && (out == [] || out[|out| - 1] == Bar) && NoBar(u)
    requires |from| == d && Digits(from) && Below(lo, d) + Between(from, Nines(d)) == Below(lo, d + 1)
    requires forall env: Env :: SeqLang(env, u) == Between(from, Nines(d))
    ensures WrittenBelow(lo, d + 1, out + u + [Bar])
  {
    hide SeqLang, Between, Below, Alternatives;
    forall env: Env ensures Alternatives(env, out + u + [Bar]) == Below(lo, d + 1) {
      AddAlternative(env, out, u);
    }
  }

  lemma LastLength(lo: nat, hi: nat, from: string, out: Body, u: Body)
    requires WrittenBelow(lo, |Dec(hi)|, out) && (out == [] || out[|out| - 1] == Bar) && NoBar(u)
    requires |from| == |Dec(hi)| && Digits(from) && Digits(Dec(hi))
    requires Below(lo, |Dec(hi)|) + Between(from, Dec(hi)) == Numerals(lo, hi)
    requires forall env: Env :: SeqLang(env, u) == Between(from, Dec(hi))
    ensures forall env: Env :: BodyLang(env, out + u) == Numerals(lo, hi)
  {
    hide SeqLang, BodyLang, Between, Below, Alternatives, Numerals;
    forall env: Env ensures BodyLang(env, out + u) == Numerals(lo, hi) {
      AddAlternative(env, out, u);
    }
  }

  /** Lying between two numerals in the order of the text is lying between them in value. */
  lemma NumeralsByText(lo: nat, hi: nat, w: string)
    ensures w in Numerals(lo, hi) <==> Canonical(w) && ShortLe(Dec(lo), w) && ShortLe(w, Dec(hi))
  {
    if Canonical(w) {
      CanonicalIsDec(w);
      DecOrder(lo, Value(w));
      DecOrder(Value(w), hi);
    }
    if w in Numerals(lo, hi) {
      var n: nat :| lo <= n <= hi && w == Dec(n);
      DecCanonical(n);
    }
  }

  /** The last pass adds those of the maximum's length, up to it. */
  lemma BelowLast(lo: nat, hi: nat, from: string)
    requires lo <= hi
    requires from == if |Dec(hi)| == |Dec(lo)| then Dec(lo) else "1" + Zeros(|Dec(hi)| - 1)
    ensures Digits(from) && InOrder(from, Dec(hi))
    ensures Below(lo, |Dec(hi)|) + Between(from, Dec(hi)) == Numerals(lo, hi)
  {
    hide Numerals;
    DecOrder(lo, hi);
    DecCanonical(lo);
    DecCanonical(hi);
    var maxS := Dec(hi);
    var d := |maxS|;
    if d > |Dec(lo)| { LexFromOne(d - 1, maxS); }
    forall w ensures w in Below(lo, d) + Between(from, maxS) <==> w in Numerals(lo, hi) {
      NumeralsByText(lo, hi, w);
      LastByText(lo, hi, from, w);
    }
  }

  lemma LastByText(lo: nat, hi: nat, from: string, w: string)
    requires lo <= hi && |Dec(lo)| <= |Dec(hi)| && Canonical(Dec(lo)) && Canonical(Dec(hi))
    requires from == if |Dec(hi)| == |Dec(lo)| then Dec(lo) else "1" + Zeros(|Dec(hi)| - 1)
    requires |from| == |Dec(hi)| && Digits(from) && LexLe(from, Dec(hi))
    ensures w in Below(lo, |Dec(hi)|) || w in Between(from, Dec(hi)) <==>
              Canonical(w) && ShortLe(Dec(lo), w) && ShortLe(w, Dec(hi))
  {
    hide Dec;
    var d := |Dec(hi)|;
    if |w| == d && Canonical(w) && d > |Dec(lo)| { LexFromOne(d - 1, w); }
  }

  lemma BlockedIfSameTens(lo: nat, hi: nat)
    requires hi < lo
    ensures Blocked(Dec(lo), Dec(hi)) <==> SameTens(lo, hi)
  {
    var l, h := Dec(lo), Dec(hi);
    if lo >= 10 && hi >= 10 {
      assert l[..|l| - 1] == Dec(lo / 10) && h[..|h| - 1] == Dec(hi / 10);
      DecCanonical(lo / 10);
      DecCanonical(hi / 10);
    } else if lo >= 10 {
      DecCanonical(lo / 10);
    }
  }

  /** Bounds out of order: the last interval written lets the maximum through, or nothing. */
  lemma CrossedLast(env: Env, lo: nat, hi: int, minS: string, out: Body, u: Body)
    requires lo > hi && (out == [] || out[|out| - 1] == Bar) && NoBar(u) && (out == [] ==> minS == Dec(lo))
    requires Digits(minS) && (|Dec(lo)| >= |ToString(hi)| ==> out == [])
    requires if Blocked(minS, ToString(hi)) then SeqLang(env, u) == iset{} else ToString(hi) in SeqLang(env, u)
    ensures if SameTens(lo, hi) then BodyLang(env, out + u) == iset{} else ToString(hi) in BodyLang(env, out + u)
  {
    AddAlternative(env, out, u);
    if hi >= 0 {
      DecOrder(lo, hi);
      BlockedIfSameTens(lo, hi);
    } else {
      DecCanonical(-hi);
      var s := ToString(hi);
      assert |minS| == |s| ==> minS[..|minS| - 1][0] != s[..|s| - 1][0];
    }
  }

  /** The loop over lengths: `d`-digit numbers up to 99..9, then from 10..0 on, until the length of the maximum. */
  method BuildNonNegative(lo: nat, hi: int) returns (out: Body)
    ensures lo <= hi ==> forall env: Env :: BodyLang(env, out) == Numerals(lo, hi)
    ensures lo > hi ==> forall env: Env ::
              if SameTens(lo, hi) then BodyLang(env, out) == iset{} else ToString(hi) in BodyLang(env, out)
  {
    hide BodyLang, SeqLang, Between, Numerals, SameTens, Alternatives, Blocked, WrittenBelow, Below, Dec, Digits,
      Signed, LexLe, Zeros, Nines;
    NothingWritten(lo);
    var minS, maxS := Dec(lo), ToString(hi);
    var digits := |minS|;
    if lo <= hi { DecOrder(lo, hi); }
    SignedNumeral(hi);
    DecCanonical(lo);
    out := [];
    while digits < |maxS|
      invariant |Dec(lo)| <= digits && (digits <= |maxS| || digits == |Dec(lo)|)
      invariant minS == if digits == |Dec(lo)| then Dec(lo) else "1" + Zeros(digits - 1)
      invariant if out == [] then digits == |Dec(lo)| else out[|out| - 1] == Bar && |Dec(lo)| < |maxS|
      invariant WrittenBelow(lo, digits, out)
    {
      BelowStep(lo, digits, minS);
      var u := UniformRange(minS, Nines(digits));
      NextLength(lo, digits, minS, out, u);
      minS := "1" + Zeros(digits);
      out := out + u + [Bar];
      digits := digits + 1;
    }
    FromDigits(lo, digits, minS);
    if lo <= hi { BelowLast(lo, hi, minS); }
    var u := UniformRange(minS, maxS);
    if lo <= hi {
      LastLength(lo, hi, minS, out, u);
    } else {
      forall env: Env
        ensures if SameTens(lo, hi) then BodyLang(env, out + u) == iset{} else ToString(hi) in BodyLang(env, out + u)
      {
        CrossedLast(env, lo, hi, minS, out, u);
      }
    }
    out := out + u;
  }

  lemma SignedNumeral(n: int)
    ensures Signed(ToString(n))
  {
    DecCanonical(Abs(n));
    if n < 0 { assert ToString(n)[1..] == Dec(-n); }
  }

  // ---------------------------------------------------------------- a lower bound alone

  /** The digits of `r` from position `from` on, its last digit excepted, are all 2 or more. */
  predicate MiddleDigitsFrom2(r: string, from: nat) {
    forall i :: from <= i < |r| - 1 ==> r[i] >= '2'
  }

  /** What the branch for a minimum of two or more digits writes, when `n` is the language written for the
      digits after the first. */
  ghost function StepLang(r: string, dl: nat, top: bool, n: Lang): Lang
    requires |r| >= 2 && Canonical(r) && dl > |r|
  {
    (if r[0] > '1' then Cat(CharsFrom(if top then '1' else '0', Pred(r[0])), DigitStrings(|r|, dl - 1)) else iset{})
    + Cat(CharsFrom(r[0], r[0]), n)
    + (if r[0] < '9' then Cat(CharsFrom(Succ(r[0]), '9'), DigitStrings(|r| - 1, dl - 1)) else iset{})
  }

  lemma InStep(r: string, dl: nat, top: bool, n: Lang, w: string)
    requires |r| >= 2 && Canonical(r) && dl > |r|
    ensures w in StepLang(r, dl, top, n) <==>
              && w != ""
              && (|| (r[0] > '1' && (if top then '1' else '0') <= w[0] < r[0] && w[1..] in DigitStrings(|r|, dl - 1))
                  || (w[0] == r[0] && w[1..] in n)
                  || (r[0] < w[0] <= '9' && w[1..] in DigitStrings(|r| - 1, dl - 1)))
  {
    InRangeCat(if top then '1' else '0', Pred(r[0]), DigitStrings(|r|, dl - 1), w);
    InRangeCat(r[0], r[0], n, w);
    InRangeCat(Succ(r[0]), '9', DigitStrings(|r| - 1, dl - 1), w);
  }

  /** If the digits after the first are handled exactly, so is the whole. A first digit of 1 admits no leading
      zeros, whatever `top` says. */
  lemma StepExact(r: string, dl: nat, top: bool, n: Lang, noZeros: bool)
    requires |r| >= 2 && Canonical(r) && dl > |r|
    requires n == Tail(r[1..], dl - 1, false)
    requires noZeros == (top || r[0] == '1')
    ensures StepLang(r, dl, top, n) == Tail(r, dl, noZeros)
  {
    forall w ensures w in StepLang(r, dl, top, n) <==> w in Tail(r, dl, noZeros) {
      InStep(r, dl, top, n, w);
      if w != "" {
        assert w == [w[0]] + w[1..];
        assert Digits(w) <==> IsDigit(w[0]) && Digits(w[1..]);
      }
    }
  }

  /** A word that tells the languages for the digits after the first apart tells the whole languages apart. */
  lemma StepWitness(r: string, dl: nat, top: bool, n: Lang, noZeros: bool, x: string)
    requires |r| >= 2 && Canonical(r) && dl > |r|
    requires x in n <==> x !in Tail(r[1..], dl - 1, false)
    ensures [r[0]] + x in StepLang(r, dl, top, n) <==> [r[0]] + x !in Tail(r, dl, noZeros)
  {
    var w := [r[0]] + x;
    assert w[1..] == x;
    InStep(r, dl, top, n, w);
    assert Digits(w) <==> Digits(x) by { assert forall i :: 0 <= i < |x| ==> w[i + 1] == x[i]; }
    assert r == [r[0]] + r[1..];
  }

  lemma {:induction false} LeadingZeroShortens(s: string)
    requires Digits(s) && |s| >= 2 && s[0] == '0'
    ensures |Dec(Value(s))| < |s|
  {
    var a := s[..|s| - 1];
    if |a| >= 2 {
      LeadingZeroShortens(a);
      assert Value(s) / 10 == Value(a);
    } else {
      assert a == "0";
      assert a[..0] == "";
      assert Value(a) == 0;
    }
  }

  lemma RestIsShorter(s: string)
    requires Digits(s) && s != ""
    ensures |Dec(Value(s))| <= |s|
    ensures s[0] != '0' || |s| == 1 ==> Dec(Value(s)) == s
    ensures s[0] == '0' && |s| >= 2 ==> |Dec(Value(s))| < |s|
  {
    if s[0] == '0' && |s| >= 2 { LeadingZeroShortens(s); } else { CanonicalIsDec(s); }
  }

  lemma ZeroTail(dl: nat)
    requires dl >= 2
    ensures CharsFrom('0', '0') + Cat(CharsFrom('1', '9'), DigitStrings(0, dl - 1)) == Tail("0", dl, true)
    ensures DigitStrings(1, dl) == Tail("0", dl, false)
  {
    forall w
      ensures w in CharsFrom('0', '0') + Cat(CharsFrom('1', '9'), DigitStrings(0, dl - 1)) <==> w in Tail("0", dl, true)
      ensures w in DigitStrings(1, dl) <==> w in Tail("0", dl, false)
    {
      InRangeCat('1', '9', DigitStrings(0, dl - 1), w);
      SplitWord(w);
      OneChar(w, "0");
    }
  }

  lemma DigitTail(c: char, dl: nat, top: bool)
    requires dl >= 2 && '1' <= c <= '9'
    ensures var low := if top && c == '1' then iset{} else Cat(CharsFrom(if top then '1' else '0', Pred(c)),
            DigitStrings(1, dl - 1));
            low + Cat(CharsFrom(c, '9'), DigitStrings(0, dl - 1)) == Tail([c], dl, top)
  {
    var start := if top then '1' else '0';
    forall w
      ensures w in Cat(CharsFrom(start, Pred(c)), DigitStrings(1, dl - 1)) + Cat(CharsFrom(c, '9'), DigitStrings(0,
              dl - 1))
              <==> w in Tail([c], dl, top)
      ensures top && c == '1' ==> w !in Cat(CharsFrom(start, Pred(c)), DigitStrings(1, dl - 1))
    {
      InRangeCat(start, Pred(c), DigitStrings(1, dl - 1), w);
      InRangeCat(c, '9', DigitStrings(0, dl - 1), w);
      SplitWord(w);
      OneChar(w, [c]);
    }
  }

  lemma OneChar(w: string, r: string)
    requires |r| == 1
    ensures |w| == 1 ==> w == [w[0]] && (LexLe(r, w) <==> r[0] <= w[0])
  {
    if |w| == 1 {
      assert w[1..] == "" == r[1..];
      assert LexLe("", "");
    }
  }

  lemma SplitWord(w: string)
    ensures w != "" ==> (Digits(w) <==> IsDigit(w[0]) && Digits(w[1..]))
  {
    if w != "" { assert w == [w[0]] + w[1..]; }
  }

  lemma FromZero(env: Env, out: Body, dl: nat, top: bool)
    requires 2 <= dl < INT_MAX
    requires out == if top then [DigitRange('0', '0'), Bar, DigitRange('1', '9'), MoreDigits(0,
             dl - 1)] else [MoreDigits(1, dl)]
    ensures BodyLang(env, out) == Tail("0", dl, top)
  {
    hide BodyLang, Cat, DigitStrings, CharsFrom, Tail;
    ZeroTail(dl);
    if top {
      var z, p := [DigitRange('0', '0')], [DigitRange('1', '9'), MoreDigits(0, dl - 1)];
      assert out == z + [Bar] + p;
      BodyAlt(env, z, p);
      SeqOne(env, z[0]);
      ClassRange(env, '0', '0');
      RangeThenMore(env, '1', '9', 0, dl - 1);
    } else {
      SeqOne(env, out[0]);
      ClassMore(env, 1, dl);
    }
  }

  lemma FromDigit(env: Env, out: Body, c: char, dl: nat, top: bool)
    requires 2 <= dl < INT_MAX && '1' <= c <= '9'
    requires var start := if top then '1' else '0';
             out == (if c > start then [DigitRange(start, Pred(c)), MoreDigits(1, dl - 1)] + [Bar] else [])
                    + [DigitRange(c, '9'), MoreDigits(0, dl - 1)]
    ensures BodyLang(env, out) == Tail([c], dl, top)
  {
    DigitTail(c, dl, top);
    var start := if top then '1' else '0';
    var p := [DigitRange(c, '9'), MoreDigits(0, dl - 1)];
    RangeThenMore(env, c, '9', 0, dl - 1);
    if c > start {
      var q := [DigitRange(start, Pred(c)), MoreDigits(1, dl - 1)];
      RangeThenMore(env, start, Pred(c), 1, dl - 1);
      BodyAlt(env, q, p);
    } else {
      assert out == p;
    }
  }

  lemma ThreeAlternatives(env: Env, p: Body, q: Body, t: Body, first: bool, last: bool)
    requires NoBar(q)
    ensures var a := if first then p + [Bar] else [];
            BodyLang(env, if last then (a + q) + [Bar] + t else a + q)
            == (if first then BodyLang(env, p) else iset{}) + BodyLang(env, q) + (if last then BodyLang(env,
                t) else iset{})
  {
    var a := if first then p + [Bar] else [];
    assert Alternatives(env, a) == if first then BodyLang(env, p) else iset{} by {
      if first { assert a[..|a| - 1] == p; }
    }
    AddAlternative(env, a, q);
    BodyOfSeq(env, q);
    BodyAlt(env, a + q, t);
  }

  /** The text of the branch for two or more digits denotes `StepLang`. */
  lemma StepText(env: Env, p: Body, q: Body, t: Body, r: string, dl: nat, top: bool, sub: Body)
    requires |r| >= 2 && Canonical(r) && |r| < dl < INT_MAX
    requires p == [DigitRange(if top then '1' else '0', Pred(r[0])), MoreDigits(|r|, dl - 1)]
    requires q == [DigitRange(r[0], r[0]), Group(sub)]
    requires r[0] < '9' ==> t == [DigitRange(Succ(r[0]), '9'), MoreDigits(|r| - 1, dl - 1)]
    ensures var a := if r[0] > '1' then p + [Bar] else [];
            BodyLang(env, if r[0] < '9' then (a + q) + [Bar] + t else a + q)
            == StepLang(r, dl, top, BodyLang(env, sub))
  {
    hide BodyLang, Cat, DigitStrings, CharsFrom;
    ThreeAlternatives(env, p, q, t, r[0] > '1', r[0] < '9');
    RangeThenGroup(env, r[0], r[0], sub);
    if r[0] < '9' { RangeThenMore(env, Succ(r[0]), '9', |r| - 1, dl - 1); }
    if r[0] > '1' { RangeThenMore(env, if top then '1' else '0', Pred(r[0]), |r|, dl - 1); }
  }

  lemma StepNines(r: string, dl: nat, top: bool, n: Lang, k: nat)
    requires |r| >= 2 && Canonical(r) && dl > |r|
    requires 1 <= k < |r| && Nines(k) in n && Nines(dl - 1) in n
    ensures Nines(if r[0] < '9' then |r| else k + 1) in StepLang(r, dl, top, n)
    ensures Nines(dl) in StepLang(r, dl, top, n)
  {
    InStep(r, dl, top, n, Nines(|r|));
    InStep(r, dl, top, n, Nines(k + 1));
    InStep(r, dl, top, n, Nines(dl));
    assert Nines(|r|)[1..] == Nines(|r| - 1);
    assert Nines(k + 1)[1..] == Nines(k);
    assert Nines(dl)[1..] == Nines(dl - 1);
  }

  /** What the minimum-only branch promises of the language `l` it writes for the numeral `r`: it is exact when
      the digits of `r` between the first (at the top level) and the last are all 2 or more, and otherwise `x` is
      a word it gets wrong. Below the top level a word of zeros is let through, except after a first digit 1. */
  ghost predicate AtLeast(r: string, dl: nat, top: bool, l: Lang, x: string, k: nat) {
    && Judged(r, dl, top, if top then 1 else 0, l, x)
    && (|r| >= 2 && r[0] == '1' ==> Judged(r, dl, true, 1, l, x))
    && (!top && r != "0" && r != "" && (|r| == 1 || r[0] >= '2') ==> Zeros(|r| + 1) in l)
    && Nines(k) in l && Nines(dl) in l
  }

  ghost predicate Judged(r: string, dl: nat, noZeros: bool, from: nat, l: Lang, x: string) {
    if MiddleDigitsFrom2(r, from) then l == Tail(r, dl, noZeros) else x in l <==> x !in Tail(r, dl, noZeros)
  }

  lemma StepCases(r: string, dl: nat, top: bool, n: Lang, x: string, y: string, k: nat)
    requires |r| >= 2 && Canonical(r) && |r| < dl
    requires MiddleDigitsFrom2(r, 1) ==> n == Tail(r[1..], dl - 1, false) && x == Zeros(|r| + 1)
    requires !MiddleDigitsFrom2(r, 1) ==> (y in n <==> y !in Tail(r[1..], dl - 1, false)) && x == [r[0]] + y
    requires Nines(k) in StepLang(r, dl, top, n) && Nines(dl) in StepLang(r, dl, top, n)
    ensures AtLeast(r, dl, top, StepLang(r, dl, top, n), x, k)
  {
    var l := StepLang(r, dl, top, n);
    var zeros := Zeros(|r| + 1);
    assert zeros[1..] == Zeros(|r|);
    InStep(r, dl, top, n, zeros);
    if MiddleDigitsFrom2(r, 1) {
      StepExact(r, dl, top, n, top || r[0] == '1');
      if r[0] == '1' { assert !InTail(r, dl, true, zeros) && InTail(r, dl, false, zeros); }
    } else {
      StepWitness(r, dl, top, n, true, y);
      StepWitness(r, dl, top, n, false, y);
    }
  }

  /** The branch for a minimum below ten. */
  method BuildFromDigit(m: nat, dl: nat, top: bool) returns (out: Body)
    requires m <= 9 && 2 <= dl < INT_MAX
    ensures forall env: Env :: BodyLang(env, out) == Tail(Dec(m), dl, top)
  {
    var less := if dl - 1 > 1 then dl - 1 else 1;
    if m == 0 {
      out := if top then [DigitRange('0', '0'), Bar, DigitRange('1', '9'), MoreDigits(0, less)] else [MoreDigits(1,
          dl)];
      forall env: Env ensures BodyLang(env, out) == Tail("0", dl, top) {
        FromZero(env, out, dl, top);
      }
      assert Dec(m) == "0";
    } else {
      var c := DigitChar(m);
      var rangeStart := if top then '1' else '0';
      out := [];
      if c > rangeStart {
        out := out + ([DigitRange(rangeStart, Pred(c)), MoreDigits(1, less)] + [Bar]);
      }
      out := out + [DigitRange(c, '9'), MoreDigits(0, less)];
      forall env: Env ensures BodyLang(env, out) == Tail([c], dl, top) {
        FromDigit(env, out, c, dl, top);
      }
    }
  }

  lemma ShortCase(m: nat, dl: nat, top: bool)
    requires m <= 9 && dl >= 2
    ensures AtLeast(Dec(m), dl, top, Tail(Dec(m), dl, top), "", 1)
  {
    var r := Dec(m);
    assert r == [DigitChar(m)];
    LexZerosNines(r);
    assert InTail(r, dl, top, Nines(1)) && InTail(r, dl, top, Nines(dl));
    if !top { assert InTail(r, dl, top, Zeros(2)); }
  }

  /** The minimum-only branch for `m >= 0`. */
  method BuildAtLeast(m: nat, dl: nat, top: bool) returns (out: Body, ghost x: string, ghost k: nat)
    requires |Dec(m)| < dl < INT_MAX
    ensures 1 <= k <= |Dec(m)|
    ensures forall env: Env :: AtLeast(Dec(m), dl, top, BodyLang(env, out), x, k)
    decreases |Dec(m)|
  {
    DecCanonical(m);
    if m <= 9 {
      x, k := "", 1;
      out := BuildFromDigit(m, dl, top);
      ShortCase(m, dl, top);
    } else {
      var less := if dl - 1 > 1 then dl - 1 else 1;
      var minS := Dec(m);
      var len, c := |minS|, minS[0];
      var rest := minS[1..];
      RestIsShorter(rest);
      out := [];
      var p := [DigitRange(if top then '1' else '0', Pred(c)), MoreDigits(len, less)];
      if c > '1' {
        out := p + [Bar];
      }
      var sub, y, j := BuildAtLeast(Value(rest), less, false);
      var q := [DigitRange(c, c), Group(sub)];
      out := out + q;
      var t := [];
      if c < '9' {
        t := [DigitRange(Succ(c), '9'), MoreDigits(len - 1, less)];
        out := out + [Bar] + t;
      }
      k := if c < '9' then len else j + 1;
      x := StepWord(minS, y, j);
      forall env: Env ensures AtLeast(minS, dl, top, BodyLang(env, out), x, k) {
        StepText(env, p, q, t, minS, dl, top, sub);
        StepAtLeast(minS, dl, top, BodyLang(env, sub), y, j, k);
      }
    }
  }

  ghost function StepWord(r: string, y: string, j: nat): string
    requires |r| >= 2
  {
    if MiddleDigitsFrom2(r, 1) then Zeros(|r| + 1) else [r[0]] + (if r[1] == '0' then Nines(j) else y)
  }

  lemma StepAtLeast(r: string, dl: nat, top: bool, n: Lang, y: string, j: nat, k: nat)
    requires |r| >= 2 && Canonical(r) && |r| < dl
    requires 1 <= j <= |Dec(Value(r[1..]))|
    requires AtLeast(Dec(Value(r[1..])), dl - 1, false, n, y, j)
    requires k == if r[0] < '9' then |r| else j + 1
    ensures 1 <= k <= |r|
    ensures AtLeast(r, dl, top, StepLang(r, dl, top, n), StepWord(r, y, j), k)
  {
    RestIsShorter(r[1..]);
    StepNines(r, dl, top, n, j);
    RestCases(r, dl, n, y, j);
    StepCases(r, dl, top, n, StepWord(r, y, j), if r[1] == '0' then Nines(j) else y, k);
  }

  /** From what is promised for the digits after the first, read as a number, to what the step needs of them. */
  lemma RestCases(r: string, dl: nat, n: Lang, y: string, j: nat)
    requires |r| >= 2 && Canonical(r) && |r| < dl
    requires 1 <= j <= |Dec(Value(r[1..]))|
    requires AtLeast(Dec(Value(r[1..])), dl - 1, false, n, y, j)
    ensures MiddleDigitsFrom2(r, 1) ==> n == Tail(r[1..], dl - 1, false)
    ensures !MiddleDigitsFrom2(r, 1) ==>
              var z := if r[1] == '0' then Nines(j) else y;
              z in n <==> z !in Tail(r[1..], dl - 1, false)
  {
    var s := r[1..];
    RestIsShorter(s);
    assert MiddleDigitsFrom2(r, 1) <==> MiddleDigitsFrom2(s, 0) by {
      assert forall i :: 1 <= i < |r| - 1 ==> r[i] == s[i - 1];
      assert forall i :: 0 <= i < |s| - 1 ==> s[i] == r[i + 1];
    }
  }

  // ---------------------------------------------------------------- the whole function

  function Pow10(k: nat): nat {
    if k == 0 then 1 else 10 * Pow10(k - 1)
  }

  lemma {:induction false} DecLength(n: nat, k: nat)
    requires k >= 1 && n < Pow10(k)
    ensures |Dec(n)| <= k
  {
    if n >= 10 {
      assert Pow10(1) == 10 * Pow10(0);
      DecLength(n / 10, k - 1);
    }
  }

  lemma IntLength(n: nat)
    requires n <= INT_MAX
    ensures |Dec(n)| <= 10
  {
    assert Pow10(10) == 10_000_000_000;
    DecLength(n, 10);
  }

  /** The integer a numeral stands for. */
  function IntOf(w: string): (n: int)
    requires IsNumeral(w)
  {
    if w[0] == '-' then 0 - (Value(w[1..]) as int) else Value(w) as int
  }

  predicate IsNumeral(w: string) {
    Canonical(w) || (w != "" && w[0] == '-' && Canonical(w[1..]) && w[1..] != "0")
  }

  lemma Zero(w: string)
    ensures Canonical(w) ==> (Value(w) == 0 <==> w == "0")
  {
    if Canonical(w) { CanonicalIsDec(w); }
    assert Value("0") == 0 by { assert "0"[..0] == ""; }
  }

  lemma NumeralRoundTrip(n: int)
    ensures IsNumeral(ToString(n)) && IntOf(ToString(n)) == n
  {
    DecCanonical(Abs(n));
    if n < 0 {
      assert ToString(n)[1..] == Dec(-n);
      Zero(Dec(-n));
    }
  }

  lemma NumeralIsToString(w: string)
    requires IsNumeral(w)
    ensures ToString(IntOf(w)) == w
  {
    if w[0] == '-' {
      CanonicalIsDec(w[1..]);
      Zero(w[1..]);
      assert w == "-" + w[1..];
    } else {
      CanonicalIsDec(w);
    }
  }

  /** Membership in `Intended`, read off the word. */
  lemma InIntended(minValue: int, maxValue: int, w: string)
    ensures w in Intended(minValue, maxValue) <==>
              (IsNumeral(w) && Fits(minValue, maxValue, IntOf(w))) || (MinusZero(minValue, maxValue) && w == "-0")
  {
    if n: int :| Fits(minValue, maxValue, n) && w == ToString(n) {
      NumeralRoundTrip(n);
    }
    if IsNumeral(w) { NumeralIsToString(w); }
  }

  lemma InNumerals(lo: nat, hi: nat, w: string)
    ensures w in Numerals(lo, hi) <==> Canonical(w) && lo <= Value(w) <= hi
  {
    if Canonical(w) { CanonicalIsDec(w); }
    if n: nat :| lo <= n <= hi && w == Dec(n) { DecCanonical(n); }
  }

  lemma InTailOf(lo: nat, dl: nat, w: string)
    ensures w in Tail(Dec(lo), dl, true) <==> Canonical(w) && lo <= Value(w) && |w| <= dl
  {
    if Canonical(w) {
      CanonicalIsDec(w);
      DecOrder(lo, Value(w));
    }
  }

  lemma MinusGroup(env: Env, b: Body)
    ensures NoBar([Lit("-"), Group(b)])
    ensures BodyLang(env, [Lit("-"), Group(b)]) == Cat(iset{"-"}, BodyLang(env, b))
  {
    SeqTwo(env, Lit("-"), Group(b));
    BodyOfSeq(env, [Lit("-"), Group(b)]);
  }

  lemma InMinus(l: Lang, w: string)
    ensures w in Cat(iset{"-"}, l) <==> w != "" && w[0] == '-' && w[1..] in l
  {
    InLitCat("-", l, w);
    if w != "" && w[0] == '-' { assert w == "-" + w[1..]; }
  }

  /** A word on which the written language `l` and the intended one differ. */
  ghost predicate Wrong(minValue: int, maxValue: int, l: Lang, x: string) {
    x in l <==> x !in Intended(minValue, maxValue)
  }

  lemma TwoSided(lo: int, hi: int)
    requires INT_MIN < lo <= hi < INT_MAX
    ensures hi < 0 ==> Cat(iset{"-"}, Numerals(-hi, -lo)) == Intended(lo, hi)
    ensures lo < 0 <= hi ==> Cat(iset{"-"}, Numerals(0, -lo)) + Numerals(0, hi) == Intended(lo, hi)
    ensures 0 <= lo ==> Numerals(lo, hi) == Intended(lo, hi)
  {
    forall w
      ensures hi < 0 ==> (w in Cat(iset{"-"}, Numerals(-hi, -lo)) <==> w in Intended(lo, hi))
      ensures lo < 0 <= hi ==> (w in Cat(iset{"-"}, Numerals(0, -lo)) + Numerals(0, hi) <==> w in Intended(lo, hi))
      ensures 0 <= lo ==> (w in Numerals(lo, hi) <==> w in Intended(lo, hi))
    {
      InIntended(lo, hi, w);
      InNumerals(Abs(lo), Abs(hi), w);
      InNumerals(0, Abs(hi), w);
      Zero(w);
      if w != "" {
        Zero(w[1..]);
        InNumerals(Abs(hi), Abs(lo), w[1..]);
        InNumerals(0, Abs(lo), w[1..]);
      }
      InMinus(Numerals(Abs(hi), Abs(lo)), w);
      InMinus(Numerals(0, Abs(lo)), w);
    }
  }

  lemma MinimumOnly(lo: nat)
    requires lo <= INT_MAX
    ensures Tail(Dec(lo), 16, true) == Intended(lo, INT_MAX)
  {
    forall w ensures w in Tail(Dec(lo), 16, true) <==> w in Intended(lo, INT_MAX) {
      InIntended(lo, INT_MAX, w);
      InTailOf(lo, 16, w);
      if Canonical(w) { CanonicalIsDec(w); }
      if w != "" { Zero(w[1..]); }
    }
  }

  lemma NegativeMinimumOnly(lo: int)
    requires INT_MIN < lo < 0
    ensures Cat(iset{"-"}, Numerals(0, -lo)) + Tail("0", 16, true) == Intended(lo, INT_MAX)
  {
    hide Cat, Intended, Tail, Numerals;
    forall w ensures w in Cat(iset{"-"}, Numerals(0, -lo)) + Tail("0", 16, true) <==> w in Intended(lo, INT_MAX) {
      InIntended(lo, INT_MAX, w);
      InMinus(Numerals(0, -lo), w);
      assert Dec(0) == "0";
      InTailOf(0, 16, w);
      if Canonical(w) { CanonicalIsDec(w); }
      if w != "" {
        Zero(w[1..]);
        InNumerals(0, -lo, w[1..]);
        if Canonical(w[1..]) && Value(w[1..]) <= -lo { IntLength(Value(w[1..])); }
      }
    }
  }

  lemma MaximumOnly(hi: nat)
    requires hi < INT_MAX
    ensures Cat(iset{"-"}, Tail("1", 16, true)) + Numerals(0, hi) == Intended(INT_MIN, hi)
  {
    hide Cat, Intended, Tail, Numerals;
    forall w ensures w in Cat(iset{"-"}, Tail("1", 16, true)) + Numerals(0, hi) <==> w in Intended(INT_MIN, hi) {
      InIntended(INT_MIN, hi, w);
      InMinus(Tail("1", 16, true), w);
      InNumerals(0, hi, w);
      assert Dec(1) == "1";
      if Canonical(w) && Value(w) <= hi { IntLength(Value(w)); }
      if w != "" {
        Zero(w[1..]);
        InTailOf(1, 16, w[1..]);
        if Canonical(w[1..]) { CanonicalIsDec(w[1..]); }
      }
    }
  }

  lemma NegativeMaximumOnly(hi: int)
    requires INT_MIN < hi < 0
    ensures Cat(iset{"-"}, Tail(Dec(-hi), 16, true)) == Intended(INT_MIN, hi)
  {
    hide Cat, Intended, Tail;
    forall w ensures w in Cat(iset{"-"}, Tail(Dec(-hi), 16, true)) <==> w in Intended(INT_MIN, hi) {
      InIntended(INT_MIN, hi, w);
      InMinus(Tail(Dec(-hi), 16, true), w);
      if w != "" {
        Zero(w[1..]);
        InTailOf(-hi, 16, w[1..]);
        if Canonical(w[1..]) { CanonicalIsDec(w[1..]); }
      }
    }
  }

  lemma OneToNine()
    ensures Cat(CharsFrom('1', '9'), DigitStrings(0, 15)) == Tail("1", 16, true)
  {
    DigitTail('1', 16, true);
    assert ['1'] == "1";
  }

  /** The sixteen-digit word no 32-bit bound admits. */
  lemma TooLong(lo: int, hi: int)
    requires INT_MIN < lo < 0 && lo <= hi < INT_MAX
    ensures "-" + Nines(16) !in Intended(lo, hi)
  {
    var w := "-" + Nines(16);
    InIntended(lo, hi, w);
    assert w[1..] == Nines(16);
    CanonicalIsDec(Nines(16));
    IntLength(-lo);
    DecOrder(Value(Nines(16)), -lo);
  }

  /** The nested call with bounds `lo >= 0` and `hi`; a negated minimum of -INT_MAX makes `hi` read as unset. */
  method BuildNested(lo: nat, hi: nat) returns (out: Body)
    requires lo <= INT_MAX && hi <= INT_MAX
    ensures lo <= hi < INT_MAX ==> forall env: Env :: BodyLang(env, out) == Numerals(lo, hi)
    ensures hi < lo ==> forall env: Env ::
              if SameTens(lo, hi) then BodyLang(env, out) == iset{} else Dec(hi) in BodyLang(env, out)
    ensures hi == INT_MAX ==> forall env: Env :: Nines(16) in BodyLang(env, out)
  {
    if HasMax(hi) {
      out := BuildNonNegative(lo, hi);
    } else {
      IntLength(lo);
      ghost var x, k;
      out, x, k := BuildAtLeast(lo, 16, true);
    }
  }

  lemma NoneBetween(lo: int, hi: int)
    requires HasMin(lo) && HasMax(hi) && lo > hi
    ensures Intended(lo, hi) == iset{}
  {
  }

  /** Both bounds set. */
  method BuildBetween(minValue: int, maxValue: int) returns (out: Body, ghost x: string)
    requires INT_MIN < minValue <= INT_MAX && INT_MIN < maxValue < INT_MAX
    ensures forall env: Env ::
              if Exact(minValue, maxValue) then BodyLang(env, out) == Intended(minValue, maxValue)
              else Wrong(minValue, maxValue, BodyLang(env, out), x)
  {
    x := if minValue <= maxValue then "-" + Nines(16) else ToString(if minValue < 0 then minValue else maxValue);
    if minValue <= maxValue { TwoSided(minValue, maxValue); } else { NoneBetween(minValue, maxValue); }
    if minValue < 0 {
      var inner := BuildNested(if maxValue < 0 then -maxValue else 0, -minValue);
      var minus := [Lit("-"), Group(inner)];
      out := minus;
      if maxValue >= 0 {
        var rest := BuildNonNegative(0, maxValue);
        out := minus + [Bar] + rest;
        forall env: Env ensures BodyLang(env, out) == BodyLang(env, minus) + BodyLang(env, rest) {
          BodyAlt(env, minus, rest);
        }
      }
      if minValue == -INT_MAX { TooLong(minValue, maxValue); }
      forall env: Env
        ensures if Exact(minValue, maxValue) then BodyLang(env, out) == Intended(minValue, maxValue)
                else Wrong(minValue, maxValue, BodyLang(env, out), x)
      {
        MinusGroup(env, inner);
        InMinus(BodyLang(env, inner), x);
        if minValue > maxValue {
          assert x[1..] == Dec(-minValue);
          forall w ensures w !in Cat(iset{"-"}, BodyLang(env, inner)) || !SameTens(minValue, maxValue) {
            InMinus(BodyLang(env, inner), w);
          }
        } else {
          assert ("-" + Nines(16))[1..] == Nines(16);
        }
      }
    } else {
      out := BuildNonNegative(minValue, maxValue);
    }
  }

  /** A negative minimum alone. */
  method BuildFromNegative(minValue: int) returns (out: Body)
    requires -INT_MAX < minValue < 0
    ensures forall env: Env :: BodyLang(env, out) == Intended(minValue, INT_MAX)
  {
    NegativeMinimumOnly(minValue);
    var inner := BuildNonNegative(0, -minValue);
    var minus, rest := [Lit("-"), Group(inner)], [DigitRange('0', '0'), Bar, DigitRange('1', '9'), MoreDigits(0, 15)];
    out := minus + [Bar] + rest;
    forall env: Env ensures BodyLang(env, out) == Intended(minValue, INT_MAX) {
      MinusGroup(env, inner);
      FromZero(env, rest, 16, true);
      BodyAlt(env, minus, rest);
    }
  }

  /** A nonnegative maximum alone. */
  method BuildAtMost(maxValue: nat) returns (out: Body)
    requires maxValue < INT_MAX
    ensures forall env: Env :: BodyLang(env, out) == Intended(INT_MIN, maxValue)
  {
    MaximumOnly(maxValue);
    var minus := [Lit("-"), DigitRange('1', '9'), MoreDigits(0, 15)];
    var rest := BuildNonNegative(0, maxValue);
    out := minus + [Bar] + rest;
    forall env: Env ensures BodyLang(env, out) == Intended(INT_MIN, maxValue) {
      OneToNine();
      MinusDigits(env, minus);
      BodyAlt(env, minus, rest);
    }
  }

  /** A negative maximum alone. */
  method BuildAtMostNegative(maxValue: int) returns (out: Body, ghost x: string)
    requires INT_MIN < maxValue < 0
    ensures forall env: Env ::
              if Exact(INT_MIN, maxValue) then BodyLang(env, out) == Intended(INT_MIN, maxValue)
              else Wrong(INT_MIN, maxValue, BodyLang(env, out), x)
  {
    IntLength(-maxValue);
    ghost var r := Dec(-maxValue);
    var inner, y, k := BuildAtLeast(-maxValue, 16, false);
    ghost var z := if |r| >= 2 && r[0] == '1' then y else Zeros(|r| + 1);
    out, x := [Lit("-"), Group(inner)], "-" + z;
    forall env: Env
      ensures if Exact(INT_MIN, maxValue) then BodyLang(env, out) == Intended(INT_MIN, maxValue)
              else Wrong(INT_MIN, maxValue, BodyLang(env, out), x)
    {
      MinusGroup(env, inner);
      NegatedTail(maxValue, BodyLang(env, inner), y, z, k);
    }
  }

  lemma NegatedTail(maxValue: int, l: Lang, y: string, z: string, k: nat)
    requires INT_MIN < maxValue < 0
    requires AtLeast(Dec(-maxValue), 16, false, l, y, k)
    requires var r := Dec(-maxValue); z == if |r| >= 2 && r[0] == '1' then y else Zeros(|r| + 1)
    ensures if Exact(INT_MIN, maxValue) then Cat(iset{"-"}, l) == Intended(INT_MIN, maxValue)
            else Wrong(INT_MIN, maxValue, Cat(iset{"-"}, l), "-" + z)
  {
    var r := Dec(-maxValue);
    DecCanonical(-maxValue);
    NegativeMaximumOnly(maxValue);
    if !Exact(INT_MIN, maxValue) {
      if |r| >= 2 && r[0] == '1' {
        assert Judged(r, 16, true, 1, l, y);
      } else {
        assert z in l;
        assert !Canonical(z);
      }
      assert z in l <==> z !in Tail(r, 16, true);
      assert ("-" + z)[1..] == z;
      InMinus(l, "-" + z);
      InMinus(Tail(r, 16, true), "-" + z);
    }
  }

  /** `_build_min_max_int`. The text written is right exactly when `Exact` holds of the bounds; otherwise `x` is a
      word it gets wrong. */
  method BuildMinMaxInt(minValue: int, maxValue: int) returns (w: Written, ghost x: string)
    requires INT_MIN <= minValue <= INT_MAX && INT_MIN < maxValue <= INT_MAX  // -INT_MIN is not an int
    ensures w == Throws <==> !HasMax(maxValue) && (!HasMin(minValue) || minValue == -INT_MAX)
    ensures w.Text? && Exact(minValue, maxValue) ==>
              forall env: Env :: BodyLang(env, w.body) == Intended(minValue, maxValue)
    ensures w.Text? && !Exact(minValue, maxValue) ==>
              forall env: Env :: Wrong(minValue, maxValue, BodyLang(env, w.body), x)
  {
    x := "-" + Nines(16);
    var out;
    if minValue != INT_MIN && maxValue != INT_MAX {
      out, x := BuildBetween(minValue, maxValue);
    } else if minValue != INT_MIN {
      if minValue < 0 {
        if -minValue == INT_MAX {
          return Throws, x;
        }
        out := BuildFromNegative(minValue);
      } else {
        IntLength(minValue);
        MinimumOnly(minValue);
        ghost var k;
        out, x, k := BuildAtLeast(minValue, 16, true);
      }
    } else if maxValue != INT_MAX {
      if maxValue >= 0 {
        out := BuildAtMost(maxValue);
      } else {
        out, x := BuildAtMostNegative(maxValue);
      }
    } else {
      return Throws, x;
    }
    w := Text(out);
  }

  lemma MinusDigits(env: Env, b: Body)
    requires b == [Lit("-"), DigitRange('1', '9'), MoreDigits(0, 15)]
    ensures BodyLang(env, b) == Cat(iset{"-"}, Cat(CharsFrom('1', '9'), DigitStrings(0, 15)))
  {
    var digits := [DigitRange('1', '9'), MoreDigits(0, 15)];
    RangeThenMore(env, '1', '9', 0, 15);
    BodyOfSeq(env, digits);
    assert b == [Lit("-")] + digits;
    SeqOne(env, Lit("-"));
    SeqAppend(env, [Lit("-")], digits);
    BodyOfSeq(env, b);
  }
}
