/** Anchored regular expressions: their text, and what they match. */
module Regex {
  import opened Gbnf
  import Decimal

  const INT_MAX := 0x7fff_ffff

  /** The numbers in braces are kept as they are written. */
  datatype Quant = Once | Star | Plus | Maybe | Exactly(n: string) | AtLeast(n: string) | Range(n: string, m: string)

  datatype Atom = Char(c: char) | AnyChar | Set(text: string) | Sub(re: Regex)

  datatype Piece = Piece(atom: Atom, quant: Quant)

  /** Alternatives, each a sequence of pieces. */
  datatype Branch = Branch(pieces: seq<Piece>)

  datatype Regex = Regex(branches: seq<Branch>)

  // ---------------------------------------------------------------- the text

  function ShowQuant(q: Quant): string {
    match q
    case Once => ""
    case Star => "*"
    case Plus => "+"
    case Maybe => "?"
    case Exactly(n) => "{" + n + "}"
    case AtLeast(n) => "{" + n + ",}"
    case Range(n, m) => "{" + n + "," + m + "}"
  }

  function ShowAtom(a: Atom): string
    decreases a, 0
  {
    match a
    case Char(c) => [c]
    case AnyChar => "."
    case Set(t) => "[" + t + "]"
    case Sub(re) => "(" + Show(re) + ")"
  }

  function ShowBranch(b: seq<Piece>): string
    decreases b, 0
  {
    if b == [] then ""
    else ShowPiece(b[0]) + ShowBranch(b[1..])
  }

  function ShowPiece(p: Piece): string
    decreases p, 0
  {
    ShowAtom(p.atom) + ShowQuant(p.quant)
  }

  function ShowBranches(bs: seq<Branch>): string
    decreases bs, 0
  {
    if bs == [] then ""
    else if |bs| == 1 then ShowBranch(bs[0].pieces)
    else ShowBranch(bs[0].pieces) + "|" + ShowBranches(bs[1..])
  }

  function Show(re: Regex): string
    decreases re, 0
  {
    ShowBranches(re.branches)
  }

  // ---------------------------------------------------------------- well-formed expressions

  /** NON_LITERAL_SET */
  predicate NonLiteral(c: char) {
    c in {'|', '.', '(', ')', '[', ']', '{', '}', '*', '+', '?'}
  }

  /** A character that stands for itself: no operator, escape, quote or anchor. */
  predicate PlainChar(c: char) {
    !NonLiteral(c) && c !in {'\\', '"', '^', '$', '\0'}
  }

  predicate PlainSet(t: string) {
    t != "" && t != "^" && forall i :: 0 <= i < |t| ==> t[i] !in {']', '\\', '\0'}
  }

  predicate Count(n: string) {
    n != "" && Decimal.Digits(n) && Decimal.Value(n) < INT_MAX
  }

  predicate GoodQuant(q: Quant) {
    match q
    case Exactly(n) => Count(n)
    case AtLeast(n) => Count(n)
    case Range(n, m) => Count(n) && Count(m) && Decimal.Value(n) <= Decimal.Value(m)
    case _ => true
  }

  predicate GoodAtom(a: Atom)
    decreases a, 0
  {
    match a
    case Char(c) => PlainChar(c)
    case AnyChar => true
    case Set(t) => PlainSet(t)
    case Sub(re) => Good(re)
  }

  /** A quantifier goes to a single byte: a character that carries one is ASCII. */
  predicate GoodPiece(p: Piece) {
    GoodAtom(p.atom) && GoodQuant(p.quant) && (p.atom.Char? && p.quant != Once ==> p.atom.c < '\U{80}')
  }

  predicate Good(re: Regex) {
    re.branches != []
    && forall i, j :: 0 <= i < |re.branches| && 0 <= j < |re.branches[i].pieces| ==> GoodPiece(re.branches[i].pieces[j])
  }

  /** The expressions the converter is shown to handle. */
  type Expression = re: Regex | Good(re) witness Regex([Branch([])])

  // ---------------------------------------------------------------- the language

  function Least(q: Quant): nat {
    match q
    case Once => 1
    case Plus => 1
    case Exactly(n) => NumberOf(n)
    case AtLeast(n) => NumberOf(n)
    case Range(n, _) => NumberOf(n)
    case _ => 0
  }

  function Most(q: Quant): Bound {
    match q
    case Once => Upto(1)
    case Maybe => Upto(1)
    case Exactly(n) => Upto(NumberOf(n))
    case Range(_, m) => Upto(NumberOf(m))
    case _ => Unbounded
  }

  function NumberOf(n: string): nat {
    if Decimal.Digits(n) then Decimal.Value(n) else 0
  }

  ghost function AtomLang(dotAll: bool, a: Atom): Lang
    decreases a, 0
  {
    match a
    case Char(c) => iset{[c]}
    case AnyChar => iset c: char | dotAll || c !in "\r\n" :: [c]
    case Set(t) => iset c: char | ClassHas(t, c) :: [c]
    case Sub(re) => RegexLang(dotAll, re)
  }

  ghost function BranchLang(dotAll: bool, b: seq<Piece>): Lang
    decreases b, 0
  {
    if b == [] then Eps()
    else Cat(PieceLang(dotAll, b[0]), BranchLang(dotAll, b[1..]))
  }

  ghost function PieceLang(dotAll: bool, p: Piece): Lang
    decreases p, 0
  {
    RepLang(AtomLang(dotAll, p.atom), Least(p.quant), Most(p.quant))
  }

  ghost function BranchesLang(dotAll: bool, bs: seq<Branch>): Lang
    decreases bs, 0
  {
    if bs == [] then iset{} else BranchLang(dotAll, bs[0].pieces) + BranchesLang(dotAll, bs[1..])
  }

  ghost function RegexLang(dotAll: bool, re: Regex): Lang
    decreases re, 0
  {
    BranchesLang(dotAll, re.branches)
  }

  // ---------------------------------------------------------------- the expression as a flat list of tokens

  datatype Token = Or | P(piece: Piece)

  function Tokens(bs: seq<Branch>): seq<Token> {
    if bs == [] then []
    else if |bs| == 1 then BranchTokens(bs[0].pieces)
    else BranchTokens(bs[0].pieces) + [Or] + Tokens(bs[1..])
  }

  function BranchTokens(b: seq<Piece>): (t: seq<Token>)
    ensures |t| == |b|
    ensures forall i :: 0 <= i < |b| ==> t[i] == P(b[i])
  {
    seq(|b|, i requires 0 <= i < |b| => P(b[i]))
  }

  function ShowTokens(ts: seq<Token>): string {
    if ts == [] then ""
    else (match ts[0] { case Or => "|" case P(p) => ShowPiece(p) }) + ShowTokens(ts[1..])
  }

  predicate GoodTokens(ts: seq<Token>) {
    forall i :: 0 <= i < |ts| && ts[i].P? ==> GoodPiece(ts[i].piece)
  }

  /** What the tokens after the last bar match, and what those before it do. */
  ghost function LastLang(dotAll: bool, ts: seq<Token>): Lang {
    if ts == [] || ts[|ts| - 1].Or? then Eps()
    else Cat(LastLang(dotAll, ts[..|ts| - 1]), PieceLang(dotAll, ts[|ts| - 1].piece))
  }

  ghost function EarlierLang(dotAll: bool, ts: seq<Token>): Lang {
    if ts == [] then iset{}
    else
      var front := ts[..|ts| - 1];
      EarlierLang(dotAll, front) + if ts[|ts| - 1].Or? then LastLang(dotAll, front) else iset{}
  }

  lemma {:induction false} ShowTokensAppend(a: seq<Token>, b: seq<Token>)
    ensures ShowTokens(a + b) == ShowTokens(a) + ShowTokens(b)
  {
    if a == [] {
      assert a + b == b;
    } else {
      assert (a + b)[1..] == a[1..] + b;
      ShowTokensAppend(a[1..], b);
    }
  }

  lemma {:induction false} ShowBranchTokens(b: seq<Piece>)
    ensures ShowTokens(BranchTokens(b)) == ShowBranch(b)
  {
    if b != [] {
      assert BranchTokens(b)[1..] == BranchTokens(b[1..]);
      ShowBranchTokens(b[1..]);
    }
  }

  lemma {:induction false} ShowAllTokens(bs: seq<Branch>)
    ensures ShowTokens(Tokens(bs)) == ShowBranches(bs)
  {
    if bs != [] {
      var b := BranchTokens(bs[0].pieces);
      ShowBranchTokens(bs[0].pieces);
      if |bs| > 1 {
        var rest := Tokens(bs[1..]);
        ShowAllTokens(bs[1..]);
        calc {
          ShowTokens(Tokens(bs));
          { assert b + [Or] + rest == b + ([Or] + rest); }
          ShowTokens(b + ([Or] + rest));
          { ShowTokensAppend(b, [Or] + rest); }
          ShowTokens(b) + ShowTokens([Or] + rest);
          { assert ([Or] + rest)[1..] == rest; }
          ShowTokens(b) + ("|" + ShowTokens(rest));
          ShowBranches(bs);
        }
      }
    }
  }

  lemma {:induction false} GoodAllTokens(bs: seq<Branch>)
    requires forall i, j :: 0 <= i < |bs| && 0 <= j < |bs[i].pieces| ==> GoodPiece(bs[i].pieces[j])
    ensures GoodTokens(Tokens(bs))
  {
    if |bs| > 1 {
      forall i, j | 0 <= i < |bs[1..]| && 0 <= j < |bs[1..][i].pieces|
        ensures GoodPiece(bs[1..][i].pieces[j])
      {
        assert bs[1..][i] == bs[i + 1];
      }
      GoodAllTokens(bs[1..]);
    }
  }

  lemma {:induction false} BranchAppended(dotAll: bool, a: seq<Token>, b: seq<Piece>)
    ensures LastLang(dotAll, a + BranchTokens(b)) == Cat(LastLang(dotAll, a), BranchLang(dotAll, b))
    ensures EarlierLang(dotAll, a + BranchTokens(b)) == EarlierLang(dotAll, a)
    decreases |b|
  {
    if b == [] {
      assert a + BranchTokens(b) == a;
      CatEps(LastLang(dotAll, a));
    } else {
      var a' := a + [P(b[0])];
      assert a'[..|a'| - 1] == a;
      assert a + BranchTokens(b) == a' + BranchTokens(b[1..]);
      BranchAppended(dotAll, a', b[1..]);
      CatAssoc(LastLang(dotAll, a), PieceLang(dotAll, b[0]), BranchLang(dotAll, b[1..]));
    }
  }

  lemma {:induction false} OrAppended(dotAll: bool, a: seq<Token>)
    ensures LastLang(dotAll, a + [Or]) == Eps()
    ensures EarlierLang(dotAll, a + [Or]) == EarlierLang(dotAll, a) + LastLang(dotAll, a)
  {
    assert (a + [Or])[..|a + [Or]| - 1] == a;
  }

  lemma Regroup<T>(a: seq<T>, b: seq<T>, c: seq<T>, d: seq<T>)
    ensures a + (b + c + d) == a + b + c + d
  {
  }

  ghost function AllLang(dotAll: bool, ts: seq<Token>): Lang {
    EarlierLang(dotAll, ts) + LastLang(dotAll, ts)
  }

  lemma {:induction false} BranchesAppended(dotAll: bool, a: seq<Token>, bs: seq<Branch>)
    requires bs != []
    ensures AllLang(dotAll, a + Tokens(bs))
            == EarlierLang(dotAll, a) + (Cat(LastLang(dotAll, a), BranchLang(dotAll,
                bs[0].pieces)) + BranchesLang(dotAll, bs[1..]))
    decreases |bs|
  {
    var b, rest := BranchTokens(bs[0].pieces), bs[1..];
    var e, l := EarlierLang(dotAll, a), Cat(LastLang(dotAll, a), BranchLang(dotAll, bs[0].pieces));
    BranchAppended(dotAll, a, bs[0].pieces);
    if |bs| == 1 {
      assert rest == [];
      UnionStep(e, l, l, l, l);
    } else {
      var b1, r1 := BranchLang(dotAll, rest[0].pieces), BranchesLang(dotAll, rest[1..]);
      Regroup(a, b, [Or], Tokens(rest));
      OrAppended(dotAll, a + b);
      BranchesAppended(dotAll, a + b + [Or], rest);
      CatEps(b1);
      UnionStep(e, l, Cat(Eps(), b1), b1, r1);
    }
  }

  lemma UnionStep(e: Lang, l: Lang, x: Lang, b: Lang, r: Lang)
    requires x == b
    ensures (e + l) + (x + r) == e + (l + (b + r))
    ensures l + iset{} == l
  {
  }

  lemma {:induction false} TokensDenoteRegex(dotAll: bool, re: Regex)
    requires re.branches != []
    ensures AllLang(dotAll, Tokens(re.branches)) == RegexLang(dotAll, re)
  {
    var bs := re.branches;
    var none: seq<Token> := [];
    var b0 := BranchLang(dotAll, bs[0].pieces);
    calc {
      AllLang(dotAll, Tokens(bs));
      { assert none + Tokens(bs) == Tokens(bs); }
      AllLang(dotAll, none + Tokens(bs));
      { BranchesAppended(dotAll, none, bs); }
      iset{} + (Cat(Eps(), b0) + BranchesLang(dotAll, bs[1..]));
      { CatEps(b0); UnionAssoc(b0 + BranchesLang(dotAll, bs[1..]), iset{}, iset{}); }
      b0 + BranchesLang(dotAll, bs[1..]);
      RegexLang(dotAll, re);
    }
  }
}
