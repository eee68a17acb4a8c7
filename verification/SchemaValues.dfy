/** Which JSON values satisfy a schema, and that the texts a schema describes are exactly theirs. */
module SchemaValues {
  import opened Gbnf
  import opened JsonTexts
  import opened JsonValues
  import opened SchemaSpec
  import BuiltinMeaning
  import BuiltinTexts
  import Decimal
  import IntegerBounds
  import LeastSolution
  import NotStrings
  import ObjectKeys
  import ObjectRule
  import Regex
  import Repetition

  // ---------------------------------------------------------------- the values of a schema

  /** The values that references stand for. */
  type Meanings = map<string, iset<Json>>

  /** A value without parts, and its text. */
  predicate IsScalar(j: Json, v: string) {
    match j
    case JNull => v == "null"
    case JBoolean(b) => v == if b then "true" else "false"
    case JNumber(n) => v == n
    case JString(t) => v == t
    case _ => false
  }

  /** A string whose text between the quotes is one of these. */
  ghost predicate InQuotes(j: Json, l: Lang) {
    j.JString? && exists x :: x in l && j.text == "\"" + x + "\""
  }

  /** A value of the type or format the built-in rule is named after. */
  ghost predicate OfType(p: string, j: Json) {
    match p
    case "boolean" => j.JBoolean?
    case "null" => j.JNull?
    case "integer" => j.JNumber? && IsInteger(j.number)
    case "number" => j.JNumber?
    case "string" => j.JString?
    case "value" => true
    case "array" => j.JArray?
    case "object" => j.JObject?
    case "uuid" => InQuotes(j, Uuids())
    case "date-string" => InQuotes(j, DateTexts())
    case "time-string" => InQuotes(j, TimeTexts())
    case "date-time-string" => InQuotes(j, DateTimeTexts())
    case _ => false
  }

  predicate Enough(n: nat, lo: nat, hi: int) { lo <= n && (hi != 2_147_483_647 ==> n <= hi) }

  /** The value satisfies the schema: arrays of as many items as they should have, objects with all required members and
      some of the others, in the order of the schema, additional ones at the end. */
  ghost predicate Describes(refs: Meanings, s: Schema, j: Json)
    decreases s, 1
  {
    match s
    case SRef(r) => r in refs && j in refs[r]
    case SUnion(alts) => exists i :: 0 <= i < |alts| && Describes(refs, alts[i], j)
    case SConst(v) => IsScalar(j, v)
    case SEnum(vs) => exists i :: 0 <= i < |vs| && IsScalar(j, vs[i])
    case SObject(ps, required, add) =>
      && j.JObject?
      && exists sel ::
        && ObjectKeys.Selection(RequiredKeys(ps, required, false), !add.NoAdditional?, sel)
        && EntriesFit(refs, ps, AdditionalMembers(refs, add), RequiredKeys(ps, required, true) + sel, j.members)
    case STuple(items) =>
      j.JArray? && |j.items| == |items| && forall i :: 0 <= i < |items| ==> Describes(refs, items[i], j.items[i])
    case SArray(item, lo, hi) =>
      j.JArray? && Enough(|j.items|, lo, hi) && forall i :: 0 <= i < |j.items| ==> Describes(refs, item, j.items[i])
    case SPattern(re) => InQuotes(j, Regex.RegexLang(false, re))
    case SLength(lo, hi) => exists n: nat :: Enough(n, lo, hi) && InQuotes(j, Pow(Chars(), n))
    case SInteger(lo, hi) => j.JNumber? && j.number in IntegerBounds.Intended(lo, hi)
    case SFormat(p) => OfType(p, j)
    case SType(_, p) => OfType(p, j)
  }

  ghost predicate EntriesFit(refs: Meanings, ps: seq<Property>, additional: iset<Member>, ks: seq<string>,
      ms: seq<Member>)
    decreases ps, 1
  {
    |ms| == |ks| && forall i :: 0 <= i < |ks| ==> EntryFits(refs, ps, additional, ks[i], ms[i])
  }

  /** The member goes under the key `k`, or is an additional one. */
  ghost predicate EntryFits(refs: Meanings, ps: seq<Property>, additional: iset<Member>, k: string, m: Member)
    decreases ps, 0
  {
    if ps == [] then k == "*" && m in additional
    else if ps[0].key == k then m.key == "\"" + k + "\"" && Describes(refs, ps[0].schema, m.value)
    else EntryFits(refs, ps[1..], additional, k, m)
  }

  ghost function AdditionalMembers(refs: Meanings, add: Additional): iset<Member>
    decreases add, 0
  {
    match add
    case NoAdditional => iset{}
    case AnyAdditional => iset m: Member | IsString(m.key)
    case AdditionalOf(s) => iset m: Member | IsString(m.key) && Describes(refs, s, m.value)
  }

  ghost function Values(refs: Meanings, s: Schema): iset<Json> { iset j | Describes(refs, s, j) }

  // ---------------------------------------------------------------- their texts

  ghost predicate InTexts(js: iset<Json>, w: string) { exists j :: j in js && w in TextsOf(j) }

  ghost function Texts(js: iset<Json>): Lang { iset w | InTexts(js, w) }

  ghost predicate InEntryTexts(ms: iset<Member>, w: string) { exists m :: m in ms && w in MemberTexts(m) }

  ghost function EntryTexts(ms: iset<Member>): Lang { iset w | InEntryTexts(ms, w) }

  // ---------------------------------------------------------------- lists

  lemma ListedSmall(ls: seq<Lang>)
    requires |ls| <= 1
    ensures Listed(ls) == if ls == [] then Eps() else ls[0]
  {
  }

  lemma {:induction false} ListedOut(ls: seq<Lang>, w: string) returns (us: seq<string>)
    requires w in Listed(ls)
    ensures |us| == |ls| && (forall i :: 0 <= i < |us| ==> us[i] in ls[i]) && w in Listed(Single(us))
    decreases |ls|
  {
    hide Listed, Blank, Cat;
    if ls == [] {
      us := [];
      assert Single(us) == ls;
    } else if |ls| == 1 {
      us := [w];
      ListedSmall(ls);
      OneListed(w);
    } else {
      ListedUnfold(ls);
      var u, b, v := FirstOut(ls[0], Listed(ls[1..]), w);
      var rest := ListedOut(ls[1..], v);
      us := [u] + rest;
      ListedFirst(u, b, v, rest);
    }
  }

  ghost function EachTexts(ds: seq<iset<Json>>): seq<Lang> { seq(|ds|, i requires 0 <= i < |ds| => Texts(ds[i])) }

  ghost predicate EachIn(js: seq<Json>, ds: seq<iset<Json>>) {
    |js| == |ds| && forall i :: 0 <= i < |js| ==> js[i] in ds[i]
  }

  lemma {:induction false} PickValues(us: seq<string>, ds: seq<iset<Json>>) returns (js: seq<Json>)
    requires |us| == |ds| && forall i :: 0 <= i < |us| ==> InTexts(ds[i], us[i])
    ensures EachIn(js, ds) && forall i :: 0 <= i < |us| ==> us[i] in TextsOf(js[i])
    decreases |us|
  {
    hide TextsOf;
    if us == [] {
      js := [];
    } else {
      var j :| j in ds[0] && us[0] in TextsOf(j);
      var rest := PickValues(us[1..], ds[1..]);
      js := [j] + rest;
    }
  }

  /** A list of texts is the list of the texts of some values. */
  lemma ListedValues(ds: seq<iset<Json>>, w: string) returns (js: seq<Json>)
    requires w in Listed(EachTexts(ds))
    ensures EachIn(js, ds) && w in Listed(AllTexts(js))
  {
    hide Listed, TextsOf;
    var us := ListedOut(EachTexts(ds), w);
    forall i | 0 <= i < |us| ensures InTexts(ds[i], us[i]) { assert us[i] in EachTexts(ds)[i]; }
    js := PickValues(us, ds);
    ListedTexts(us, AllTexts(js), w);
  }

  lemma ListedOfValues(ds: seq<iset<Json>>, js: seq<Json>)
    requires EachIn(js, ds)
    ensures Listed(AllTexts(js)) <= Listed(EachTexts(ds))
  {
    hide Listed, TextsOf;
    forall i | 0 <= i < |js| ensures AllTexts(js)[i] <= EachTexts(ds)[i] {
      forall w | w in TextsOf(js[i]) ensures InTexts(ds[i], w) {}
    }
    ListedMono(AllTexts(js), EachTexts(ds));
  }

  /** The text of an array, the list between its brackets being given. */
  lemma ArrayWord(js: seq<Json>, v: string, w: string)
    requires v in Listed(AllTexts(js)) && w in Bracketed("[", iset{v}, "]")
    ensures w in TextsOf(JArray(js))
  {
    hide Bracketed, Listed;
    BracketedMono("[", iset{v}, Listed(AllTexts(js)), "]");
  }

  /** Arrays whose items are, place by place, of one of these. */
  ghost predicate ArrayOf(family: iset<seq<iset<Json>>>, j: Json) {
    j.JArray? && exists ds :: ds in family && EachIn(j.items, ds)
  }

  ghost predicate InFamily(family: iset<seq<iset<Json>>>, v: string) {
    exists ds :: ds in family && v in Listed(EachTexts(ds))
  }

  lemma ArrayFamily(family: iset<seq<iset<Json>>>, l: Lang)
    requires forall v :: v in l <==> InFamily(family, v)
    ensures Bracketed("[", l, "]") == Texts(iset j | ArrayOf(family, j))
  {
    hide Bracketed, Listed;
    forall w | w in Bracketed("[", l, "]") ensures InTexts((iset j | ArrayOf(family, j)), w) {
      var v := BracketedOut("[", l, "]", w);
      var ds :| ds in family && v in Listed(EachTexts(ds));
      var js := ListedValues(ds, v);
      ArrayWord(js, v, w);
      assert ArrayOf(family, JArray(js));
    }
    forall w, j | ArrayOf(family, j) && w in TextsOf(j) ensures w in Bracketed("[", l, "]") {
      var ds :| ds in family && EachIn(j.items, ds);
      ListedOfValues(ds, j.items);
      forall v | v in Listed(AllTexts(j.items)) ensures v in l { assert InFamily(family, v); }
      BracketedMono("[", Listed(AllTexts(j.items)), l, "]");
    }
  }

  // ---------------------------------------------------------------- members

  ghost function EachEntryTexts(ds: seq<iset<Member>>): seq<Lang> {
    seq(|ds|, i requires 0 <= i < |ds| => EntryTexts(ds[i]))
  }

  ghost predicate EachMemberIn(ms: seq<Member>, ds: seq<iset<Member>>) {
    |ms| == |ds| && forall i :: 0 <= i < |ms| ==> ms[i] in ds[i]
  }

  lemma {:induction false} PickMembers(us: seq<string>, ds: seq<iset<Member>>) returns (ms: seq<Member>)
    requires |us| == |ds| && forall i :: 0 <= i < |us| ==> InEntryTexts(ds[i], us[i])
    ensures EachMemberIn(ms, ds) && forall i :: 0 <= i < |us| ==> us[i] in MemberTexts(ms[i])
    decreases |us|
  {
    hide MemberTexts;
    if us == [] {
      ms := [];
    } else {
      var m :| m in ds[0] && us[0] in MemberTexts(m);
      var rest := PickMembers(us[1..], ds[1..]);
      ms := [m] + rest;
    }
  }

  lemma ListedMembers(ds: seq<iset<Member>>, w: string) returns (ms: seq<Member>)
    requires w in Listed(EachEntryTexts(ds))
    ensures EachMemberIn(ms, ds) && w in Listed(AllMemberTexts(ms))
  {
    hide Listed, MemberTexts;
    var us := ListedOut(EachEntryTexts(ds), w);
    forall i | 0 <= i < |us| ensures InEntryTexts(ds[i], us[i]) { assert us[i] in EachEntryTexts(ds)[i]; }
    ms := PickMembers(us, ds);
    ListedTexts(us, AllMemberTexts(ms), w);
  }

  lemma ListedOfMembers(ds: seq<iset<Member>>, ms: seq<Member>)
    requires EachMemberIn(ms, ds)
    ensures Listed(AllMemberTexts(ms)) <= Listed(EachEntryTexts(ds))
  {
    hide Listed, MemberTexts;
    forall i | 0 <= i < |ms| ensures AllMemberTexts(ms)[i] <= EachEntryTexts(ds)[i] {
      forall w | w in MemberTexts(ms[i]) ensures InEntryTexts(ds[i], w) {}
    }
    ListedMono(AllMemberTexts(ms), EachEntryTexts(ds));
  }

  lemma ObjectWord(ms: seq<Member>, v: string, w: string)
    requires v in Listed(AllMemberTexts(ms)) && w in Bracketed("{", iset{v}, "}")
    ensures w in TextsOf(JObject(ms))
  {
    hide Bracketed, Listed;
    BracketedMono("{", iset{v}, Listed(AllMemberTexts(ms)), "}");
  }

  /** Objects whose members are, place by place, of one of these. */
  ghost predicate ObjectOf(family: iset<seq<iset<Member>>>, j: Json) {
    j.JObject? && exists ds :: ds in family && EachMemberIn(j.members, ds)
  }

  ghost predicate InEntryFamily(family: iset<seq<iset<Member>>>, v: string) {
    exists ds :: ds in family && v in Listed(EachEntryTexts(ds))
  }

  lemma ObjectFamily(family: iset<seq<iset<Member>>>, l: Lang)
    requires forall v :: v in l <==> InEntryFamily(family, v)
    ensures Bracketed("{", l, "}") == Texts(iset j | ObjectOf(family, j))
  {
    hide Bracketed, Listed;
    forall w | w in Bracketed("{", l, "}") ensures InTexts((iset j | ObjectOf(family, j)), w) {
      var v := BracketedOut("{", l, "}", w);
      var ds :| ds in family && v in Listed(EachEntryTexts(ds));
      var ms := ListedMembers(ds, v);
      ObjectWord(ms, v, w);
      assert ObjectOf(family, JObject(ms));
    }
    forall w, j | ObjectOf(family, j) && w in TextsOf(j) ensures w in Bracketed("{", l, "}") {
      var ds :| ds in family && EachMemberIn(j.members, ds);
      ListedOfMembers(ds, j.members);
      forall v | v in Listed(AllMemberTexts(j.members)) ensures v in l { assert InEntryFamily(family, v); }
      BracketedMono("{", Listed(AllMemberTexts(j.members)), l, "}");
    }
  }

  // ---------------------------------------------------------------- values without parts

  /** What is dumped for a value without parts. */
  ghost predicate Scalar(v: string) { v == "null" || v == "true" || v == "false" || v in Numbers() || IsString(v) }

  lemma ScalarTexts(j: Json, v: string)
    requires IsScalar(j, v)
    ensures TextsOf(j) <= Spaced(v)
  {
    hide IsString, Numbers, Blank;
  }

  lemma ScalarOf(v: string) returns (j: Json)
    requires Scalar(v)
    ensures IsScalar(j, v) && TextsOf(j) == Spaced(v)
  {
    hide IsString, Numbers, Blank;
    j := if v == "null" then JNull else if v == "true" then JBoolean(true) else if v == "false" then JBoolean(false)
         else if v in Numbers() then JNumber(v) else JString(v);
  }

  ghost predicate OneScalar(vs: iset<string>, j: Json) { exists v :: v in vs && IsScalar(j, v) }

  /** Any of these, and white space. */
  lemma ScalarsTexts(vs: iset<string>)
    requires forall v :: v in vs ==> Scalar(v)
    ensures Cat(vs, Blank()) == Texts(iset j | OneScalar(vs, j))
  {
    hide Scalar, IsScalar, Blank, TextsOf;
    forall w | w in Cat(vs, Blank()) ensures InTexts((iset j | OneScalar(vs, j)), w) {
      var i :| SplitAt(vs, Blank(), w, i);
      var j := ScalarOf(w[..i]);
      assert SplitAt(iset{w[..i]}, Blank(), w, i);
      assert OneScalar(vs, j);
    }
    forall w, j | OneScalar(vs, j) && w in TextsOf(j) ensures w in Cat(vs, Blank()) {
      var v :| v in vs && IsScalar(j, v);
      ScalarTexts(j, v);
      var i :| SplitAt(iset{v}, Blank(), w, i);
      assert SplitAt(vs, Blank(), w, i);
    }
  }

  /** The same values have the same texts. */
  lemma SameTexts(a: iset<Json>, b: iset<Json>)
    requires forall j :: j in a <==> j in b
    ensures Texts(a) == Texts(b)
  {
    assert a == b;
  }

  lemma IntegersAreNumbers(n: string)
    requires IsInteger(n)
    ensures n in Numbers()
  {
    hide IsInteger, IsFraction, IsExponent;
    CatIntro(Eps() + Fractions(), Eps() + Exponents(), "", "");
    CatIntro(Integers(), Cat(Eps() + Fractions(), Eps() + Exponents()), n, "");
    assert "" + "" == "" && n + "" == n;
  }

  /** Numbers of some kind. */
  lemma NumbersOf(vs: iset<string>)
    requires forall v :: v in vs ==> v in Numbers()
    ensures Cat(vs, Blank()) == Texts(iset j: Json | j.JNumber? && j.number in vs)
  {
    hide Numbers, Blank, TextsOf;
    ScalarsTexts(vs);
    forall w | w in Cat(vs, Blank()) ensures InTexts((iset j: Json | j.JNumber? && j.number in vs), w) {
      var i :| SplitAt(vs, Blank(), w, i);
      NumberWord(w[..i]);
      assert SplitAt(iset{w[..i]}, Blank(), w, i);
      assert w in TextsOf(JNumber(w[..i]));
    }
    forall w, j: Json | j.JNumber? && j.number in vs && w in TextsOf(j) ensures w in Cat(vs, Blank()) {
      assert OneScalar(vs, j) by { assert IsScalar(j, j.number); }
      assert InTexts((iset j | OneScalar(vs, j)), w);
    }
  }

  lemma NumberWord(n: string)
    requires n in Numbers()
    ensures TextsOf(JNumber(n)) == Spaced(n)
  {
    hide Numbers;
  }

  // ---------------------------------------------------------------- strings

  lemma StringWord(x: string)
    requires InString(x)
    ensures IsString("\"" + x + "\"") && TextsOf(JString("\"" + x + "\"")) == Spaced("\"" + x + "\"")
  {
    hide InString;
    var t := "\"" + x + "\"";
    assert t[1..|t| - 1] == x;
  }

  lemma QuotedWord(l: Lang, x: string, b: string)
    requires x in l && b in Blank()
    ensures "\"" + x + "\"" + b in JsonTexts.Quoted(l)
  {
    hide Blank, Cat;
    CatIntro(iset{"\""}, Blank(), "\"", b);
    CatIntro(l, Cat(iset{"\""}, Blank()), x, "\"" + b);
    CatIntro(iset{"\""}, Cat(l, Cat(iset{"\""}, Blank())), "\"", x + ("\"" + b));
    assert "\"" + x + "\"" + b == "\"" + (x + ("\"" + b));
  }

  lemma UnquotedWord(l: Lang, w: string) returns (x: string, b: string)
    requires w in JsonTexts.Quoted(l)
    ensures x in l && b in Blank() && w == "\"" + x + "\"" + b
  {
    hide Blank;
    var end := Cat(iset{"\""}, Blank());
    InLitCat("\"", Cat(l, end), w);
    var i :| SplitAt(l, end, w[1..], i);
    InLitCat("\"", Blank(), w[1..][i..]);
    x, b := w[1..][..i], w[1..][i..][1..];
  }

  /** Strings whose inside is one of these. */
  lemma QuotedTexts(l: Lang)
    requires forall x :: x in l ==> InString(x)
    ensures JsonTexts.Quoted(l) == Texts(iset j | InQuotes(j, l))
  {
    hide Blank, TextsOf, InString, IsString, JsonTexts.Quoted;
    forall w | w in JsonTexts.Quoted(l) ensures InTexts((iset j | InQuotes(j, l)), w) {
      var x, b := UnquotedWord(l, w);
      StringWord(x);
      CatIntro(iset{"\"" + x + "\""}, Blank(), "\"" + x + "\"", b);
      assert InQuotes(JString("\"" + x + "\""), l);
    }
    forall w, j | InQuotes(j, l) && w in TextsOf(j) ensures w in JsonTexts.Quoted(l) {
      var x :| x in l && j.text == "\"" + x + "\"";
      StringWord(x);
      InLitCat(j.text, Blank(), w);
      QuotedWord(l, x, w[|j.text|..]);
      assert w == j.text + w[|j.text|..];
    }
  }

  predicate PlainWord(x: string) { forall i :: 0 <= i < |x| ==> PlainChar(x[i]) }

  lemma {:induction false} PlainInString(x: string)
    requires PlainWord(x)
    ensures InString(x)
    decreases |x|
  {
    if x != "" { PlainInString(x[1..]); }
  }

  lemma PlainPieces(x: string, i: nat)
    requires i <= |x| && PlainWord(x[..i]) && PlainWord(x[i..])
    ensures PlainWord(x)
  {
    forall k | 0 <= k < |x| ensures PlainChar(x[k]) {
      assert if k < i then x[k] == x[..i][k] else true;
      assert k >= i ==> x[k] == x[i..][k - i];
    }
  }

  lemma DigitsArePlain(x: string)
    ensures AllDigits(x) || AllHex(x) ==> PlainWord(x)
  {
  }

  lemma PiecePlain(x: string, a: nat, b: nat)
    requires a <= b <= |x|
    ensures AllDigits(x[a..b]) || AllHex(x[a..b]) ==> PlainWord(x[a..b])
  {
    DigitsArePlain(x[a..b]);
  }

  /** A mark between pieces. */
  lemma MarkPlain(x: string, i: nat)
    requires i < |x| && PlainWord(x[i + 1..]) && x[i] in "-:.TZ+"
    ensures PlainWord(x[i..])
  {
    assert x[i..][1..] == x[i + 1..] && x[i..][..1] == [x[i]];
    PlainPieces(x[i..], 1);
  }

  lemma GoesOn(x: string, a: nat, b: nat)
    requires a <= b <= |x| && PlainWord(x[a..b]) && PlainWord(x[b..])
    ensures PlainWord(x[a..])
  {
    assert x[a..][..b - a] == x[a..b] && x[a..][b - a..] == x[b..];
    PlainPieces(x[a..], b - a);
  }

  lemma UuidIsPlain(x: string)
    requires IsUuid(x)
    ensures PlainWord(x)
  {
    hide PlainWord, AllHex;
    PiecePlain(x, 24, 36);
    PiecePlain(x, 19, 23);
    PiecePlain(x, 14, 18);
    PiecePlain(x, 9, 13);
    PiecePlain(x, 0, 8);
    assert x[24..36] == x[24..] && x[0..8] == x[..8] && x[0..] == x;
    MarkPlain(x, 23);
    GoesOn(x, 19, 23);
    MarkPlain(x, 18);
    GoesOn(x, 14, 18);
    MarkPlain(x, 13);
    GoesOn(x, 9, 13);
    MarkPlain(x, 8);
    GoesOn(x, 0, 8);
  }

  lemma DateIsPlain(x: string)
    requires IsDate(x)
    ensures PlainWord(x)
  {
    hide PlainWord, AllDigits;
    PiecePlain(x, 8, 10);
    PiecePlain(x, 5, 7);
    PiecePlain(x, 0, 4);
    assert x[8..10] == x[8..] && x[0..4] == x[..4] && x[0..] == x;
    MarkPlain(x, 7);
    GoesOn(x, 5, 7);
    MarkPlain(x, 4);
    GoesOn(x, 0, 4);
  }

  lemma ClockIsPlain(x: string)
    requires IsClock(x)
    ensures PlainWord(x)
  {
    hide PlainWord, AllDigits;
    PiecePlain(x, 3, 5);
    PiecePlain(x, 0, 2);
    assert x[3..5] == x[3..] && x[0..2] == x[..2] && x[0..] == x;
    MarkPlain(x, 2);
    GoesOn(x, 0, 2);
  }

  lemma ZoneIsPlain(x: string)
    requires IsZone(x)
    ensures PlainWord(x)
  {
    if x != "Z" {
      ClockIsPlain(x[1..]);
      MarkPlain(x, 0);
      assert x[0..] == x;
    }
  }

  lemma TimeIsPlain(x: string)
    requires IsTime(x)
    ensures PlainWord(x)
  {
    hide PlainWord, AllDigits, IsZone, IsClock;
    ClockIsPlain(x[..5]);
    PiecePlain(x, 6, 8);
    assert x[0..5] == x[..5] && x[0..] == x;
    if IsZone(x[8..]) {
      ZoneIsPlain(x[8..]);
    } else {
      ZoneIsPlain(x[12..]);
      PiecePlain(x, 9, 12);
      GoesOn(x, 9, 12);
      MarkPlain(x, 8);
    }
    GoesOn(x, 6, 8);
    MarkPlain(x, 5);
    GoesOn(x, 0, 5);
  }

  lemma DateTimeIsPlain(x: string)
    requires IsDateTime(x)
    ensures PlainWord(x)
  {
    hide PlainWord, IsDate, IsTime;
    DateIsPlain(x[..10]);
    TimeIsPlain(x[11..]);
    MarkPlain(x, 10);
    assert x[0..10] == x[..10] && x[0..] == x;
    GoesOn(x, 0, 10);
  }

  lemma FormatTexts()
    ensures JsonTexts.Quoted(Uuids()) == Texts(iset j | InQuotes(j, Uuids()))
    ensures JsonTexts.Quoted(DateTexts()) == Texts(iset j | InQuotes(j, DateTexts()))
    ensures JsonTexts.Quoted(TimeTexts()) == Texts(iset j | InQuotes(j, TimeTexts()))
    ensures JsonTexts.Quoted(DateTimeTexts()) == Texts(iset j | InQuotes(j, DateTimeTexts()))
  {
    hide JsonTexts.Quoted, InQuotes, Texts, IsUuid, IsDate, IsTime, IsDateTime, PlainWord, InString;
    forall x | x in Uuids() ensures InString(x) {
      UuidIsPlain(x);
      PlainInString(x);
    }
    forall x | x in DateTexts() ensures InString(x) {
      DateIsPlain(x);
      PlainInString(x);
    }
    forall x | x in TimeTexts() ensures InString(x) {
      TimeIsPlain(x);
      PlainInString(x);
    }
    forall x | x in DateTimeTexts() ensures InString(x) {
      DateTimeIsPlain(x);
      PlainInString(x);
    }
    QuotedTexts(Uuids());
    QuotedTexts(DateTexts());
    QuotedTexts(TimeTexts());
    QuotedTexts(DateTimeTexts());
  }

  // ---------------------------------------------------------------- types and formats

  const VALUE_RULES: seq<string> := ["boolean", "null", "integer", "number", "string", "value", "array", "object"]
  const FORMAT_RULES: seq<string> := ["uuid", "date-string", "time-string", "date-time-string"]

  lemma LiteralsTexts()
    ensures BooleanTexts() == Texts(iset j: Json | j.JBoolean?) && NullTexts() == Texts(iset j: Json | j.JNull?)
  {
    hide Blank;
    assert Scalar("true") && Scalar("false") && Scalar("null");
    ScalarsTexts(iset{"true", "false"});
    BooleanOrNull();
    ScalarsTexts(iset{"null"});
  }

  lemma BooleanOrNull()
    ensures Texts(iset j | OneScalar(iset{"true", "false"}, j)) == Texts(iset j: Json | j.JBoolean?)
    ensures Texts(iset j | OneScalar(iset{"null"}, j)) == Texts(iset j: Json | j.JNull?)
  {
    hide TextsOf, IsScalar;
    forall j: Json | j.JBoolean? ensures OneScalar(iset{"true", "false"}, j) { BooleanScalar(j.value); }
    assert OneScalar(iset{"null"}, JNull) by { BooleanScalar(true); }
    forall w, j | OneScalar(iset{"true", "false"}, j) && w in TextsOf(j)
      ensures InTexts((iset j: Json | j.JBoolean?), w)
    {
      var v :| v in iset{"true", "false"} && IsScalar(j, v);
      BooleanScalar(v == "true");
      ScalarTexts(j, v);
      assert w in TextsOf(JBoolean(v == "true"));
    }
    forall w, j | OneScalar(iset{"null"}, j) && w in TextsOf(j) ensures InTexts((iset j: Json | j.JNull?), w) {
      BooleanScalar(true);
      ScalarTexts(j, "null");
      assert w in TextsOf(JNull);
    }
  }

  lemma BooleanScalar(b: bool)
    ensures IsScalar(JBoolean(b), if b then "true" else "false") && IsScalar(JNull, "null")
    ensures TextsOf(JBoolean(b)) == Spaced(if b then "true" else "false") && TextsOf(JNull) == Spaced("null")
  {
  }

  lemma NumbersTexts()
    ensures IntegerTexts() == Texts(iset j: Json | j.JNumber? && IsInteger(j.number))
    ensures NumberTexts() == Texts(iset j: Json | j.JNumber?)
  {
    hide Numbers, IsInteger, Blank, TextsOf;
    forall n | n in Integers() ensures n in Numbers() { IntegersAreNumbers(n); }
    NumbersOf(Integers());
    SameTexts(iset j: Json | j.JNumber? && j.number in Integers(), iset j: Json | j.JNumber? && IsInteger(j.number));
    NumbersOf(Numbers());
    forall w, j: Json | j.JNumber? && w in TextsOf(j)
      ensures InTexts((iset j: Json | j.JNumber? && j.number in Numbers()), w)
    {
      OnlyNumbers(j, w);
    }
  }

  lemma OnlyNumbers(j: Json, w: string)
    requires j.JNumber? && w in TextsOf(j)
    ensures j.number in Numbers()
  {
  }

  lemma StringsTexts()
    ensures StringTexts() == Texts(iset j: Json | j.JString?)
  {
    hide IsString, Blank;
    forall w | w in StringTexts() ensures InTexts((iset j: Json | j.JString?), w) {
      var i :| SplitAt(Strings(), Blank(), w, i);
      assert SplitAt(iset{w[..i]}, Blank(), w, i);
      assert w in TextsOf(JString(w[..i]));
    }
    forall w, j: Json | j.JString? && w in TextsOf(j) ensures w in StringTexts() {
      LeastSolution.CatMono(iset{j.text}, Strings(), Blank(), Blank());
    }
  }

  lemma WholeTexts()
    ensures ValueTexts() == Texts(iset j | OfType("value", j)) && ArrayTexts() == Texts(iset j: Json | j.JArray?)
    ensures ObjectTexts() == Texts(iset j: Json | j.JObject?)
  {
    hide TextsOf, OfType;
    forall j ensures OfType("value", j) { OtherTypes(j); }
  }

  lemma LiteralTypes(j: Json)
    ensures OfType("boolean", j) <==> j.JBoolean?
    ensures OfType("null", j) <==> j.JNull?
    ensures OfType("integer", j) <==> j.JNumber? && IsInteger(j.number)
    ensures OfType("number", j) <==> j.JNumber?
  {
    hide IsInteger, InQuotes;
  }

  lemma OtherTypes(j: Json)
    ensures OfType("string", j) <==> j.JString?
    ensures OfType("value", j)
    ensures OfType("array", j) <==> j.JArray?
    ensures OfType("object", j) <==> j.JObject?
  {
    hide IsInteger, InQuotes;
  }

  lemma FormatTypes(j: Json)
    ensures OfType("uuid", j) <==> InQuotes(j, Uuids())
    ensures OfType("date-string", j) <==> InQuotes(j, DateTexts())
    ensures OfType("time-string", j) <==> InQuotes(j, TimeTexts())
    ensures OfType("date-time-string", j) <==> InQuotes(j, DateTimeTexts())
  {
    hide IsInteger, InQuotes;
  }

  ghost predicate TypeRight(p: string) { TextsOfRule(p) == Texts(iset j | OfType(p, j)) }

  lemma TypeRightIf(p: string, js: iset<Json>)
    requires TextsOfRule(p) == Texts(js) && forall j :: j in js <==> OfType(p, j)
    ensures TypeRight(p)
  {
    hide TextsOfRule, OfType;
    assert js == iset j | OfType(p, j);
  }

  lemma LiteralTypesRight()
    ensures TypeRight("boolean") && TypeRight("null") && TypeRight("integer") && TypeRight("number")
  {
    hide TextsOfRule, OfType, Texts, TypeRight;
    BuiltinMeaning.LiteralsAndDigitsMeant();
    BuiltinMeaning.NumbersAndStringsMeant();
    forall j { LiteralTypes(j); }
    LiteralsTexts();
    NumbersTexts();
    TypeRightIf("boolean", iset j: Json | j.JBoolean?);
    TypeRightIf("null", iset j: Json | j.JNull?);
    TypeRightIf("integer", iset j: Json | j.JNumber? && IsInteger(j.number));
    TypeRightIf("number", iset j: Json | j.JNumber?);
  }

  lemma OtherTypesRight()
    ensures TypeRight("string") && TypeRight("value") && TypeRight("array") && TypeRight("object")
  {
    hide TextsOfRule, OfType, Texts, TypeRight;
    BuiltinMeaning.NumbersAndStringsMeant();
    BuiltinMeaning.ValuesMeant();
    forall j { OtherTypes(j); }
    StringsTexts();
    WholeTexts();
    TypeRightIf("string", iset j: Json | j.JString?);
    TypeRightIf("value", iset j | OfType("value", j));
    TypeRightIf("array", iset j: Json | j.JArray?);
    TypeRightIf("object", iset j: Json | j.JObject?);
  }

  lemma FormatTypesRight()
    ensures TypeRight("uuid") && TypeRight("date-string") && TypeRight("time-string") && TypeRight("date-time-string")
  {
    hide TextsOfRule, OfType, Texts, TypeRight, InQuotes, JsonTexts.Quoted, Uuids, DateTexts, TimeTexts, DateTimeTexts;
    BuiltinMeaning.NumbersAndStringsMeant();
    BuiltinMeaning.QuotedDatesMeant();
    BuiltinMeaning.QuotedDateTimesMeant();
    forall j { FormatTypes(j); }
    FormatTexts();
    TypeRightIf("uuid", iset j | InQuotes(j, Uuids()));
    TypeRightIf("date-string", iset j | InQuotes(j, DateTexts()));
    TypeRightIf("time-string", iset j | InQuotes(j, TimeTexts()));
    TypeRightIf("date-time-string", iset j | InQuotes(j, DateTimeTexts()));
  }

  /** What a built-in rule lets through are the texts of the values of its type. */
  lemma TypeTexts(p: string)
    requires p in VALUE_RULES || p in FORMAT_RULES
    ensures TextsOfRule(p) == Texts(iset j | OfType(p, j))
  {
    hide TextsOfRule, OfType, Texts;
    assert TypeRight(p) by {
      hide TypeRight;
      LiteralTypesRight();
      OtherTypesRight();
      FormatTypesRight();
    }
  }

  // ---------------------------------------------------------------- entries

  /** A member whose key is one of these and whose value is one of those. */
  ghost predicate MemberOf(q: Lang, js: iset<Json>, m: Member) { m.key in q && m.value in js }

  lemma MembersTexts(q: Lang, js: iset<Json>)
    requires forall k :: k in q ==> IsString(k)
    ensures Cat(Cat(q, Blank()), Cat(iset{":"}, Cat(Blank(), Texts(js)))) == EntryTexts(iset m | MemberOf(q, js, m))
  {
    hide IsString, Blank, TextsOf;
    var l := Cat(Cat(q, Blank()), Cat(iset{":"}, Cat(Blank(), Texts(js))));
    forall w | w in l ensures InEntryTexts((iset m | MemberOf(q, js, m)), w) {
      var k, b, u, c, x := EntryOut(q, Texts(js), w);
      var j :| j in js && x in TextsOf(j);
      MemberIn(k, b, u, c, x, j);
      assert MemberOf(q, js, Member(k, j));
    }
    forall w, m | MemberOf(q, js, m) && w in MemberTexts(m) ensures w in l {
      forall x | x in TextsOf(m.value) ensures x in Texts(js) {}
      EntryBelow(q, Texts(js), m);
    }
  }

  lemma EntryBelow(q: Lang, v: Lang, m: Member)
    requires m.key in q && TextsOf(m.value) <= v
    ensures MemberTexts(m) <= Cat(Cat(q, Blank()), Cat(iset{":"}, Cat(Blank(), v)))
  {
    hide IsString, Blank, TextsOf;
    LeastSolution.CatMono(iset{m.key}, q, Blank(), Blank());
    LeastSolution.CatMono(Blank(), Blank(), TextsOf(m.value), v);
    LeastSolution.CatMono(iset{":"}, iset{":"}, Cat(Blank(), TextsOf(m.value)), Cat(Blank(), v));
    LeastSolution.CatMono(Spaced(m.key), Cat(q, Blank()), Cat(iset{":"}, Cat(Blank(), TextsOf(m.value))),
      Cat(iset{":"}, Cat(Blank(), v)));
  }

  // ---------------------------------------------------------------- schemas

  /** What the dumped constants and keys of the schema, and the matches of its patterns, must be for its texts to be
      JSON: constants without parts, strings without quotes inside. Additional entries beside declared ones are left
      out; see `OpenKey`. */
  ghost predicate WellKept(s: Schema)
    decreases s
  {
    match s
    case SUnion(alts) => forall i :: 0 <= i < |alts| ==> WellKept(alts[i])
    case SConst(v) => Scalar(v)
    case SEnum(vs) => forall i :: 0 <= i < |vs| ==> Scalar(vs[i])
    case SObject(ps, _, add) =>
      && (forall i :: 0 <= i < |ps| ==> InString(ps[i].key) && WellKept(ps[i].schema))
      && (add.NoAdditional? || ps == []) && (add.AdditionalOf? ==> WellKept(add.schema))
    case STuple(items) => forall i :: 0 <= i < |items| ==> WellKept(items[i])
    case SArray(item, _, _) => WellKept(item)
    case SPattern(re) => forall w :: w in Regex.RegexLang(false, re) ==> InString(w)
    case SFormat(p) => p in VALUE_RULES || p in FORMAT_RULES
    case SType(_, p) => p in VALUE_RULES || p in FORMAT_RULES
    case _ => true
  }

  /** In `env` white space is what it should be, and these references denote the texts of their values. */
  ghost predicate Agrees(c: Context, env: Env, refs: Meanings, rs: set<string>) {
    && Space(env) == Blank()
    && forall r :: r in rs ==> r in refs && ItemLang(env, Ref(Target(c, r))) == Texts(refs[r])
  }

  /** The texts the schema describes are those of its values. */
  ghost predicate Faithful(c: Context, env: Env, refs: Meanings, s: Schema) {
    Spec(c, env, s) == Texts(Values(refs, s))
  }

  lemma {:induction false} InAnySpec(c: Context, env: Env, alts: seq<Schema>, w: string)
    ensures w in AnySpec(c, env, alts) <==> exists i :: 0 <= i < |alts| && w in Spec(c, env, alts[i])
    decreases |alts|
  {
    hide Spec;
    if alts != [] {
      InAnySpec(c, env, alts[1..], w);
      if i :| 0 <= i < |alts| && w in Spec(c, env, alts[i]) {
        if i > 0 { assert alts[1..][i - 1] == alts[i]; }
      }
    }
  }

  lemma UnionSpec(c: Context, env: Env, s: Schema)
    requires s.SUnion?
    ensures Spec(c, env, s) == AnySpec(c, env, s.alternatives)
  {
  }

  lemma {:induction false} UnionFaithful(c: Context, env: Env, refs: Meanings, s: Schema)
    requires s.SUnion? && forall i :: 0 <= i < |s.alternatives| ==> Faithful(c, env, refs, s.alternatives[i])
    ensures Faithful(c, env, refs, s)
  {
    hide TextsOf, Spec, AnySpec;
    UnionSpec(c, env, s);
    forall w ensures w in Spec(c, env, s) <==> InTexts(Values(refs, s), w) {
      InAnySpec(c, env, s.alternatives, w);
      if i :| 0 <= i < |s.alternatives| && w in Spec(c, env, s.alternatives[i]) {
        assert Faithful(c, env, refs, s.alternatives[i]);
        assert InTexts(Values(refs, s.alternatives[i]), w);
      }
      if j :| j in Values(refs, s) && w in TextsOf(j) {
        var i :| 0 <= i < |s.alternatives| && Describes(refs, s.alternatives[i], j);
        assert Faithful(c, env, refs, s.alternatives[i]);
        assert InTexts(Values(refs, s.alternatives[i]), w);
      }
    }
  }

  lemma ScalarsFaithful(c: Context, env: Env, refs: Meanings, s: Schema)
    requires (s.SConst? || s.SEnum?) && WellKept(s) && Space(env) == Blank()
    ensures Faithful(c, env, refs, s)
  {
    hide Blank, Scalar, IsScalar, TextsOf;
    var vs := if s.SConst? then iset{s.value} else OneOf(s.values);
    ScalarsTexts(vs);
    SameTexts((iset j | OneScalar(vs, j)), Values(refs, s));
  }

  lemma BracketsAgree(env: Env, open: string, inner: Lang, close: string)
    requires Space(env) == Blank()
    ensures ObjectRule.Enclosed(env, open, inner, close) == Bracketed(open, inner, close)
  {
  }

  /** The comma of the rules is that of JSON texts. */
  lemma CommaThen(env: Env, l: Lang)
    requires Space(env) == Blank()
    ensures Cat(ObjectKeys.Comma(env), l) == Next(l)
  {
    hide Blank;
    CatAssoc(iset{","}, Blank(), l);
  }

  lemma {:induction false} TupleIsListed(c: Context, env: Env, items: seq<Schema>, ls: seq<Lang>)
    requires Space(env) == Blank() && |ls| == |items|
    requires forall i :: 0 <= i < |ls| ==> ls[i] == Spec(c, env, items[i])
    ensures TupleSpec(c, env, items) == Listed(ls)
    decreases |items|
  {
    hide Spec, Blank, ObjectKeys.Comma;
    if |items| > 1 {
      TupleIsListed(c, env, items[1..], ls[1..]);
      CommaThen(env, TupleSpec(c, env, items[1..]));
    }
  }

  ghost function ItemValues(refs: Meanings, items: seq<Schema>): seq<iset<Json>> {
    seq(|items|, i requires 0 <= i < |items| => Values(refs, items[i]))
  }

  lemma {:induction false} TupleFaithful(c: Context, env: Env, refs: Meanings, s: Schema)
    requires s.STuple? && Space(env) == Blank()
    requires forall i :: 0 <= i < |s.items| ==> Faithful(c, env, refs, s.items[i])
    ensures Faithful(c, env, refs, s)
  {
    hide TextsOf, Blank, Bracketed, Listed, ObjectRule.Enclosed, TupleSpec;
    var ds := ItemValues(refs, s.items);
    var family := iset{ds};
    forall i | 0 <= i < |s.items| ensures EachTexts(ds)[i] == Spec(c, env, s.items[i]) {
      assert Faithful(c, env, refs, s.items[i]);
    }
    TupleIsListed(c, env, s.items, EachTexts(ds));
    var l := TupleSpec(c, env, s.items);
    forall v ensures v in l <==> InFamily(family, v) { assert ds in family; }
    ArrayFamily(family, l);
    BracketsAgree(env, "[", l, "]");
    forall j ensures ArrayOf(family, j) <==> Describes(refs, s, j) { assert ds in family; }
    SameTexts((iset j | ArrayOf(family, j)), Values(refs, s));
  }

  ghost function Copies(js: iset<Json>, n: nat): seq<iset<Json>> { seq(n, _ => js) }

  lemma {:induction false} JoinedIsListed(env: Env, js: iset<Json>, n: nat)
    requires Space(env) == Blank()
    ensures Repetition.Joined(Texts(js), ObjectKeys.Comma(env), n) == Listed(EachTexts(Copies(js, n)))
  {
    hide Blank, ObjectKeys.Comma, Texts;
    if n > 1 {
      JoinedIsListed(env, js, n - 1);
      CommaThen(env, Repetition.Joined(Texts(js), ObjectKeys.Comma(env), n - 1));
      assert EachTexts(Copies(js, n))[1..] == EachTexts(Copies(js, n - 1));
    }
  }

  ghost predicate IsRow(js: iset<Json>, lo: nat, hi: int, ds: seq<iset<Json>>) {
    Enough(|ds|, lo, hi) && ds == Copies(js, |ds|)
  }

  lemma InLists(env: Env, js: iset<Json>, lo: nat, hi: int, v: string)
    requires Space(env) == Blank()
    ensures v in Repetition.Lists(Texts(js), ObjectKeys.Comma(env), lo, hi) <==>
            InFamily((iset ds | IsRow(js, lo, hi, ds)), v)
  {
    hide Blank, ObjectKeys.Comma, Texts, Listed, Repetition.Joined, EachTexts;
    if n: nat :| Enough(n, lo, hi) && v in Repetition.Joined(Texts(js), ObjectKeys.Comma(env), n) {
      JoinedIsListed(env, js, n);
      assert IsRow(js, lo, hi, Copies(js, n));
    }
    if ds :| IsRow(js, lo, hi, ds) && v in Listed(EachTexts(ds)) { JoinedIsListed(env, js, |ds|); }
  }

  lemma {:induction false} ArrayFaithful(c: Context, env: Env, refs: Meanings, s: Schema)
    requires s.SArray? && Space(env) == Blank() && Faithful(c, env, refs, s.item)
    ensures Faithful(c, env, refs, s)
  {
    hide TextsOf, Blank, Bracketed, Listed, ObjectRule.Enclosed, Repetition.Lists, ObjectKeys.Comma, Texts;
    var js := Values(refs, s.item);
    var family := iset ds | IsRow(js, s.minItems, s.maxItems, ds);
    var l := Repetition.Lists(Texts(js), ObjectKeys.Comma(env), s.minItems, s.maxItems);
    forall v ensures v in l <==> InFamily(family, v) { InLists(env, js, s.minItems, s.maxItems, v); }
    ArrayFamily(family, l);
    BracketsAgree(env, "[", l, "]");
    forall j ensures ArrayOf(family, j) <==> Describes(refs, s, j) { RowsDescribed(refs, s, j); }
    SameTexts((iset j | ArrayOf(family, j)), Values(refs, s));
  }

  lemma RowsDescribed(refs: Meanings, s: Schema, j: Json)
    requires s.SArray?
    ensures ArrayOf((iset ds | IsRow(Values(refs, s.item), s.minItems, s.maxItems, ds)), j) <==> Describes(refs, s, j)
  {
    var js := Values(refs, s.item);
    if Describes(refs, s, j) {
      var ds := Copies(js, |j.items|);
      assert IsRow(js, s.minItems, s.maxItems, ds) && EachIn(j.items, ds);
    }
  }

  // ---------------------------------------------------------------- objects

  ghost function FittingMembers(refs: Meanings, ps: seq<Property>, additional: iset<Member>, k: string): iset<Member> {
    iset m | EntryFits(refs, ps, additional, k, m)
  }

  lemma SameEntryTexts(a: iset<Member>, b: iset<Member>)
    requires forall m :: m in a <==> m in b
    ensures EntryTexts(a) == EntryTexts(b)
  {
    assert a == b;
  }

  lemma {:induction false} DeclaredEntry(c: Context, env: Env, refs: Meanings, p: Property)
    requires Space(env) == Blank() && InString(p.key) && Faithful(c, env, refs, p.schema)
    ensures PropertySpec(c, env, p)
            == EntryTexts(iset m | MemberOf(iset{"\"" + p.key + "\""}, Values(refs, p.schema), m))
  {
    hide Blank, Spec, InString, Texts, EntryTexts, Values;
    StringWord(p.key);
    hide IsString;
    MembersTexts(iset{"\"" + p.key + "\""}, Values(refs, p.schema));
  }

  lemma {:induction false} EntryIsTexts(c: Context, env: Env, refs: Meanings, ps: seq<Property>, additional: Lang,
      members: iset<Member>, k: string)
    requires Space(env) == Blank() && additional == EntryTexts(members)
    requires forall i :: 0 <= i < |ps| ==> InString(ps[i].key) && Faithful(c, env, refs, ps[i].schema)
    ensures EntrySpec(c, env, ps, additional, k) == EntryTexts(FittingMembers(refs, ps, members, k))
    decreases |ps|
  {
    hide Blank, InString, EntryTexts, Faithful, PropertySpec, Describes;
    var fitting := FittingMembers(refs, ps, members, k);
    if ps == [] {
      SameEntryTexts(fitting, if k == "*" then members else iset{});
      NoEntryTexts();
    } else if ps[0].key == k {
      DeclaredEntry(c, env, refs, ps[0]);
      SameEntryTexts((iset m | MemberOf(iset{"\"" + k + "\""}, Values(refs, ps[0].schema), m)), fitting);
    } else {
      EntryIsTexts(c, env, refs, ps[1..], additional, members, k);
      SameEntryTexts(FittingMembers(refs, ps[1..], members, k), fitting);
    }
  }

  lemma NoEntryTexts()
    ensures EntryTexts(iset{}) == iset{}
  {
  }

  lemma {:induction false} AdditionalIsTexts(c: Context, env: Env, refs: Meanings, ps: seq<Property>, add: Additional)
    requires Space(env) == Blank() && (add.NoAdditional? || ps == [])
    requires add.AdditionalOf? ==> Faithful(c, env, refs, add.schema)
    ensures AdditionalEntry(c, env, ps, add) == EntryTexts(AdditionalMembers(refs, add))
  {
    hide Blank, Spec, IsString, Texts, EntryTexts, TextsOfRule, OfType, Describes;
    if add.NoAdditional? {
      NoEntryTexts();
    } else {
      BuiltinMeaning.NumbersAndStringsMeant();
      TypeTexts("value");
      forall j ensures OfType("value", j) { OtherTypes(j); }
      var js := if add.AnyAdditional? then iset j | OfType("value", j) else Values(refs, add.schema);
      MembersTexts(Strings(), js);
      SameEntryTexts((iset m | MemberOf(Strings(), js, m)), AdditionalMembers(refs, add));
    }
  }

  ghost function LangsOf(l: ObjectKeys.Entries, ks: seq<string>): seq<Lang> {
    seq(|ks|, i requires 0 <= i < |ks| => l(ks[i]))
  }

  lemma {:induction false} BetweenIsListed(env: Env, l: ObjectKeys.Entries, ks: seq<string>)
    requires Space(env) == Blank()
    ensures ObjectKeys.Between(ObjectKeys.Comma(env), l, ks) == Listed(LangsOf(l, ks))
    decreases |ks|
  {
    hide Blank, ObjectKeys.Comma;
    if |ks| == 1 {
      assert ks[1..] == [];
      CatEps(l(ks[0]));
    } else if |ks| > 1 {
      var rest := ks[1..];
      BetweenIsListed(env, l, rest);
      assert LangsOf(l, ks)[1..] == LangsOf(l, rest);
      CatAssoc(ObjectKeys.Comma(env), l(rest[0]), ObjectKeys.After(ObjectKeys.Comma(env), l, rest[1..]));
      CommaThen(env, ObjectKeys.Between(ObjectKeys.Comma(env), l, rest));
    }
  }

  ghost function Choices(refs: Meanings, ps: seq<Property>, additional: iset<Member>, ks: seq<string>):
      seq<iset<Member>> {
    seq(|ks|, i requires 0 <= i < |ks| => FittingMembers(refs, ps, additional, ks[i]))
  }

  /** The members that go with some selection of keys. */
  ghost predicate IsChoice(refs: Meanings, s: Schema, ds: seq<iset<Member>>)
    requires s.SObject?
  {
    exists sel ::
      && ObjectKeys.Selection(RequiredKeys(s.properties, s.required, false), !s.additional.NoAdditional?, sel)
      && ds == Choices(refs, s.properties, AdditionalMembers(refs, s.additional),
                       RequiredKeys(s.properties, s.required, true) + sel)
  }

  /** Each entry rule's texts are those of the members that go under its key. */
  ghost predicate EntriesRight(refs: Meanings, s: Schema, l: ObjectKeys.Entries)
    requires s.SObject?
  {
    forall k :: l(k) == EntryTexts(FittingMembers(refs, s.properties, AdditionalMembers(refs, s.additional), k))
  }

  lemma ChoicesListed(refs: Meanings, s: Schema, l: ObjectKeys.Entries, ks: seq<string>)
    requires s.SObject? && EntriesRight(refs, s, l)
    ensures LangsOf(l, ks)
            == EachEntryTexts(Choices(refs, s.properties, AdditionalMembers(refs, s.additional), ks))
  {
    hide EntryTexts, FittingMembers, AdditionalMembers;
  }

  lemma InMembers(env: Env, refs: Meanings, s: Schema, l: ObjectKeys.Entries, v: string)
    requires s.SObject? && Space(env) == Blank() && EntriesRight(refs, s, l)
    ensures v in ObjectKeys.Members(ObjectKeys.Comma(env), l, RequiredKeys(s.properties, s.required, true),
                   RequiredKeys(s.properties, s.required, false), !s.additional.NoAdditional?) <==>
            InEntryFamily((iset ds | IsChoice(refs, s, ds)), v)
  {
    hide Blank, ObjectKeys.Comma, Listed, ObjectKeys.Between, EachEntryTexts, ObjectKeys.Selection, EntriesRight,
      Choices, AdditionalMembers, RequiredKeys, LangsOf;
    var req, opt := RequiredKeys(s.properties, s.required, true), RequiredKeys(s.properties, s.required, false);
    var add, extra := !s.additional.NoAdditional?, AdditionalMembers(refs, s.additional);
    if sel :| ObjectKeys.Selection(opt, add, sel) && v in ObjectKeys.Between(ObjectKeys.Comma(env), l, req + sel) {
      BetweenIsListed(env, l, req + sel);
      ChoicesListed(refs, s, l, req + sel);
      assert IsChoice(refs, s, Choices(refs, s.properties, extra, req + sel));
    }
    if ds :| IsChoice(refs, s, ds) && v in Listed(EachEntryTexts(ds)) {
      var sel :| ObjectKeys.Selection(opt, add, sel) && ds == Choices(refs, s.properties, extra, req + sel);
      BetweenIsListed(env, l, req + sel);
      ChoicesListed(refs, s, l, req + sel);
    }
  }

  lemma MembersChosen(refs: Meanings, s: Schema, j: Json)
    requires s.SObject? && Describes(refs, s, j)
    ensures ObjectOf((iset ds | IsChoice(refs, s, ds)), j)
  {
    hide ObjectKeys.Selection, AdditionalMembers, RequiredKeys, EntryFits;
    var req, opt := RequiredKeys(s.properties, s.required, true), RequiredKeys(s.properties, s.required, false);
    var add, extra := !s.additional.NoAdditional?, AdditionalMembers(refs, s.additional);
    var sel :| ObjectKeys.Selection(opt, add, sel) && EntriesFit(refs, s.properties, extra, req + sel, j.members);
    var ds := Choices(refs, s.properties, extra, req + sel);
    assert IsChoice(refs, s, ds) && EachMemberIn(j.members, ds);
  }

  lemma ObjectDescribed(refs: Meanings, s: Schema, j: Json)
    requires s.SObject?
    ensures ObjectOf((iset ds | IsChoice(refs, s, ds)), j) <==> Describes(refs, s, j)
  {
    hide ObjectKeys.Selection, AdditionalMembers, RequiredKeys;
    var req, opt := RequiredKeys(s.properties, s.required, true), RequiredKeys(s.properties, s.required, false);
    var add, extra := !s.additional.NoAdditional?, AdditionalMembers(refs, s.additional);
    if Describes(refs, s, j) { MembersChosen(refs, s, j); }
    if ObjectOf((iset ds | IsChoice(refs, s, ds)), j) {
      var ds :| IsChoice(refs, s, ds) && EachMemberIn(j.members, ds);
      var sel :| ObjectKeys.Selection(opt, add, sel) && ds == Choices(refs, s.properties, extra, req + sel);
      forall i | 0 <= i < |req + sel|
        ensures EntryFits(refs, s.properties, extra, (req + sel)[i], j.members[i])
      {
        assert j.members[i] in ds[i];
      }
    }
  }

  lemma {:induction false} ObjectFaithful(c: Context, env: Env, refs: Meanings, s: Schema)
    requires s.SObject? && WellKept(s) && Space(env) == Blank()
    requires forall i :: 0 <= i < |s.properties| ==> Faithful(c, env, refs, s.properties[i].schema)
    requires s.additional.AdditionalOf? ==> Faithful(c, env, refs, s.additional.schema)
    ensures Faithful(c, env, refs, s)
  {
    var extra := AdditionalEntry(c, env, s.properties, s.additional);
    var l: ObjectKeys.Entries := k => EntrySpec(c, env, s.properties, extra, k);
    AllKept(s);
    hide TextsOf, Blank, Bracketed, Listed, ObjectRule.Enclosed, ObjectKeys.Members, ObjectKeys.Comma, Faithful,
      AdditionalEntry, AdditionalMembers, EntryTexts, FittingMembers, InString, WellKept, RequiredKeys, EntrySpec,
      Texts, EntriesRight, IsChoice, ObjectOf, Describes;
    AdditionalIsTexts(c, env, refs, s.properties, s.additional);
    forall k ensures l(k) == EntryTexts(FittingMembers(refs, s.properties, AdditionalMembers(refs, s.additional), k)) {
      EntryIsTexts(c, env, refs, s.properties, extra, AdditionalMembers(refs, s.additional), k);
    }
    ObjectFromEntries(c, env, refs, s, l);
  }

  lemma AllKept(s: Schema)
    requires s.SObject? && WellKept(s)
    ensures forall i :: 0 <= i < |s.properties| ==> InString(s.properties[i].key)
    ensures s.additional.NoAdditional? || s.properties == []
  {
    hide InString;
  }

  lemma {:induction false} ObjectFromEntries(c: Context, env: Env, refs: Meanings, s: Schema, l: ObjectKeys.Entries)
    requires s.SObject? && Space(env) == Blank()
    requires l == (k => EntrySpec(c, env, s.properties, AdditionalEntry(c, env, s.properties, s.additional), k))
    requires forall k ::
               l(k) == EntryTexts(FittingMembers(refs, s.properties, AdditionalMembers(refs, s.additional), k))
    ensures Faithful(c, env, refs, s)
  {
    hide TextsOf, Blank, Bracketed, Listed, ObjectRule.Enclosed, ObjectKeys.Members, ObjectKeys.Comma,
      AdditionalMembers, EntryTexts, FittingMembers, RequiredKeys, Texts, IsChoice, ObjectOf, Describes;
    var family := iset ds | IsChoice(refs, s, ds);
    var inner := ObjectKeys.Members(ObjectKeys.Comma(env), l, RequiredKeys(s.properties, s.required, true),
                   RequiredKeys(s.properties, s.required, false), !s.additional.NoAdditional?);
    assert EntriesRight(refs, s, l);
    forall v ensures v in inner <==> InEntryFamily(family, v) { InMembers(env, refs, s, l, v); }
    ObjectFamily(family, inner);
    BracketsAgree(env, "{", inner, "}");
    forall j ensures ObjectOf(family, j) <==> Describes(refs, s, j) { ObjectDescribed(refs, s, j); }
    SameTexts((iset j | ObjectOf(family, j)), Values(refs, s));
  }

  // ---------------------------------------------------------------- strings and numbers with bounds

  lemma QuotesAgree(env: Env, l: Lang)
    requires Space(env) == Blank()
    ensures SchemaSpec.Quoted(env, l) == JsonTexts.Quoted(l)
  {
  }

  lemma PatternFaithful(c: Context, env: Env, refs: Meanings, s: Schema)
    requires s.SPattern? && WellKept(s) && Space(env) == Blank()
    ensures Faithful(c, env, refs, s)
  {
    hide Blank, TextsOf, InString, InQuotes, SchemaSpec.Quoted, JsonTexts.Quoted, Regex.RegexLang, Texts;
    var l := Regex.RegexLang(false, s.re);
    QuotesAgree(env, l);
    QuotedTexts(l);
    SameTexts((iset j | InQuotes(j, l)), Values(refs, s));
  }

  lemma InCharLists(lo: nat, hi: int, x: string)
    ensures x in Repetition.Lists(Chars(), Eps(), lo, hi) <==>
            exists n: nat :: Enough(n, lo, hi) && x in Pow(Chars(), n)
    ensures x in Repetition.Lists(Chars(), Eps(), lo, hi) ==> InString(x)
  {
    hide Chars, InString;
    if n: nat :| Enough(n, lo, hi) && x in Repetition.Joined(Chars(), Eps(), n) {
      Repetition.JoinedNoSep(Chars(), n);
      BuiltinTexts.CharsInString(n, x);
    }
    if n: nat :| Enough(n, lo, hi) && x in Pow(Chars(), n) { Repetition.JoinedNoSep(Chars(), n); }
  }

  lemma LengthFaithful(c: Context, env: Env, refs: Meanings, s: Schema)
    requires s.SLength? && Space(env) == Blank()
    ensures Faithful(c, env, refs, s)
  {
    hide Blank, TextsOf, InString, Chars, TextsOfRule, SchemaSpec.Quoted, JsonTexts.Quoted, Repetition.Lists, Texts;
    BuiltinMeaning.NumbersAndStringsMeant();
    var l := Repetition.Lists(Chars(), Eps(), s.minLength, s.maxLength);
    forall x { InCharLists(s.minLength, s.maxLength, x); }
    QuotesAgree(env, l);
    QuotedTexts(l);
    forall j ensures InQuotes(j, l) <==> Describes(refs, s, j) {
      if InQuotes(j, l) {
        var x :| x in l && j.text == "\"" + x + "\"";
        var n: nat :| Enough(n, s.minLength, s.maxLength) && x in Pow(Chars(), n);
        assert InQuotes(j, Pow(Chars(), n));
      }
    }
    SameTexts((iset j | InQuotes(j, l)), Values(refs, s));
  }

  lemma NumeralIsInteger(n: int)
    requires |Decimal.Dec(IntegerBounds.Abs(n))| <= 16
    ensures IsInteger(IntegerBounds.ToString(n))
  {
    Decimal.DecCanonical(IntegerBounds.Abs(n));
    var w := IntegerBounds.ToString(n);
    if n < 0 { assert w[1..] == Decimal.Dec(-n); }
  }

  lemma IntendedIsInteger(lo: Minimum, hi: Maximum, w: string)
    requires w in IntegerBounds.Intended(lo, hi)
    ensures IsInteger(w)
  {
    hide IsInteger, Decimal.Dec, IntegerBounds.ToString;
    if n: int :| IntegerBounds.Fits(lo, hi, n) && w == IntegerBounds.ToString(n) {
      if IntegerBounds.HasMin(lo) && IntegerBounds.HasMax(hi) { IntegerBounds.IntLength(IntegerBounds.Abs(n)); }
      NumeralIsInteger(n);
    } else {
      MinusZero();
    }
  }

  lemma MinusZero()
    ensures IsInteger("-0")
  {
    assert "-0"[1..] == "0";
  }

  lemma IntegerFaithful(c: Context, env: Env, refs: Meanings, s: Schema)
    requires s.SInteger? && Space(env) == Blank()
    ensures Faithful(c, env, refs, s)
  {
    hide Blank, TextsOf, IsInteger, Numbers, IntegerBounds.Intended, Texts;
    var l := IntegerBounds.Intended(s.minimum, s.maximum);
    forall w | w in l ensures w in Numbers() {
      IntendedIsInteger(s.minimum, s.maximum, w);
      IntegersAreNumbers(w);
    }
    NumbersOf(l);
    SameTexts((iset j: Json | j.JNumber? && j.number in l), Values(refs, s));
  }

  lemma TypeFaithful(c: Context, env: Env, refs: Meanings, s: Schema)
    requires (s.SFormat? || s.SType?) && WellKept(s)
    ensures Faithful(c, env, refs, s)
  {
    hide TextsOf, OfType, TextsOfRule, Texts;
    TypeTexts(s.prim);
    SameTexts((iset j | OfType(s.prim, j)), Values(refs, s));
  }

  lemma ReferenceFaithful(c: Context, env: Env, refs: Meanings, s: Schema)
    requires s.SRef? && Agrees(c, env, refs, {s.ref})
    ensures Faithful(c, env, refs, s)
  {
    hide TextsOf, Texts, Target, Blank;
    assert s.ref in refs;
    SameTexts(refs[s.ref], Values(refs, s));
  }

  // ---------------------------------------------------------------- the theorem

  lemma LeafFaithful(c: Context, env: Env, refs: Meanings, s: Schema)
    requires WellKept(s) && Agrees(c, env, refs, Mentions(s))
    requires !s.SUnion? && !s.SObject? && !s.STuple? && !s.SArray?
    ensures Faithful(c, env, refs, s)
  {
    hide Faithful, Blank, Target, Scalar, InString;
    match s
    case SRef(r) => ReferenceFaithful(c, env, refs, s);
    case SPattern(_) => PatternFaithful(c, env, refs, s);
    case SLength(_, _) => LengthFaithful(c, env, refs, s);
    case SInteger(_, _) => IntegerFaithful(c, env, refs, s);
    case SFormat(_) => TypeFaithful(c, env, refs, s);
    case SType(_, _) => TypeFaithful(c, env, refs, s);
    case _ => ScalarsFaithful(c, env, refs, s);
  }

  /** A part of a schema, of which the same can be said. */
  ghost predicate Within(s: Schema, part: Schema) { Mentions(part) <= Mentions(s) && WellKept(part) }

  lemma PartsWithin(s: Schema)
    requires WellKept(s)
    ensures s.SUnion? ==> forall i :: 0 <= i < |s.alternatives| ==> Within(s, s.alternatives[i])
    ensures s.STuple? ==> forall i :: 0 <= i < |s.items| ==> Within(s, s.items[i])
    ensures s.SArray? ==> Within(s, s.item)
    ensures s.SObject? ==> forall i :: 0 <= i < |s.properties| ==> Within(s, s.properties[i].schema)
    ensures s.SObject? && s.additional.AdditionalOf? ==> Within(s, s.additional.schema)
  {
    hide InString, Scalar;
  }

  /** The texts that a schema describes are exactly the texts of the JSON values that satisfy it. */
  lemma {:induction false} SpecIsValues(c: Context, env: Env, refs: Meanings, s: Schema)
    requires WellKept(s) && Agrees(c, env, refs, Mentions(s))
    ensures Spec(c, env, s) == Texts(Values(refs, s))
    decreases s
  {
    hide Spec, Texts, Describes, Blank, Target, Scalar, InString, Mentions, WellKept;
    PartsWithin(s);
    assert Faithful(c, env, refs, s) by {
      match s
      case SUnion(alts) =>
        forall i | 0 <= i < |alts| ensures Faithful(c, env, refs, alts[i]) { SpecIsValues(c, env, refs, alts[i]); }
        UnionFaithful(c, env, refs, s);
      case SObject(ps, _, add) =>
        forall i | 0 <= i < |ps| ensures Faithful(c, env, refs, ps[i].schema) {
          SpecIsValues(c, env, refs, ps[i].schema);
        }
        if add.AdditionalOf? { SpecIsValues(c, env, refs, add.schema); }
        ObjectFaithful(c, env, refs, s);
      case STuple(items) =>
        forall i | 0 <= i < |items| ensures Faithful(c, env, refs, items[i]) { SpecIsValues(c, env, refs, items[i]); }
        TupleFaithful(c, env, refs, s);
      case SArray(item, _, _) =>
        SpecIsValues(c, env, refs, item);
        ArrayFaithful(c, env, refs, s);
      case _ => LeafFaithful(c, env, refs, s);
    }
  }

  /** Beside declared keys, the key of an additional entry may be a lone backslash in quotes, which is no JSON
      string. */
  lemma OpenKey(c: Context, env: Env, ps: seq<Property>)
    requires Space(env) == Blank() && forall i :: 0 <= i < |ps| ==> PlainKey(ps[i].key)
    requires exists i :: 0 <= i < |ps| && ps[i].key != ""
    ensures "\"\\\"" in AdditionalKey(c, env, ps) && !IsString("\"\\\"")
  {
    hide TextsOfRule, Blank, ClassLang, Cat, NotStrings.OtherNames, IsString, PlainKey;
    var quote := ClassLang("\"");
    var others := NotStrings.OtherNames(KeysOf(ps), TextsOfRule("char"));
    forall i | 0 <= i < |ps| ensures '\\' !in ps[i].key { NoBackslash(ps[i].key); }
    LoneBackslash(KeysOf(ps), TextsOfRule("char"));
    NothingIsBlank();
    CatIntro(quote, Space(env), "\"", "");
    CatIntro(others, Cat(quote, Space(env)), "\\", "\"" + "");
    CatIntro(quote, Cat(others, Cat(quote, Space(env))), "\"", "\\" + ("\"" + ""));
    BackslashKey();
  }

  /** So the keys of additional entries are JSON strings if and only if no declared key has a character. */
  lemma KeysAreStringsIff(c: Context, env: Env, ps: seq<Property>)
    requires Space(env) == Blank() && forall i :: 0 <= i < |ps| ==> PlainKey(ps[i].key)
    ensures AdditionalKey(c, env, ps) <= StringTexts() <==> forall i :: 0 <= i < |ps| ==> ps[i].key == ""
  {
    hide TextsOfRule, Blank, PlainKey, StringTexts, AdditionalKey;
    if exists i :: 0 <= i < |ps| && ps[i].key != "" {
      OpenKey(c, env, ps);
      NoStringText();
    } else if ps == [] {
      StringKeys(c, env);
    } else {
      EmptyKeys(c, env, ps);
    }
  }

  lemma NoStringText()
    ensures "\"\\\"" !in StringTexts()
  {
    hide IsString;
    var w := "\"\\\"";
    forall i | 0 <= i <= 3 ensures !SplitAt(Strings(), Blank(), w, i) {
      BackslashKey();
      StringEnds(w[..i]);
      assert i == 3 ==> w[..i] == w;
      assert i == 2 ==> w[..i][1] == '\\';
    }
  }

  lemma StringEnds(t: string)
    ensures IsString(t) ==> |t| >= 2 && t[|t| - 1] == '"'
  {
  }

  lemma StringKeys(c: Context, env: Env)
    ensures AdditionalKey(c, env, []) == StringTexts()
  {
    hide TextsOfRule, StringTexts;
    BuiltinMeaning.NumbersAndStringsMeant();
  }

  /** Only the empty key is let through, if that is the one declared. */
  lemma EmptyKeys(c: Context, env: Env, ps: seq<Property>)
    requires Space(env) == Blank() && ps != [] && forall i :: 0 <= i < |ps| ==> ps[i].key == ""
    ensures AdditionalKey(c, env, ps) <= StringTexts()
  {
    hide TextsOfRule, Blank, Cat, IsString, NotStrings.OtherNames, ClassLang;
    BuiltinMeaning.NumbersAndStringsMeant();
    assert "" !in Chars();
    assert KeysOf(ps)[0] == "";
    NotStrings.OtherNamesAreOthers(KeysOf(ps), Chars());
    forall w | w in AdditionalKey(c, env, ps) ensures w in StringTexts() {
      var open, rest := CatOut(ClassLang("\""), Cat(iset{""}, Cat(ClassLang("\""), Space(env))), w);
      var none, more := CatOut(iset{""}, Cat(ClassLang("\""), Space(env)), rest);
      var close, b := CatOut(ClassLang("\""), Space(env), more);
      OnlyQuote(open);
      OnlyQuote(close);
      StringWord("");
      assert "\"" + "" + "\"" == "\"\"";
      CatIntro(Strings(), Blank(), "\"\"", b);
      assert w == "\"\"" + b;
    }
  }

  lemma OnlyQuote(w: string)
    requires w in ClassLang("\"")
    ensures w == "\""
  {
    BuiltinTexts.OneOfClass("\"", w);
    NoHyphenRanges("\"", w[0]);
  }

  /** Nor is a quote between quotes, which the pattern of one dot lets through. */
  lemma OpenDot()
    ensures var dot := Regex.Regex([Regex.Branch([Regex.Piece(Regex.AnyChar, Regex.Once)])]);
            "\"" in Regex.RegexLang(false, dot) && !InString("\"")
  {
    hide InString, Pow, Cat;
    var one := Regex.Piece(Regex.AnyChar, Regex.Once);
    AnyQuote();
    CatIntro(Regex.PieceLang(false, one), Eps(), "\"", "");
    assert [one][1..] == [] && "\"" + "" == "\"";
    assert "\"" in Regex.BranchLang(false, [one]);
    assert "\"" in Regex.BranchesLang(false, [Regex.Branch([one])]);
  }

  lemma AnyQuote()
    ensures "\"" in Regex.PieceLang(false, Regex.Piece(Regex.AnyChar, Regex.Once)) && !InString("\"")
  {
    hide Pow;
    var a := Regex.AtomLang(false, Regex.AnyChar);
    var c: char := '"';
    assert [c] == "\"" && c !in "\r\n";
    assert "\"" in a;
    PowOne(a);
    assert Allowed(1, 1, Upto(1)) && "\"" in Pow(a, 1);
  }

  lemma NoBackslash(k: string)
    requires PlainKey(k)
    ensures '\\' !in k
  {
  }

  lemma NothingIsBlank()
    ensures "" in Blank() && "\"" in ClassLang("\"")
  {
  }

  lemma BackslashKey()
    ensures "\"" + ("\\" + ("\"" + "")) == "\"\\\"" && !IsString("\"\\\"")
  {
    assert "\"\\\""[1..2] == "\\";
  }

  lemma LoneBackslash(names: seq<string>, x: Lang)
    requires (exists i :: 0 <= i < |names| && names[i] != "")
    requires forall i :: 0 <= i < |names| ==> '\\' !in names[i]
    ensures "\\" in NotStrings.OtherNames(names, x)
  {
    var t := NotStrings.TrieOf(names);
    NotStrings.RootOfTrie(t, names);
    NotStrings.TrieHoldsNames(names, "\\");
    assert Allowed(0, 0, Unbounded) && "" in Pow(x, 0);
    assert "\\"[1..] == "";
  }
}
