/** The parts of an object schema: the rules of its entries, and the object they make up. */
module ObjectParts {
  import opened Gbnf
  import opened Rules
  import opened SchemaSpec
  import opened ConverterState
  import opened ObjectCounts
  import JsonTexts
  import NotStrings
  import ObjectKeys
  import ObjectRule

  // ---------------------------------------------------------------- parts, and the rules made for them

  lemma {:induction false} PropertyPart(c: Context, name: string, s: Schema, i: nat)
    requires s.SObject? && i < |s.properties|
    ensures IsPart(c, name, s, ChildName(name, s.properties[i].key), s.properties[i].schema)
  {
  }

  lemma {:induction false} AdditionalPart(c: Context, name: string, s: Schema)
    requires s.SObject? && s.additional.AdditionalOf?
    ensures IsPart(c, name, s, AdditionalName(name) + "-value", s.additional.schema)
  {
  }

  lemma {:induction false} AlternativePart(c: Context, name: string, s: Schema, i: nat)
    requires s.SUnion? && i < |s.alternatives|
    ensures IsPart(c, name, s, AlternativeName(name, i), s.alternatives[i])
  {
  }

  lemma {:induction false} TuplePart(c: Context, name: string, s: Schema, i: nat)
    requires s.STuple? && i < |s.items|
    ensures IsPart(c, name, s, TupleItemName(name, i), s.items[i])
  {
  }

  lemma {:induction false} ItemPart(c: Context, name: string, s: Schema)
    requires s.SArray?
    ensures IsPart(c, name, s, ChildName(name, "item"), s.item)
  {
  }

  /** A name the converter makes up for the schema, and no built-in one: every rule that may get it is accounted for. */
  ghost predicate HelperName(c: Context, name: string, s: Schema, n: string) {
    && Escape(n) !in c.prims
    && forall top, k :: Near(Escape(n), k) ==> TakesInside(c, top, name, s, k)
  }

  lemma EndsAsHelper(c: Context, front: string)
    requires GoodBuiltins(c.prims)
    ensures Escape(front + "-kv") !in c.prims && Escape(front + "-k") !in c.prims
  {
    EscapeTail(front, "-kv");
    EscapeTail(front, "-k");
    var n, m := Escape(front) + "-kv", Escape(front) + "-k";
    assert n[|n| - 1] == 'v' && m[|m| - 1] == 'k';
  }

  lemma {:induction false} EntryHelper(c: Context, name: string, s: Schema, i: nat)
    requires GoodBuiltins(c.prims) && s.SObject? && i < |s.properties|
    ensures HelperName(c, name, s, ChildName(name, s.properties[i].key) + "-kv")
  {
    EndsAsHelper(c, ChildName(name, s.properties[i].key));
    forall top, k | Near(Escape(ChildName(name, s.properties[i].key) + "-kv"), k)
      ensures TakesInside(c, top, name, s, k)
    {
      assert TakesForKey(name, s.properties[i].key, k);
    }
  }

  lemma {:induction false} AdditionalHelpers(c: Context, name: string, s: Schema)
    requires GoodBuiltins(c.prims) && s.SObject? && !s.additional.NoAdditional?
    ensures HelperName(c, name, s, AdditionalName(name) + "-k") && HelperName(c, name, s, AdditionalName(name) + "-kv")
  {
    EndsAsHelper(c, AdditionalName(name));
    forall top, k | Near(Escape(AdditionalName(name) + "-k"), k) || Near(Escape(AdditionalName(name) + "-kv"), k)
      ensures TakesInside(c, top, name, s, k)
    {
      assert TakesForAdditional(c, name, s.properties, s.additional, k);
    }
  }

  /** The shared rules of the optional keys. */
  lemma {:induction false} RestsInside(c: Context, name: string, s: Schema, t: Table, t': Table)
    requires s.SObject?
    requires ObjectRule.RestsAdded(name, RequiredKeys(s.properties, s.required, false), t, t')
    ensures forall top, k :: k in t' && k !in t ==> TakesInside(c, top, name, s, k)
  {
    var ks := RequiredKeys(s.properties, s.required, false);
    forall top, k | k in t' && k !in t ensures TakesInside(c, top, name, s, k) {
      assert ObjectRule.IsRest(name, ks, k);
      var x :| x in ks && Near(Escape(ChildName(name, x + "-rest")), k);
      KeyOfProperty(s.properties, s.required, false, x);
      var i :| 0 <= i < |s.properties| && s.properties[i].key == x;
      assert TakesForKey(name, s.properties[i].key, k);
    }
  }

  /** The built-in rules that additional entries use. */
  predicate UsedByAdditional(s: Schema, p: string)
    requires s.SObject?
  {
    && !s.additional.NoAdditional?
    && (p == (if s.properties == [] then "string" else "char") || (p == "value" && s.additional.AnyAdditional?))
  }

  lemma {:induction false} BuiltinsInside(c: Context, name: string, s: Schema, p: string)
    requires s.SObject? && UsedByAdditional(s, p)
    ensures NeededInside(c, name, s, p)
  {
    forall top, k | Needs(c.prims, p, k) ensures TakesInside(c, top, name, s, k) {
      assert TakesForAdditional(c, name, s.properties, s.additional, k);
    }
  }

  // ---------------------------------------------------------------- entries

  /** In every solution of the table, the name `n` denotes the entry of the property. */
  ghost predicate EntryMeans(c: Context, t: Table, n: string, p: Property) {
    forall env: Env :: Solves(env, t) ==> ItemLang(env, Ref(n)) == PropertySpec(c, env, p)
  }

  function EntryBody(key: string, value: string): Body {
    [Lit("\"" + key + "\""), Ref("space"), Lit(":"), Ref("space"), Ref(value)]
  }

  lemma {:induction false} EntryText(env: Env, key: string, value: string)
    ensures BodyLang(env, EntryBody(key, value)) == Entry(env, PropertyKey(env, key), ItemLang(env, Ref(value)))
  {
    var k, sp, v := Lit("\"" + key + "\""), Ref("space"), Ref(value);
    var b := EntryBody(key, value);
    SeqTwo(env, k, sp);
    ColonText(env, value);
    SeqAppend(env, [k, sp], [Lit(":"), sp, v]);
    assert b == [k, sp] + [Lit(":"), sp, v];
    BodyOfSeq(env, b);
  }

  lemma {:induction false} ColonText(env: Env, value: string)
    ensures SeqLang(env, [Lit(":"), Ref("space"), Ref(value)]) == Cat(iset{":"}, Cat(Space(env), ItemLang(env,
            Ref(value))))
  {
    assert [Lit(":"), Ref("space"), Ref(value)][1..] == [Ref("space"), Ref(value)];
    SeqTwo(env, Ref("space"), Ref(value));
  }

  lemma {:induction false} EntryAdded(c: Context, tm: Table, t1: Table, p: Property, value: string, kv: string)
    requires Means(c, tm, value, p.schema) && Extends(tm, t1) && kv in t1 && t1[kv] == EntryBody(p.key, value)
    ensures EntryMeans(c, t1, kv, p)
  {
    forall env: Env | Solves(env, t1) ensures ItemLang(env, Ref(kv)) == PropertySpec(c, env, p) {
      SolvesMono(env, tm, t1);
      EntryText(env, p.key, value);
    }
  }

  /** The first `i` properties have their entry rules. */
  ghost predicate EntriesDone(c: Context, t: Table, ps: seq<Property>, i: nat, kvNames: map<string, string>)
    requires i <= |ps|
  {
    && (forall j :: 0 <= j < i ==> ps[j].key in kvNames && EntryMeans(c, t, kvNames[ps[j].key], ps[j]))
    && ObjectKeys.STAR !in kvNames
  }

  lemma NoEntries(c: Context, t: Table, ps: seq<Property>)
    ensures EntriesDone(c, t, ps, 0, map[])
  {
  }

  lemma NextEntry(c: Context, t: Table, t': Table, ps: seq<Property>, i: nat, kvNames: map<string, string>, kv: string)
    requires i < |ps| && DistinctKeys(ps) && Extends(t, t') && EntriesDone(c, t, ps, i, kvNames)
    requires PlainKey(ps[i].key) && EntryMeans(c, t', kv, ps[i])
    ensures EntriesDone(c, t', ps, i + 1, kvNames[ps[i].key := kv])
  {
    EntriesLater(c, t, t', ps, i, kvNames);
  }

  lemma EntriesLater(c: Context, t: Table, t': Table, ps: seq<Property>, i: nat, kvNames: map<string, string>)
    requires i <= |ps| && Extends(t, t') && EntriesDone(c, t, ps, i, kvNames)
    ensures EntriesDone(c, t', ps, i, kvNames)
  {
    forall j | 0 <= j < i ensures EntryMeans(c, t', kvNames[ps[j].key], ps[j]) {
      forall env: Env | Solves(env, t') ensures ItemLang(env, Ref(kvNames[ps[j].key])) == PropertySpec(c, env, ps[j]) {
        SolvesMono(env, t, t');
      }
    }
  }

  ghost predicate SchemasDone(ps: seq<Property>, i: nat, known: set<string>)
    requires i <= |ps|
  {
    forall j :: 0 <= j < i ==> Mentions(ps[j].schema) <= known
  }

  // ---------------------------------------------------------------- required and optional keys

  lemma NoKeys(ps: seq<Property>, required: set<string>)
    ensures RequiredKeys(ps[..0], required, true) == [] == RequiredKeys(ps[..0], required, false)
  {
  }

  lemma {:induction false} NextKey(ps: seq<Property>, i: nat, required: set<string>, want: bool)
    requires i < |ps|
    ensures RequiredKeys(ps[..i + 1], required, want)
            == RequiredKeys(ps[..i], required, want) + (if (ps[i].key in required) == want then [ps[i].key] else [])
  {
    assert ps[..i + 1][..i] == ps[..i];
  }

  /** Every such key is that of a property. */
  lemma {:induction false} KeyOfProperty(ps: seq<Property>, required: set<string>, want: bool, k: string)
    requires k in RequiredKeys(ps, required, want)
    ensures exists i :: 0 <= i < |ps| && ps[i].key == k
  {
    if ps[|ps| - 1].key != k {
      KeyOfProperty(ps[..|ps| - 1], required, want, k);
      var i :| 0 <= i < |ps| - 1 && ps[..|ps| - 1][i].key == k;
      assert ps[i].key == k;
    }
  }

  /** The first `i` properties have entry rules. */
  predicate Listed(ps: seq<Property>, i: nat, kvNames: map<string, string>)
    requires i <= |ps|
  {
    forall j :: 0 <= j < i ==> ps[j].key in kvNames
  }

  lemma KeysKnown(ps: seq<Property>, kvNames: map<string, string>, required: set<string>, want: bool)
    requires Listed(ps, |ps|, kvNames)
    ensures Known(kvNames, RequiredKeys(ps, required, want))
  {
    var ks := RequiredKeys(ps, required, want);
    forall i | 0 <= i < |ks| ensures ks[i] in kvNames { KeyOfProperty(ps, required, want, ks[i]); }
  }

  lemma KeysWithoutStar(ps: seq<Property>, required: set<string>, want: bool)
    requires forall i :: 0 <= i < |ps| ==> ps[i].key != ObjectKeys.STAR
    ensures ObjectKeys.NoStar(RequiredKeys(ps, required, want))
  {
    var ks := RequiredKeys(ps, required, want);
    forall i | 0 <= i < |ks| ensures ks[i] != ObjectKeys.STAR { KeyOfProperty(ps, required, want, ks[i]); }
  }

  lemma {:induction false} KeysDistinct(ps: seq<Property>, required: set<string>, want: bool)
    requires DistinctKeys(ps)
    ensures ObjectKeys.Distinct(RequiredKeys(ps, required, want))
  {
    if ps != [] {
      var front, last := ps[..|ps| - 1], ps[|ps| - 1].key;
      KeysDistinct(front, required, want);
      if last in RequiredKeys(front, required, want) { KeyOfProperty(front, required, want, last); }
    }
  }

  // ---------------------------------------------------------------- entry rules are told apart

  /** The text of an entry rule begins with the quoted key; that of additional entries with a name. */
  predicate EntryShape(k: string, b: Body) {
    b != [] && (b[0] == Lit("\"" + k + "\"") || (k == ObjectKeys.STAR && b[0].Ref?))
  }

  ghost predicate Shaped(t: Table, kvNames: map<string, string>) {
    forall k :: k in kvNames ==> kvNames[k] in t && EntryShape(k, t[kvNames[k]])
  }

  lemma NothingShaped(t: Table)
    ensures Shaped(t, map[])
  {
  }

  lemma NextShaped(t: Table, t': Table, kvNames: map<string, string>, k: string, kv: string)
    requires Shaped(t, kvNames) && Extends(t, t') && kv in t' && EntryShape(k, t'[kv])
    ensures Shaped(t', kvNames[k := kv])
  {
  }

  lemma ShapedApart(t: Table, kvNames: map<string, string>)
    requires Shaped(t, kvNames) && ObjectRule.SpaceStays(t)
    ensures Distinguished(t, kvNames)
  {
    forall k, k' | k in kvNames && k' in kvNames && kvNames[k] == kvNames[k'] ensures k == k' {
      if t[kvNames[k]][0].Lit? { SameQuoted(k, k'); }
    }
  }

  lemma SameQuoted(k: string, k': string)
    ensures "\"" + k + "\"" == "\"" + k' + "\"" ==> k == k'
  {
    var q, q' := "\"" + k + "\"", "\"" + k' + "\"";
    assert q[1..|q| - 1] == k && q'[1..|q'| - 1] == k';
  }

  /** Every sequence of keys the schema permits is derived in one way, and no others are. */
  ghost predicate Unambiguous(t: Table, s: Schema, kvNames: map<string, string>, rule: Body)
    requires s.SObject?
  {
    DistinctKeys(s.properties) && (forall i :: 0 <= i < |s.properties| ==> s.properties[i].key != ObjectKeys.STAR) ==>
      RuleIsUnambiguous(t, kvNames, RequiredKeys(s.properties, s.required, true),
        RequiredKeys(s.properties, s.required, false), !s.additional.NoAdditional?, rule)
  }

  /** The text of the rule has just been written, from `tm` to `t`. */
  lemma UnambiguousRule(tm: Table, t: Table, s: Schema, kvNames: map<string, string>, rule: Body)
    requires s.SObject? && Shaped(tm, kvNames) && ObjectRule.SpaceStays(tm)
    requires var required, optional := RequiredKeys(s.properties, s.required, true),
                 RequiredKeys(s.properties, s.required, false);
             ObjectRule.Separate(tm, kvNames, optional) ==>
               RuleIsUnambiguous(t, kvNames, required, optional, !s.additional.NoAdditional?, rule)
    ensures Unambiguous(t, s, kvNames, rule)
  {
    hide ObjectRule.Separate, RuleIsUnambiguous, Shaped;
    if DistinctKeys(s.properties)
       && forall i :: 0 <= i < |s.properties| ==> s.properties[i].key != ObjectKeys.STAR {
      Separated(tm, s, kvNames);
    }
  }

  lemma UnambiguousLater(t: Table, t': Table, s: Schema, kvNames: map<string, string>, rule: Body)
    requires s.SObject? && Unambiguous(t, s, kvNames, rule) && Extends(t, t')
    ensures Unambiguous(t', s, kvNames, rule)
  {
    forall t'' | Extends(t', t'') ensures Extends(t, t'') {
      forall n | n in t ensures n in t'' && t''[n] == t[n] { assert n in t'; }
    }
  }

  lemma Separated(t: Table, s: Schema, kvNames: map<string, string>)
    requires s.SObject? && Shaped(t, kvNames) && ObjectRule.SpaceStays(t) && DistinctKeys(s.properties)
    requires forall i :: 0 <= i < |s.properties| ==> s.properties[i].key != ObjectKeys.STAR
    ensures ObjectRule.Separate(t, kvNames, RequiredKeys(s.properties, s.required, false))
  {
    ShapedApart(t, kvNames);
    KeysDistinct(s.properties, s.required, false);
    KeysWithoutStar(s.properties, s.required, false);
  }

  // ---------------------------------------------------------------- additional entries

  ghost function AdditionalValue(c: Context, env: Env, add: Additional): Lang {
    match add
    case NoAdditional => iset{}
    case AnyAdditional => JsonTexts.TextsOfRule("value")
    case AdditionalOf(s) => Spec(c, env, s)
  }

  ghost predicate ValueMeans(c: Context, t: Table, n: string, add: Additional) {
    forall env: Env :: Solves(env, t) ==> ItemLang(env, Ref(n)) == AdditionalValue(c, env, add)
  }

  ghost predicate KeyMeans(c: Context, t: Table, n: string, ps: seq<Property>) {
    forall env: Env :: Solves(env, t) ==> ItemLang(env, Ref(n)) == AdditionalKey(c, env, ps)
  }

  ghost predicate StarMeans(c: Context, t: Table, n: string, ps: seq<Property>, add: Additional) {
    forall env: Env :: Solves(env, t) ==> ItemLang(env, Ref(n)) == AdditionalEntry(c, env, ps, add)
  }

  lemma {:induction false} StarAdded(c: Context, tm: Table, tk: Table, t1: Table, ps: seq<Property>, add: Additional,
                                     value: string, key: string, kv: string)
    requires ValueMeans(c, tm, value, add) && Extends(tm, tk) && KeyMeans(c, tk, key, ps) && Extends(tk, t1)
    requires !add.NoAdditional? && kv in t1 && t1[kv] == [Ref(key), Lit(":"), Ref("space"), Ref(value)]
    ensures StarMeans(c, t1, kv, ps, add)
  {
    forall env: Env | Solves(env, t1) ensures ItemLang(env, Ref(kv)) == AdditionalEntry(c, env, ps, add) {
      SolvesMono(env, tk, t1);
      SolvesMono(env, tm, tk);
      var b := [Ref(key), Lit(":"), Ref("space"), Ref(value)];
      ColonText(env, value);
      assert b[1..] == [Lit(":"), Ref("space"), Ref(value)];
      BodyOfSeq(env, b);
    }
  }

  lemma {:induction false} KeyAdded(c: Context, tm: Table, t1: Table, ps: seq<Property>, out: Body, key: string)
    requires ps != [] && Extends(tm, t1) && key in t1 && t1[key] == out
    requires forall env: Env :: Solves(env, tm) ==> ItemLang(env, Ref("char")) == JsonTexts.TextsOfRule("char")
    requires |out| == 4 && out == [Class("\""), out[1], Class("\""), Ref("space")] && !out[1].Bar?
    requires forall env: Env :: ItemLang(env, out[1]) == NotStrings.OtherNames(KeysOf(ps), NotStrings.AnyOf(env,
             "char"))
    ensures KeyMeans(c, t1, key, ps)
  {
    forall env: Env | Solves(env, t1) ensures ItemLang(env, Ref(key)) == AdditionalKey(c, env, ps) {
      SolvesMono(env, tm, t1);
      QuotedClass(env, out[1]);
      assert NotStrings.AnyOf(env, "char") == JsonTexts.TextsOfRule("char");
    }
  }

  lemma {:induction false} QuotedClass(env: Env, it: Item)
    requires !it.Bar?
    ensures BodyLang(env, [Class("\""), it, Class("\""), Ref("space")])
            == Cat(ClassLang("\""), Cat(ItemLang(env, it), Cat(ClassLang("\""), Space(env))))
  {
    var q, sp := Class("\""), Ref("space");
    BodyOfSeq(env, [q, it, q, sp]);
    assert [q, it, q, sp][1..] == [it, q, sp] && [it, q, sp][1..] == [q, sp];
    SeqTwo(env, q, sp);
  }

  // ---------------------------------------------------------------- the whole object

  lemma {:induction false} EntryAt(c: Context, env: Env, ps: seq<Property>, additional: Lang, i: nat)
    requires i < |ps| && DistinctKeys(ps)
    ensures EntrySpec(c, env, ps, additional, ps[i].key) == PropertySpec(c, env, ps[i])
  {
    if i > 0 {
      assert ps[1..][i - 1] == ps[i] && ps[0].key != ps[i].key;
      EntryAt(c, env, ps[1..], additional, i - 1);
    }
  }

  lemma {:induction false} StarEntry(c: Context, env: Env, ps: seq<Property>, additional: Lang)
    requires forall i :: 0 <= i < |ps| ==> PlainKey(ps[i].key)
    ensures EntrySpec(c, env, ps, additional, ObjectKeys.STAR) == additional
  {
    if ps != [] {
      StarEntry(c, env, ps[1..], additional);
    }
  }

  /** The entry rules denote what the schema says of each key. */
  lemma {:induction false} EntriesAgree(c: Context, t: Table, env: Env, ps: seq<Property>, add: Additional,
      kvNames: map<string, string>, k: string)
    requires DistinctKeys(ps) && (forall i :: 0 <= i < |ps| ==> PlainKey(ps[i].key)) && Solves(env, t)
    requires forall j :: 0 <= j < |ps| ==> ps[j].key in kvNames && EntryMeans(c, t, kvNames[ps[j].key], ps[j])
    requires !add.NoAdditional? ==> ObjectKeys.STAR in kvNames && StarMeans(c, t, kvNames[ObjectKeys.STAR], ps, add)
    requires (exists i :: 0 <= i < |ps| && ps[i].key == k) || (k == ObjectKeys.STAR && !add.NoAdditional?)
    ensures ObjectRule.EntriesIn(env, kvNames)(k) == EntrySpec(c, env, ps, AdditionalEntry(c, env, ps, add), k)
  {
    if i :| 0 <= i < |ps| && ps[i].key == k {
      EntryAt(c, env, ps, AdditionalEntry(c, env, ps, add), i);
    } else {
      StarEntry(c, env, ps, AdditionalEntry(c, env, ps, add));
    }
  }

  ghost predicate AllEntries(c: Context, t: Table, ps: seq<Property>, add: Additional, kvNames: map<string, string>) {
    && (forall j :: 0 <= j < |ps| ==> ps[j].key in kvNames && EntryMeans(c, t, kvNames[ps[j].key], ps[j]))
    && (!add.NoAdditional? ==> ObjectKeys.STAR in kvNames && StarMeans(c, t, kvNames[ObjectKeys.STAR], ps, add))
  }

  lemma WithStar(c: Context, t: Table, ps: seq<Property>, add: Additional, kvNames: map<string, string>, kv: string)
    requires EntriesDone(c, t, ps, |ps|, kvNames) && StarMeans(c, t, kv, ps, add)
    ensures AllEntries(c, t, ps, add, kvNames[ObjectKeys.STAR := kv])
  {
  }

  lemma AllEntriesLater(c: Context, t: Table, t': Table, ps: seq<Property>, add: Additional, kvNames: map<string,
      string>)
    requires Extends(t, t') && AllEntries(c, t, ps, add, kvNames)
    ensures AllEntries(c, t', ps, add, kvNames)
  {
    forall env: Env | Solves(env, t') ensures Solves(env, t) { SolvesMono(env, t, t'); }
  }

  lemma GoodObject(c: Context, name: string, s: Schema)
    requires s.SObject? && Good(c, name, s)
    ensures DistinctKeys(s.properties) && forall i :: 0 <= i < |s.properties| ==> PlainKey(s.properties[i].key)
  {
  }

  lemma {:induction false} ObjectMeans(c: Context, t: Table, env: Env, s: Schema, kvNames: map<string, string>,
      rule: Body)
    requires s.SObject? && (forall i :: 0 <= i < |s.properties| ==> PlainKey(s.properties[i].key))
             && DistinctKeys(s.properties)
    requires Solves(env, t) && AllEntries(c, t, s.properties, s.additional, kvNames)
    requires BodyLang(env, rule)
             == ObjectRule.Enclosed(env, "{", ObjectKeys.Members(ObjectKeys.Comma(env),
                 ObjectRule.EntriesIn(env, kvNames), RequiredKeys(s.properties, s.required, true),
                 RequiredKeys(s.properties, s.required, false), !s.additional.NoAdditional?), "}")
    ensures BodyLang(env, rule) == Spec(c, env, s)
  {
    var ps, add := s.properties, s.additional;
    var req, opt := RequiredKeys(ps, s.required, true), RequiredKeys(ps, s.required, false);
    var l := k => EntrySpec(c, env, ps, AdditionalEntry(c, env, ps, add), k);
    forall k | k in req || k in ObjectKeys.Keys(opt, !add.NoAdditional?) ensures ObjectRule.EntriesIn(env,
        kvNames)(k) == l(k) {
      if k in req { KeyOfProperty(ps, s.required, true, k); }
      if k in opt { KeyOfProperty(ps, s.required, false, k); }
      EntriesAgree(c, t, env, ps, add, kvNames, k);
    }
    ObjectKeys.MembersCongruent(ObjectKeys.Comma(env), ObjectRule.EntriesIn(env, kvNames), l, req, opt,
      !add.NoAdditional?);
  }

  /** The text denotes the object, the entry rules being those of its properties. */
  lemma {:induction false} ObjectTextMeans(c: Context, tm: Table, t: Table, s: Schema, kvNames: map<string, string>,
                                           rule: Body)
    requires s.SObject? && (forall i :: 0 <= i < |s.properties| ==> PlainKey(s.properties[i].key))
    requires DistinctKeys(s.properties) && Extends(tm, t) && AllEntries(c, tm, s.properties, s.additional, kvNames)
    requires var required, optional := RequiredKeys(s.properties, s.required, true),
                 RequiredKeys(s.properties, s.required, false);
             ObjectKeys.NoStar(optional) ==> forall env: Env :: Solves(env, t) ==>
               BodyLang(env, rule) == ObjectRule.Enclosed(env, "{", ObjectKeys.Members(ObjectKeys.Comma(env),
                   ObjectRule.EntriesIn(env, kvNames), required, optional, !s.additional.NoAdditional?), "}")
    ensures BodyMeans(c, t, rule, s)
  {
    hide AllEntries, PlainKey, ObjectKeys.Members, ObjectRule.EntriesIn, ObjectRule.Enclosed, Spec;
    PlainHasNoStar(s.properties);
    KeysWithoutStar(s.properties, s.required, false);
    AllEntriesLater(c, tm, t, s.properties, s.additional, kvNames);
    forall env: Env | Solves(env, t) ensures BodyLang(env, rule) == Spec(c, env, s) {
      ObjectMeans(c, t, env, s, kvNames, rule);
    }
  }

  lemma PlainHasNoStar(ps: seq<Property>)
    requires forall i :: 0 <= i < |ps| ==> PlainKey(ps[i].key)
    ensures forall i :: 0 <= i < |ps| ==> ps[i].key != ObjectKeys.STAR
  {
  }
}
