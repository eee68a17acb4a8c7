/** `json_schema_to_grammar`: a whole conversion, its references already collected. */
module Conversion {
  import opened Gbnf
  import opened Results
  import opened Rules
  import opened BuiltinRules
  import opened BuiltinMeaning
  import BuiltinTexts
  import JsonTexts
  import SchemaValues
  import opened SchemaSpec
  import opened ConverterState
  import opened Constants
  import opened Converter
  import opened LeastSolution
  import opened ObjectParts

  /** The built-in rules are such as a conversion needs them. */
  lemma BuiltinsServe()
    ensures GoodBuiltins(BUILTINS) && {"char", "string", "value", "object"} <= BUILTINS.Keys && Meant(BUILTINS)
  {
    hide GoodBuiltins, BodyLang, JsonTexts.TextsOfRule;
    BuiltinsAreGood();
    forall p, t: Table, env: Env |
      p in BUILTINS && Solves(env, t) && Intact(BUILTINS, t) && Closed(BUILTINS, t, {}) && DepsIn(BUILTINS, t, p)
      ensures BodyLang(env, BUILTINS[p].content) == JsonTexts.TextsOfRule(p)
    {
      BuiltinIsRight(t, env, p);
    }
  }

  /** The schema can be converted faithfully: it and every schema it can refer to are well formed, and no rule takes a
      referenced schema's name. */
  ghost predicate Convertible(c: Context, s: Schema) {
    Good(c, "", s) && NoCapture(c, s) && forall r :: r in c.refs ==> Good(c, RefName(r), c.refs[r])
  }

  /** `env` makes of white space what it should be, and of the root and of every reference in `used` what their schemas
      describe. */
  ghost predicate Fulfils(c: Context, s: Schema, used: set<string>, env: Env) {
    && Space(env) == JsonTexts.Blank()
    && "root" in env && env["root"] == Spec(c, env, s)
    && forall r :: r in used ==> r in c.refs && ItemLang(env, Ref(Target(c, r))) == Spec(c, env, c.refs[r])
  }

  /** The references needed, directly or through others. */
  ghost predicate AllMentioned(c: Context, s: Schema, used: set<string>) {
    Mentions(s) <= used && forall r :: r in used ==> r in c.refs && Mentions(c.refs[r]) <= used
  }

  /** The grammar means what the schema describes: every solution of its rules, its least one among them, solves the
      equations of the schema and of all the schemas it needs, cyclic or not. Built-in names still hold the built-in
      rules. */
  ghost predicate MeansSchema(c: Context, s: Schema, rules: Table, used: set<string>) {
    && AllMentioned(c, s, used) && "root" in rules && Intact(c.prims, rules) && Closed(c.prims, rules, {})
    && (forall env: Env :: Solves(env, rules) ==> Fulfils(c, s, used, env))
    && Solves(Least(rules), rules) && Fulfils(c, s, used, Least(rules))
  }

  /** The grammar lets exactly the texts of the values through that satisfy the schema. */
  ghost predicate AcceptsValues(s: Schema, rules: Table) {
    forall env: Env :: Solves(env, rules) ==>
      "root" in env && env["root"] == SchemaValues.Texts(SchemaValues.Values(map[], s))
  }

  /** The same with references, if they denote the texts of values. */
  lemma {:induction false} RootIsValues(c: Context, s: Schema, rules: Table, used: set<string>, env: Env,
      refs: SchemaValues.Meanings)
    requires MeansSchema(c, s, rules, used) && SchemaValues.WellKept(s) && Solves(env, rules)
    requires forall r :: r in Mentions(s) ==>
               r in refs && ItemLang(env, Ref(Target(c, r))) == SchemaValues.Texts(refs[r])
    ensures "root" in env && env["root"] == SchemaValues.Texts(SchemaValues.Values(refs, s))
  {
    hide Spec, Target, SchemaValues.Texts, SchemaValues.Values, SchemaValues.WellKept, JsonTexts.Blank, Mentions;
    assert Fulfils(c, s, used, env);
    SchemaValues.SpecIsValues(c, env, refs, s);
  }

  lemma {:induction false} AcceptedValues(c: Context, s: Schema, rules: Table, used: set<string>)
    requires MeansSchema(c, s, rules, used) && SchemaValues.WellKept(s) && Mentions(s) == {}
    ensures AcceptsValues(s, rules)
  {
    hide MeansSchema, SchemaValues.Texts, SchemaValues.Values, SchemaValues.WellKept;
    forall env: Env | Solves(env, rules)
      ensures "root" in env && env["root"] == SchemaValues.Texts(SchemaValues.Values(map[], s))
    {
      RootIsValues(c, s, rules, used, env, map[]);
    }
  }

  /** Each property's entry denotes its schema exactly if the name it refers by was free or stood for the same. */
  ghost predicate ReferencesRightIff(c: Context, s: Schema, rules: Table, entries: map<string, string>)
    requires ConstantObject(c, s)
  {
    forall i {:trigger RightlyReferred(c, s.properties, i)} :: 0 <= i < |s.properties| ==>
      var p := s.properties[i];
      && p.key in entries
      && (EntryMeans(c, rules, entries[p.key], Property(p.key, SConst(Own(c, p.schema)))) <==>
            RightlyReferred(c, s.properties, i))
  }

  method Convert(c: Context, s: Schema)
    returns (r: Result<Table>, ghost used: set<string>, ghost entries: map<string, string>)
    requires c.prims == BUILTINS
    ensures r.Failure? ==> MayFail(c, s)
    ensures r.Success? ==> Extends(map["space" := SPACE_RULE], r.value)
    ensures Convertible(c, s) ==> r.Success? && MeansSchema(c, s, r.value, used)
    ensures Convertible(c, s) && SchemaValues.WellKept(s) && Mentions(s) == {} ==>
              r.Success? && AcceptsValues(s, r.value)
    ensures Convertible(c, s) && s.SObject? ==> Unambiguous(r.value, s, entries, r.value["root"])
    ensures r.Success? && ConstantObject(c, s) ==>
              ConstantsDone(c, s, r.value, entries, "root") && ReferencesRightIff(c, s, r.value, entries)
  {
    hide Spec, Good, Mentions, Means, NoCapture, GoodBuiltins, RefsOk, NameOk, MeansSchema, Sensible, Fulfils,
      AllMentioned, Unambiguous, At, EntriesDone, Intact, Closed, Meant, SchemaValues.WellKept, AcceptsValues;
    BuiltinsServe();
    var converter := new SchemaConverter(c, s);
    if Convertible(c, s) { RootReady(c, s); }
    if ConstantObject(c, s) { AtStart(c, s.properties); }
    var n;
    entries := map[];
    n := converter.Visit("", s);
    used, entries := converter.done, converter.entries;
    if n.Failure? {
      if Convertible(c, s) { GoodIsSensible(c, s); }
      return Failure(n.error), used, entries;
    }
    if converter.errors != [] {
      return Failure("JSON schema conversion failed"), used, entries;
    }
    r := Success(converter.table.rules);
    if Convertible(c, s) {
      RootDone(c, s, r.value, used, n.value);
      if SchemaValues.WellKept(s) && Mentions(s) == {} { AcceptedValues(c, s, r.value, used); }
    }
    if ConstantObject(c, s) { ReferencesRight(c, s, r.value, entries); }
  }

  lemma RootReady(c: Context, s: Schema)
    requires Convertible(c, s)
    ensures RefsOk(c, map["space" := SPACE_RULE], {}, {}, {}) && NameOk(c, {}, "", s)
  {
    hide Good, Spec, Mentions, TakesInside, TakesSelf;
    forall r, k | r in c.refs && k in Claims(c, r)
      ensures k != "space" && !TakesInside(c, true, "", s, k) && !TakesSelf(c, true, "", s, k)
    {
      assert FreeName(c, s, r, k);
      assert !Takes(c, true, "", s, k);
    }
  }

  lemma RootDone(c: Context, s: Schema, rules: Table, used: set<string>, n: string)
    requires Convertible(c, s) && GoodBuiltins(c.prims) && Intact(c.prims, rules) && Closed(c.prims, rules, {})
    requires Outcome(c, {}, map["space" := SPACE_RULE], {}, rules, used, "", s, n)
    ensures MeansSchema(c, s, rules, used) && n == "root"
  {
    hide Good, Spec, Mentions, GoodBuiltins, Intact, Closed, NoCapture, Grown;
    RootKey(c);
    assert Protected(c, map["space" := SPACE_RULE], {}, {}, "", s);
    assert used + {} == used;
    forall env: Env | Solves(env, rules) ensures Fulfils(c, s, used, env) {
      RootFulfils(c, s, rules, used, env);
    }
    LeastSolves(rules);
  }

  lemma RootFulfils(c: Context, s: Schema, rules: Table, used: set<string>, env: Env)
    requires RefsOk(c, rules, {}, used, {OwnKey(c, "", s)}) && "root" in rules && Means(c, rules, "root", s)
    requires Solves(env, rules) && Intact(c.prims, rules)
    ensures Fulfils(c, s, used, env)
  {
    hide JsonTexts.IsBlank;
    BuiltinTexts.SpaceDenotes(rules, env);
    forall r | r in used ensures r in c.refs && ItemLang(env, Ref(Target(c, r))) == Spec(c, env, c.refs[r]) {
      assert DoneOk(c, rules, used + {}, r);
    }
  }

  lemma {:induction false} GoodSensible(c: Context, name: string, s: Schema)
    requires Good(c, name, s)
    ensures Sensible(c, s)
    decreases s
  {
    match s
    case SUnion(alts) =>
      forall i | 0 <= i < |alts| ensures Sensible(c, alts[i]) { GoodSensible(c, AlternativeName(name, i), alts[i]); }
    case SObject(ps, _, add) =>
      forall i | 0 <= i < |ps| ensures Sensible(c, ps[i].schema) {
        GoodSensible(c, ChildName(name, ps[i].key), ps[i].schema);
      }
      if add.AdditionalOf? { GoodSensible(c, AdditionalName(name) + "-value", add.schema); }
    case STuple(items) =>
      forall i | 0 <= i < |items| ensures Sensible(c, items[i]) { GoodSensible(c, TupleItemName(name, i), items[i]); }
    case SArray(item, _, _) => GoodSensible(c, ChildName(name, "item"), item);
    case _ =>
  }

  lemma GoodIsSensible(c: Context, s: Schema)
    requires Convertible(c, s)
    ensures !MayFail(c, s)
  {
    hide Good, Sensible;
    GoodSensible(c, "", s);
    forall r | r in c.refs ensures Sensible(c, c.refs[r]) { GoodSensible(c, RefName(r), c.refs[r]); }
  }

  lemma ReferencesRight(c: Context, s: Schema, rules: Table, entries: map<string, string>)
    requires ConstantObject(c, s) && ConstantsDone(c, s, rules, entries, "root")
    requires "space" in rules && rules["space"] == SPACE_RULE
    ensures ReferencesRightIff(c, s, rules, entries)
  {
    hide EntryMeans, Means, EntriesDone;
    forall i | 0 <= i < |s.properties|
      ensures s.properties[i].key in entries
      ensures EntryMeans(c, rules, entries[s.properties[i].key],
                Property(s.properties[i].key, SConst(Own(c, s.properties[i].schema)))) <==>
              RightlyReferred(c, s.properties, i)
    {
      EntryRightIff(c, s.properties, i, rules, entries);
    }
  }
}
