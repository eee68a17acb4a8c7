/** Objects whose properties are constants, or refer to constants: what each reference comes to denote. A reference is
    looked up by the last part of its path among all the rules there are, so it can meet another's rule. */
module Constants {
  import opened Gbnf
  import opened Results
  import opened Rules
  import opened SchemaSpec
  import opened ConverterState
  import opened ObjectParts
  import LeastSolution
  import ObjectKeys
  import ObjectRule

  /** A name of letters that is neither built in nor used for every grammar. */
  predicate Word(c: Context, m: string) {
    && m != "" && (forall i :: 0 <= i < |m| ==> 'a' <= m[i] <= 'z' || 'A' <= m[i] <= 'Z')
    && m !in c.prims && m != "root" && m != "space"
  }

  predicate IsConstant(c: Context, s: Schema) {
    || (s.SConst? && '\\' !in s.value)
    || (s.SRef? && s.ref in c.refs && Word(c, RefName(s.ref)) && c.refs[s.ref].SConst? && '\\' !in c.refs[s.ref].value)
  }

  predicate AllConstant(c: Context, ps: seq<Property>) {
    forall i :: 0 <= i < |ps| ==> Word(c, ps[i].key) && IsConstant(c, ps[i].schema)
  }

  predicate ConstantObject(c: Context, s: Schema) {
    s.SObject? && s.additional.NoAdditional? && DistinctKeys(s.properties) && AllConstant(c, s.properties)
  }

  /** The constant that the schema describes. */
  function Own(c: Context, s: Schema): string
    requires IsConstant(c, s)
  {
    if s.SConst? then s.value else c.refs[s.ref].value
  }

  /** The constant that the rule `m` stands for when the first `i` properties have been visited: the first of them that
      refers to a schema by that name, or is called so itself, has settled it. */
  function Holder(c: Context, ps: seq<Property>, i: nat, m: string): Option<string>
    requires i <= |ps| && AllConstant(c, ps)
    decreases i, 0
  {
    if i == 0 then None
    else
      var before, p := Holder(c, ps, i - 1, m), ps[i - 1];
      if before.Some? then before
      else if p.schema.SRef? && RefName(p.schema.ref) == m then Some(Own(c, p.schema))
      else if p.key == m then Some(Got(c, ps, i - 1))
      else None
  }

  /** The constant that property `i` gets. */
  function Got(c: Context, ps: seq<Property>, i: nat): string
    requires i < |ps| && AllConstant(c, ps)
    decreases i, 1
  {
    var s := ps[i].schema;
    if s.SConst? then s.value
    else match Holder(c, ps, i, RefName(s.ref)) case Some(v) => v case None => Own(c, s)
  }

  /** The property denotes its own schema: it holds the constant itself, or refers to it by a name that was free or
      stood for the same constant. */
  predicate RightlyReferred(c: Context, ps: seq<Property>, i: nat)
    requires i < |ps| && AllConstant(c, ps)
  {
    var s := ps[i].schema;
    s.SRef? ==> match Holder(c, ps, i, RefName(s.ref)) case Some(v) => v == Own(c, s) case None => true
  }

  /** The properties as they are converted. */
  function Converted(c: Context, ps: seq<Property>): (r: seq<Property>)
    requires AllConstant(c, ps)
    ensures |r| == |ps| && forall i :: 0 <= i < |ps| ==> r[i] == Property(ps[i].key, SConst(Got(c, ps, i)))
  {
    seq(|ps|, i requires 0 <= i < |ps| => Property(ps[i].key, SConst(Got(c, ps, i))))
  }

  function ConvertedObject(c: Context, s: Schema): Schema
    requires ConstantObject(c, s)
  {
    s.(properties := Converted(c, s.properties))
  }

  // ---------------------------------------------------------------- the table

  ghost predicate HeldAt(c: Context, ps: seq<Property>, i: nat, t: Table, m: string)
    requires i <= |ps| && AllConstant(c, ps)
  {
    match Holder(c, ps, i, m)
    case None => m !in t
    case Some(v) => m in t && Means(c, t, m, SConst(v))
  }

  /** Names of letters are taken as said. */
  ghost predicate At(c: Context, ps: seq<Property>, i: nat, t: Table)
    requires i <= |ps| && AllConstant(c, ps)
  {
    "root" !in t && forall m :: Word(c, m) ==> HeldAt(c, ps, i, t, m)
  }

  lemma AtStart(c: Context, ps: seq<Property>)
    requires AllConstant(c, ps)
    ensures At(c, ps, 0, map["space" := SPACE_RULE])
  {
  }

  lemma WordKey(c: Context, m: string)
    requires Word(c, m)
    ensures KeyOf(c, m) == m
  {
    EscapeYieldsRuleName(m);
  }

  /** A rule added under a name of letters is found there, or under no such name. */
  lemma WordAdded(c: Context, t: Table, t': Table, key: string, body: Body, n: string)
    requires AddedAs(t, t', key, body, n) && Word(c, key)
    ensures forall m :: Word(c, m) ==> (m in t' <==> m in t || m == key)
    ensures "root" in t' ==> "root" in t
  {
    if n != key { NumberedName(key, n); }
  }

  /** So is one added under a name with a hyphen. */
  lemma HyphenAdded(c: Context, t: Table, t': Table, front: string, body: Body, n: string)
    requires AddedAs(t, t', Escape(front + "-kv"), body, n)
    ensures forall m :: Word(c, m) ==> (m in t' <==> m in t)
    ensures "root" in t' ==> "root" in t
  {
    EscapeTail(front, "-kv");
    var key := Escape(front) + "-kv";
    KeyIsNear(key, n);
    assert key[|key| - 3] == '-' && n[|key| - 3] == key[|key| - 3];
  }

  lemma StillHeld(c: Context, ps: seq<Property>, i: nat, t: Table, t': Table, m: string)
    requires i <= |ps| && AllConstant(c, ps) && HeldAt(c, ps, i, t, m) && Extends(t, t') && (m in t' <==> m in t)
    ensures HeldAt(c, ps, i, t', m)
  {
    if m in t { MeansMono(c, t, t', m, SConst(Holder(c, ps, i, m).value)); }
  }

  lemma {:induction false} ConstantMeans(c: Context, t: Table, v: string)
    ensures BodyMeans(c, t, ConstBody(v), SConst(v))
  {
    forall env: Env ensures BodyLang(env, ConstBody(v)) == Spec(c, env, SConst(v)) {
      SeqTwo(env, Lit(v), Ref("space"));
      BodyOfSeq(env, ConstBody(v));
    }
  }

  lemma {:induction false} NameMeans(c: Context, t: Table, m: string, s: Schema)
    requires Means(c, t, m, s)
    ensures BodyMeans(c, t, [Ref(m)], s)
  {
    forall env: Env | Solves(env, t) ensures BodyLang(env, [Ref(m)]) == Spec(c, env, s) {
      SeqOne(env, Ref(m));
    }
  }

  /** Visiting a property leaves the names as said, and its rule denotes what it gets. */
  lemma PropertyVisited(c: Context, ps: seq<Property>, i: nat, t: Table, t': Table, n: string)
    requires i < |ps| && AllConstant(c, ps) && At(c, ps, i, t) && Visited(c, {}, ps[i].key, ps[i].schema, t, t', n)
    ensures At(c, ps, i + 1, t') && Extends(t, t') && Means(c, t', n, SConst(Got(c, ps, i)))
  {
    var p := ps[i];
    WordKey(c, p.key);
    if p.schema.SConst? {
      ConstantVisited(c, ps, i, t, t', n);
    } else {
      var tm, m :| Referred(c, {}, p.key, p.schema.ref, t, tm, m, t', n);
      Looked(c, ps, i, t, tm, m);
      NameAdded(c, ps, i, t, tm, m, t', n);
    }
  }

  lemma ConstantVisited(c: Context, ps: seq<Property>, i: nat, t: Table, t': Table, n: string)
    requires i < |ps| && AllConstant(c, ps) && At(c, ps, i, t) && ps[i].schema.SConst?
    requires AddedAs(t, t', ps[i].key, ConstBody(ps[i].schema.value), n)
    ensures At(c, ps, i + 1, t') && Means(c, t', n, SConst(Got(c, ps, i)))
  {
    hide Means;
    var v := ps[i].schema.value;
    ConstantMeans(c, t, v);
    RuleMeans(c, t, t', SConst(v), n, ConstBody(v));
    WordAdded(c, t, t', ps[i].key, ConstBody(v), n);
    forall m | Word(c, m) ensures HeldAt(c, ps, i + 1, t', m) {
      assert HeldAt(c, ps, i, t, m);
      if m in t || m != ps[i].key {
        StillHeld(c, ps, i, t, t', m);
      } else {
        assert Got(c, ps, i) == v && m == n;
        assert Holder(c, ps, i + 1, m) == Some(v);
      }
    }
  }

  /** The reference's name is in the table afterwards, and is the one returned. */
  lemma Looked(c: Context, ps: seq<Property>, i: nat, t: Table, tm: Table, m: string)
    requires i < |ps| && AllConstant(c, ps) && At(c, ps, i, t) && ps[i].schema.SRef?
    requires LookedUp(c, {}, ps[i].schema.ref, t, tm, m)
    ensures m == RefName(ps[i].schema.ref) && Extends(t, tm) && m in tm && Means(c, tm, m, SConst(Got(c, ps, i)))
    ensures "root" !in tm && forall k :: Word(c, k) ==> (k in tm <==> k in t || k == m)
  {
    hide Means;
    var ref, v := ps[i].schema.ref, Own(c, ps[i].schema);
    assert HeldAt(c, ps, i, t, RefName(ref));
    if RefName(ref) !in t {
      WordKey(c, RefName(ref));
      ConstantMeans(c, t, v);
      RuleMeans(c, t, tm, SConst(v), m, ConstBody(v));
      WordAdded(c, t, tm, RefName(ref), ConstBody(v), m);
    }
  }

  lemma NameAdded(c: Context, ps: seq<Property>, i: nat, t: Table, tm: Table, m: string, t': Table, n: string)
    requires i < |ps| && AllConstant(c, ps) && At(c, ps, i, t) && ps[i].schema.SRef?
    requires m == RefName(ps[i].schema.ref) && Extends(t, tm) && m in tm && Means(c, tm, m, SConst(Got(c, ps, i)))
    requires "root" !in tm && forall k :: Word(c, k) ==> (k in tm <==> k in t || k == m)
    requires AddedAs(tm, t', ps[i].key, [Ref(m)], n)
    ensures At(c, ps, i + 1, t') && Extends(t, t') && Means(c, t', n, SConst(Got(c, ps, i)))
  {
    hide Means;
    var s := SConst(Got(c, ps, i));
    NameMeans(c, tm, m, s);
    RuleMeans(c, tm, t', s, n, [Ref(m)]);
    MeansMono(c, tm, t', m, s);
    WordAdded(c, tm, t', ps[i].key, [Ref(m)], n);
    forall k | Word(c, k) ensures HeldAt(c, ps, i + 1, t', k) {
      assert HeldAt(c, ps, i, t, k);
      if k in t || (k != m && k != ps[i].key) { StillHeld(c, ps, i, t, t', k); }
    }
  }

  // ---------------------------------------------------------------- the entries

  ghost predicate EntryMade(c: Context, resolving: set<string>, name: string, p: Property, t: Table, tm: Table,
                            value: string, t': Table, kv: string)
  {
    && Visited(c, resolving, ChildName(name, p.key), p.schema, t, tm, value)
    && AddedAs(tm, t', Escape(ChildName(name, p.key) + "-kv"), EntryBody(p.key, value), kv)
  }

  /** What the rules of a property add. */
  ghost predicate PropertyAdded(c: Context, resolving: set<string>, name: string, p: Property, t: Table, t': Table,
                                kv: string)
  {
    exists tm, value :: EntryMade(c, resolving, name, p, t, tm, value, t', kv)
  }

  /** The first properties have the entries of what they get. */
  ghost predicate MadeUpTo(c: Context, ps: seq<Property>, i: nat, t: Table, kvNames: map<string, string>)
    requires i <= |ps|
  {
    AllConstant(c, ps) ==> At(c, ps, i, t) && EntriesDone(c, t, Converted(c, ps), i, kvNames)
  }

  lemma NoneMade(c: Context, ps: seq<Property>, t: Table)
    requires AllConstant(c, ps) ==> At(c, ps, 0, t)
    ensures MadeUpTo(c, ps, 0, t, map[])
  {
  }

  lemma NextMade(c: Context, ps: seq<Property>, i: nat, t: Table, t': Table, kvNames: map<string, string>, kv: string)
    requires i < |ps| && DistinctKeys(ps) && MadeUpTo(c, ps, i, t, kvNames)
               && PropertyAdded(c, {}, "", ps[i], t, t', kv)
    ensures MadeUpTo(c, ps, i + 1, t', kvNames[ps[i].key := kv])
  {
    hide At, Means, Visited, Got, EntriesDone, EntryMeans, Word, Escape, KeyFor, PlainKey, ChildName;
    if AllConstant(c, ps) {
      assert Word(c, ps[i].key) by { KeyIsWord(c, ps, i); }
      WordIsPlain(c, ps[i].key);
      var tm, value :| EntryMade(c, {}, "", ps[i], t, tm, value, t', kv);
      PropertyVisited(c, ps, i, t, tm, value);
      HyphenAdded(c, tm, t', ps[i].key, EntryBody(ps[i].key, value), kv);
      AtLater(c, ps, i + 1, tm, t');
      var made := Converted(c, ps);
      EntryAdded(c, tm, t', made[i], value, kv);
      NextEntry(c, t, t', made, i, kvNames, kv);
    }
  }

  lemma KeyIsWord(c: Context, ps: seq<Property>, i: nat)
    requires i < |ps| && AllConstant(c, ps)
    ensures Word(c, ps[i].key)
  {
  }

  lemma WordIsPlain(c: Context, k: string)
    requires Word(c, k)
    ensures PlainKey(k) && ChildName("", k) == k
  {
    assert k[0] != '*';
    assert "" + "" + k == k;
  }

  lemma AtLater(c: Context, ps: seq<Property>, i: nat, t: Table, t': Table)
    requires i <= |ps| && AllConstant(c, ps) && At(c, ps, i, t) && Extends(t, t')
    requires ("root" in t' ==> "root" in t) && forall m :: Word(c, m) ==> (m in t' <==> m in t)
    ensures At(c, ps, i, t')
  {
    hide Means, Holder;
    forall m | Word(c, m) ensures HeldAt(c, ps, i, t', m) { StillHeld(c, ps, i, t, t', m); }
  }

  // ---------------------------------------------------------------- the object

  /** The object is the whole schema, the table being as at the start. */
  ghost predicate AtRoot(c: Context, name: string, s: Schema, resolving: set<string>, t: Table)
    requires s.SObject?
  {
    && name == "" && resolving == {} && DistinctKeys(s.properties)
    && (AllConstant(c, s.properties) ==> At(c, s.properties, 0, t))
  }

  /** The object and its entries denote what the properties get. */
  ghost predicate ConstantsDone(c: Context, s: Schema, t: Table, entries: map<string, string>, n: string)
    requires ConstantObject(c, s)
  {
    && n == "root" && Means(c, t, n, ConvertedObject(c, s))
    && EntriesDone(c, t, Converted(c, s.properties), |s.properties|, entries)
  }

  /** So does the text of its rule, while the name of the root is free. */
  ghost predicate ConstantsText(c: Context, s: Schema, t: Table, entries: map<string, string>, rule: Body)
    requires ConstantObject(c, s)
  {
    && "root" !in t && BodyMeans(c, t, rule, ConvertedObject(c, s))
    && EntriesDone(c, t, Converted(c, s.properties), |s.properties|, entries)
  }

  lemma {:induction false} ConvertedKeys(c: Context, ps: seq<Property>, required: set<string>, want: bool, i: nat)
    requires AllConstant(c, ps) && i <= |ps|
    ensures RequiredKeys(Converted(c, ps)[..i], required, want) == RequiredKeys(ps[..i], required, want)
  {
    if i > 0 {
      ConvertedKeys(c, ps, required, want, i - 1);
      assert ps[..i][..i - 1] == ps[..i - 1] && Converted(c, ps)[..i][..i - 1] == Converted(c, ps)[..i - 1];
    }
  }

  lemma RestsNotRoot(name: string, ks: seq<string>, t: Table, t': Table)
    requires ObjectRule.RestsAdded(name, ks, t, t') && "root" !in t
    ensures "root" !in t'
  {
    forall x ensures !Near(Escape(ChildName(name, x + "-rest")), "root") {
      EscapeTail(ChildName(name, x), "-rest");
      assert ChildName(name, x + "-rest") == ChildName(name, x) + "-rest";
    }
    assert "root" in t' ==> ObjectRule.IsRest(name, ks, "root");
  }

  lemma {:induction false} ConstantsWritten(c: Context, s: Schema, tm: Table, t: Table, kvNames: map<string, string>,
                                            rule: Body)
    requires ConstantObject(c, s) && MadeUpTo(c, s.properties, |s.properties|, tm, kvNames)
    requires ObjectRule.RestsAdded("", RequiredKeys(s.properties, s.required, false), tm, t)
    requires var required, optional := RequiredKeys(s.properties, s.required, true),
                 RequiredKeys(s.properties, s.required, false);
             ObjectKeys.NoStar(optional) ==> forall env: Env :: Solves(env, t) ==>
               BodyLang(env, rule) == ObjectRule.Enclosed(env, "{", ObjectKeys.Members(ObjectKeys.Comma(env),
                   ObjectRule.EntriesIn(env, kvNames), required, optional, !s.additional.NoAdditional?), "}")
    ensures ConstantsText(c, s, t, kvNames, rule)
  {
    hide Means, EntryMeans, ObjectRule.Enclosed, ObjectKeys.Members, ObjectRule.EntriesIn, Got, PlainKey;
    var ps, made, s' := s.properties, Converted(c, s.properties), ConvertedObject(c, s);
    ConvertedKeys(c, ps, s.required, true, |ps|);
    ConvertedKeys(c, ps, s.required, false, |ps|);
    assert ps[..|ps|] == ps && made[..|ps|] == made;
    forall i | 0 <= i < |made| ensures PlainKey(made[i].key) { WordIsPlain(c, ps[i].key); }
    ObjectTextMeans(c, tm, t, s', kvNames, rule);
    RestsNotRoot("", RequiredKeys(ps, s.required, false), tm, t);
    EntriesLater(c, tm, t, made, |ps|, kvNames);
  }

  lemma ConstantsAdded(c: Context, s: Schema, tm: Table, t: Table, kvNames: map<string, string>, rule: Body, n: string)
    requires ConstantObject(c, s) && ConstantsText(c, s, tm, kvNames, rule) && GoodBuiltins(c.prims)
    requires AddedAs(tm, t, KeyOf(c, ""), rule, n)
    ensures ConstantsDone(c, s, t, kvNames, n)
  {
    hide Means, EntryMeans;
    RootKey(c);
    RuleMeans(c, tm, t, ConvertedObject(c, s), n, rule);
    EntriesLater(c, tm, t, Converted(c, s.properties), |s.properties|, kvNames);
  }

  // ---------------------------------------------------------------- constants are told apart

  /** White space only makes a text longer. */
  lemma ShortestAfter(u: string, space: Lang, rest: Lang, v: string, w: string)
    requires w in Cat(Cat(iset{u}, space), rest)
    requires forall x :: x in rest ==> |x| >= |v| && (|x| == |v| ==> x == v)
    ensures |w| >= |u| + |v| && (|w| == |u| + |v| ==> w == u + v)
  {
    var i :| SplitAt(Cat(iset{u}, space), rest, w, i);
    InLitCat(u, space, w[..i]);
    assert w == w[..i] + w[i..];
    if |w| == |u| + |v| { assert w[..i] == u; }
  }

  /** The shortest entry is the one without white space. */
  lemma ShortestEntry(c: Context, env: Env, key: string, v: string, w: string)
    requires w in PropertySpec(c, env, Property(key, SConst(v)))
    ensures |w| >= |key| + 3 + |v|
    ensures |w| == |key| + 3 + |v| ==> w == "\"" + key + "\":" + v
  {
    hide Cat;
    var q, sp, value := "\"" + key + "\"", Space(env), Spec(c, env, SConst(v));
    forall x | x in value ensures |x| >= |v| && (|x| == |v| ==> x == v) {
      InLitCat(v, sp, x);
    }
    forall x | x in Cat(iset{":"}, Cat(sp, value))
      ensures |x| >= |":" + v| && (|x| == |":" + v| ==> x == ":" + v)
    {
      CatAssoc(iset{":"}, sp, value);
      ShortestAfter(":", sp, value, v, x);
    }
    ShortestAfter(q, sp, Cat(iset{":"}, Cat(sp, value)), ":" + v, w);
    assert q + (":" + v) == "\"" + key + "\":" + v;
  }

  lemma PlainEntry(c: Context, env: Env, key: string, v: string)
    requires "" in Space(env)
    ensures "\"" + key + "\":" + v in PropertySpec(c, env, Property(key, SConst(v)))
  {
    var q, sp := "\"" + key + "\"", Space(env);
    assert v + "" == v && "" + v == v && q + "" == q && q + (":" + v) == "\"" + key + "\":" + v;
    CatIntro(iset{v}, sp, v, "");
    CatIntro(sp, Cat(iset{v}, sp), "", v);
    CatIntro(iset{":"}, Cat(sp, Cat(iset{v}, sp)), ":", v);
    CatIntro(iset{q}, sp, q, "");
    CatIntro(PropertyKey(env, key), Cat(iset{":"}, Cat(sp, Cat(iset{v}, sp))), q, ":" + v);
  }

  lemma SpaceMayBeEmpty(t: Table, env: Env)
    requires "space" in t && t["space"] == SPACE_RULE && Solves(env, t)
    ensures "" in Space(env)
  {
    assert SeqLang(env, SPACE_RULE) == Eps();
  }

  /** An entry rule denotes the entry of one constant only. */
  lemma OneConstant(c: Context, t: Table, kv: string, key: string, v: string, v': string)
    requires "space" in t && t["space"] == SPACE_RULE && EntryMeans(c, t, kv, Property(key, SConst(v)))
    ensures EntryMeans(c, t, kv, Property(key, SConst(v'))) <==> v == v'
  {
    LeastSolution.LeastSolves(t);
    var env := LeastSolution.Least(t);
    SpaceMayBeEmpty(t, env);
    if EntryMeans(c, t, kv, Property(key, SConst(v'))) {
      PlainEntry(c, env, key, v);
      PlainEntry(c, env, key, v');
      ShortestEntry(c, env, key, v, "\"" + key + "\":" + v');
      ShortestEntry(c, env, key, v', "\"" + key + "\":" + v);
      assert ("\"" + key + "\":" + v)[|key| + 3..] == v && ("\"" + key + "\":" + v')[|key| + 3..] == v';
    }
  }

  /** Each property's entry denotes what its schema describes exactly if its reference is rightly found. */
  lemma EntryRightIff(c: Context, ps: seq<Property>, i: nat, t: Table, kvNames: map<string, string>)
    requires i < |ps| && AllConstant(c, ps) && "space" in t && t["space"] == SPACE_RULE
    requires EntriesDone(c, t, Converted(c, ps), |ps|, kvNames)
    ensures ps[i].key in kvNames
    ensures EntryMeans(c, t, kvNames[ps[i].key], Property(ps[i].key, SConst(Own(c, ps[i].schema)))) <==>
              RightlyReferred(c, ps, i)
  {
    hide EntryMeans;
    var made := Converted(c, ps);
    assert made[i] == Property(ps[i].key, SConst(Got(c, ps, i)));
    OneConstant(c, t, kvNames[ps[i].key], ps[i].key, Got(c, ps, i), Own(c, ps[i].schema));
  }
}
