/** What a conversion keeps true: how the rule table may grow, and what the references resolved so far denote. */
module ConverterState {
  import opened Gbnf
  import opened Rules
  import opened SchemaSpec
  import JsonTexts
  import Pattern

  // ---------------------------------------------------------------- growth of the table

  /** A new rule called `k` belongs to schema `s`, visited as `name`, or to a reference done by now. While only parts
      of `s` have been visited, the name of `s` itself is not among them. */
  ghost predicate Explained(c: Context, inside: bool, top: bool, name: string, s: Schema, done: set<string>,
      k: string) {
    || (if inside then TakesInside(c, top, name, s, k) else Takes(c, top, name, s, k))
    || ByReference(c, done, k)
  }

  /** A name made or claimed for a reference that is done. */
  ghost predicate ByReference(c: Context, done: set<string>, k: string) {
    exists r :: r in done && r in c.refs && (Takes(c, false, RefName(r), c.refs[r], k) || k in Claims(c, r))
  }

  /** From table `t0` with references `d0` done to `t1` with `d1`: nothing is lost or changed, and every new rule is
      explained. */
  ghost predicate Grown(c: Context, inside: bool, top: bool, name: string, s: Schema, t0: Table, d0: set<string>,
                        t1: Table, d1: set<string>)
  {
    && Extends(t0, t1) && d0 <= d1
    && forall k :: k in t1 && k !in t0 ==> Explained(c, inside, top, name, s, d1, k)
  }

  lemma GrownNone(c: Context, inside: bool, top: bool, name: string, s: Schema, t: Table, d: set<string>)
    ensures Grown(c, inside, top, name, s, t, d, t, d)
  {
  }

  /** One step after another. */
  lemma GrownTrans(c: Context, inside: bool, top: bool, name: string, s: Schema, t0: Table, d0: set<string>,
                   t1: Table, d1: set<string>, t2: Table, d2: set<string>)
    requires Grown(c, inside, top, name, s, t0, d0, t1, d1) && Grown(c, inside, top, name, s, t1, d1, t2, d2)
    ensures Grown(c, inside, top, name, s, t0, d0, t2, d2)
  {
    forall k | k in t0 ensures k in t2 && t2[k] == t0[k] { assert k in t1; }
    forall k | k in t2 && k !in t0 ensures Explained(c, inside, top, name, s, d2, k) {
      if k in t1 { assert Explained(c, inside, top, name, s, d1, k); }
    }
  }

  /** A part of a schema, under the name it is given. */
  ghost predicate IsPart(c: Context, name: string, s: Schema, partName: string, part: Schema) {
    && Mentions(part) <= Mentions(s)
    && forall top, k :: Takes(c, top, partName, part, k) ==> TakesInside(c, top, name, s, k)
  }

  lemma GrownByPart(c: Context, top: bool, name: string, s: Schema, partName: string, part: Schema, t0: Table,
                    d0: set<string>, t1: Table, d1: set<string>)
    requires IsPart(c, name, s, partName, part) && Grown(c, false, top, partName, part, t0, d0, t1, d1)
    ensures Grown(c, true, top, name, s, t0, d0, t1, d1)
  {
    forall k | k in t1 && k !in t0 ensures Explained(c, true, top, name, s, d1, k) {
      assert Explained(c, false, top, partName, part, d1, k);
    }
  }

  /** Rules added for the schema as a whole. */
  lemma GrownByHelpers(c: Context, top: bool, name: string, s: Schema, t0: Table, t1: Table, d: set<string>)
    requires Extends(t0, t1) && forall k :: k in t1 && k !in t0 ==> TakesInside(c, top, name, s, k)
    ensures Grown(c, true, top, name, s, t0, d, t1, d)
  {
  }

  // ---------------------------------------------------------------- references

  /** A rule added under the name `key`, or that with a number if the name is taken by another. */
  ghost predicate AddedAs(t: Table, t': Table, key: string, body: Body, n: string) {
    t' == t[n := body] && Extends(t, t') && KeyFor(key, n) && (key !in t ==> n == key)
  }

  /** In every solution of the table, the text denotes what the schema describes. */
  ghost predicate BodyMeans(c: Context, t: Table, body: Body, s: Schema) {
    forall env: Env :: Solves(env, t) ==> BodyLang(env, body) == Spec(c, env, s)
  }

  /** In every solution of the table, the name `n` denotes what the schema describes. */
  ghost predicate Means(c: Context, t: Table, n: string, s: Schema) {
    forall env: Env :: Solves(env, t) ==> ItemLang(env, Ref(n)) == Spec(c, env, s)
  }

  lemma MeansMono(c: Context, t: Table, t': Table, n: string, s: Schema)
    requires Extends(t, t') && Means(c, t, n, s)
    ensures Means(c, t', n, s)
  {
    forall env: Env | Solves(env, t') ensures ItemLang(env, Ref(n)) == Spec(c, env, s) {
      SolvesMono(env, t, t');
    }
  }

  /** A claimed name in use denotes the schema it is claimed for, or its rule is being added, as `own`. */
  ghost predicate ClaimOk(c: Context, t: Table, resolving: set<string>, done: set<string>, own: set<string>, r: string,
                          k: string)
    requires r in c.refs
  {
    k in t ==> (r in done && Means(c, t, k, c.refs[r])) || (r in resolving && k in own)
  }

  /** A reference that is done denotes its schema, and what that mentions is done or underway. */
  ghost predicate DoneOk(c: Context, t: Table, known: set<string>, r: string) {
    r in c.refs && Target(c, r) in t && Means(c, t, Target(c, r), c.refs[r]) && Mentions(c.refs[r]) <= known
  }

  ghost predicate RefsOk(c: Context, t: Table, resolving: set<string>, done: set<string>, own: set<string>) {
    && (forall r, k :: r in c.refs && k in Claims(c, r) ==> ClaimOk(c, t, resolving, done, own, r, k))
    && forall r :: r in done ==> DoneOk(c, t, done + resolving, r)
  }

  /** The names a schema takes are none of those claimed, if it is not a referenced one itself; then the only one is its
      own. And only the schema without a name is the root. */
  ghost predicate NameOk(c: Context, resolving: set<string>, name: string, s: Schema) {
    && (forall r, k :: r in c.refs && k in Claims(c, r) ==>
          && !TakesInside(c, resolving == {}, name, s, k)
          && (TakesSelf(c, resolving == {}, name, s, k) ==> IsOwn(c, resolving, name, s, r, k)))
    && (forall r :: r in resolving && r in c.refs && !Settled(c, r) ==> Avoids(c, s, r))
    && !TakesInside(c, resolving == {}, name, s, "root")
  }

  ghost predicate IsOwn(c: Context, resolving: set<string>, name: string, s: Schema, r: string, k: string)
    requires r in c.refs
  {
    r in resolving && name == RefName(r) && s == c.refs[r] && k == OwnKey(c, name, s)
  }

  lemma DoneGrown(c: Context, t: Table, t': Table, done: set<string>, known: set<string>)
    requires Extends(t, t') && forall r :: r in done ==> DoneOk(c, t, known, r)
    ensures forall r :: r in done ==> DoneOk(c, t', known, r)
  {
    forall r | r in done ensures DoneOk(c, t', known, r) { MeansMono(c, t, t', Target(c, r), c.refs[r]); }
  }

  lemma ClaimGrown(c: Context, t: Table, t': Table, resolving: set<string>, done: set<string>, own: set<string>,
      r: string,
                   k: string)
    requires Extends(t, t') && r in c.refs && k in t && ClaimOk(c, t, resolving, done, own, r, k)
    ensures ClaimOk(c, t', resolving, done, own, r, k)
  {
    if Means(c, t, k, c.refs[r]) { MeansMono(c, t, t', k, c.refs[r]); }
  }

  /** Growth by rules made inside a schema keeps the references right. */
  lemma RefsOkGrown(c: Context, resolving: set<string>, name: string, s: Schema, t: Table, done: set<string>, t': Table)
    requires NameOk(c, resolving, name, s) && RefsOk(c, t, resolving, done, {})
    requires Extends(t, t') && forall k :: k in t' && k !in t ==> TakesInside(c, resolving == {}, name, s, k)
    ensures RefsOk(c, t', resolving, done, {})
  {
    DoneGrown(c, t, t', done, done + resolving);
    forall r, k | r in c.refs && k in Claims(c, r) ensures ClaimOk(c, t', resolving, done, {}, r, k) {
      assert ClaimOk(c, t, resolving, done, {}, r, k);
      if k in t { ClaimGrown(c, t, t', resolving, done, {}, r, k); }
    }
  }

  // ---------------------------------------------------------------- the outcome of a visit

  /** The schema is the root or a reference being resolved, and its name is free. */
  ghost predicate Protected(c: Context, t: Table, resolving: set<string>, done: set<string>, name: string, s: Schema) {
    && OwnKey(c, name, s) !in t
    && (name == "" || (!s.SType? && exists r :: r in resolving && r in c.refs && name == RefName(r) && s == c.refs[r]))
  }

  /** A plain type that goes by its own name. */
  predicate PlainType(name: string, s: Schema) { s.SType? && name != "" && s.name == s.prim }

  /** What visiting schema `s` under `name` achieves, going from `t0`, `d0` to `t1`, `d1` and returning `n`. */
  ghost predicate Outcome(c: Context, resolving: set<string>, t0: Table, d0: set<string>, t1: Table, d1: set<string>,
                          name: string, s: Schema, n: string)
  {
    && Grown(c, false, resolving == {}, name, s, t0, d0, t1, d1)
    && RefsOk(c, t1, resolving, d1, {OwnKey(c, name, s)})
    && (d1 - d0) !! resolving && Mentions(s) <= d1 + resolving
    && n in t1 && Means(c, t1, n, s)
    && (Protected(c, t0, resolving, d0, name, s) || PlainType(name, s) ==> n == OwnKey(c, name, s))
  }

  /** While the parts of `s` are visited. */
  ghost predicate Inside(c: Context, resolving: set<string>, t0: Table, d0: set<string>, t: Table, d: set<string>,
                         name: string, s: Schema)
  {
    && Grown(c, true, resolving == {}, name, s, t0, d0, t, d)
    && RefsOk(c, t, resolving, d, {}) && (d - d0) !! resolving
  }

  lemma InsideBegins(c: Context, resolving: set<string>, t: Table, d: set<string>, name: string, s: Schema)
    requires RefsOk(c, t, resolving, d, {})
    ensures Inside(c, resolving, t, d, t, d, name, s)
  {
    GrownNone(c, true, resolving == {}, name, s, t, d);
  }

  lemma NotDone(c: Context, t: Table, resolving: set<string>, d: set<string>, r: string)
    requires RefsOk(c, t, resolving, d, {}) && Target(c, r) !in t
    ensures r !in d
  {
  }

  /** A protected name stays free. */
  lemma StaysFree(c: Context, root: Schema, resolving: set<string>, t0: Table, d0: set<string>, t: Table,
                  d: set<string>, name: string, s: Schema)
    requires NoCapture(c, root) && NameOk(c, resolving, name, s) && GoodBuiltins(c.prims)
    requires RefsOk(c, t0, resolving, d0, {}) && Inside(c, resolving, t0, d0, t, d, name, s)
    requires Protected(c, t0, resolving, d0, name, s)
    ensures OwnKey(c, name, s) !in t
  {
    var k := OwnKey(c, name, s);
    if k in t {
      assert Explained(c, true, resolving == {}, name, s, d, k);
      if name == "" {
        RootKey(c);
        RootIsFree(c, root, d);
      } else {
        var r :| r in resolving && r in c.refs && name == RefName(r) && s == c.refs[r];
        assert k in Claims(c, r);
        NotDone(c, t0, resolving, d0, r);
        OnlyByItself(c, root, d, r, k);
      }
    }
  }

  lemma RootIsFree(c: Context, root: Schema, d: set<string>)
    requires NoCapture(c, root)
    ensures !ByReference(c, d, "root")
  {
    forall r | r in d && r in c.refs ensures "root" !in Claims(c, r)
        && !Takes(c, false, RefName(r), c.refs[r], "root") {
      assert "root" in Claims(c, r) ==> FreeName(c, root, r, "root");
    }
  }

  /** The own name of a referenced schema is explained by that reference only. */
  lemma OnlyByItself(c: Context, root: Schema, d: set<string>, r: string, k: string)
    requires NoCapture(c, root) && r in c.refs && k in Claims(c, r) && k == OwnKey(c, RefName(r), c.refs[r])
    ensures ByReference(c, d, k) ==> r in d
  {
    if r' :| r' in d && r' in c.refs && (Takes(c, false, RefName(r'), c.refs[r'], k) || k in Claims(c, r')) {
      assert FreeName(c, root, r, k);
      if r' != r {
        assert k in Claims(c, r') && FreeName(c, root, r', k);
        NearItself(k);
        assert TakesSelf(c, false, RefName(r), c.refs[r], k);
        assert Takes(c, false, RefName(r), c.refs[r], k);
      }
    }
  }

  lemma NearItself(k: string)
    ensures Near(k, k)
  {
    assert k[|k|..] == "";
  }

  lemma RootKey(c: Context)
    requires GoodBuiltins(c.prims)
    ensures KeyOf(c, "") == "root" && RuleNameOf(c, "") == "root"
  {
    EscapeYieldsRuleName("root");
  }

  /** The name `n` is the schema's to take, or claimed for the reference that the schema is. */
  ghost predicate MayBe(c: Context, resolving: set<string>, name: string, s: Schema, d: set<string>, n: string) {
    || TakesSelf(c, resolving == {}, name, s, n)
    || (s.SRef? && s.ref in d && Sole(c, s.ref, n))
  }

  /** The rule of the schema itself is added, as `n`. */
  lemma OwnAdded(c: Context, resolving: set<string>, t0: Table, d0: set<string>, tm: Table, d: set<string>, t1: Table,
                 name: string, s: Schema, n: string)
    requires NameOk(c, resolving, name, s) && Inside(c, resolving, t0, d0, tm, d, name, s) && Extends(tm, t1)
    requires forall k :: k in t1 && k !in tm ==> k == n || TakesInside(c, resolving == {}, name, s, k)
    requires (n in tm || MayBe(c, resolving, name, s, d, n)) && Means(c, t1, n, s)
    ensures Grown(c, false, resolving == {}, name, s, t0, d0, t1, d)
    ensures RefsOk(c, t1, resolving, d, {OwnKey(c, name, s)})
  {
    OwnGrown(c, resolving == {}, t0, d0, tm, d, t1, name, s, n);
    OwnRefs(c, resolving, tm, d, t1, name, s, n);
  }

  lemma OwnGrown(c: Context, top: bool, t0: Table, d0: set<string>, tm: Table, d: set<string>, t1: Table, name: string,
                 s: Schema, n: string)
    requires Grown(c, true, top, name, s, t0, d0, tm, d) && Extends(tm, t1)
    requires forall k :: k in t1 && k !in tm ==> k == n || TakesInside(c, top, name, s, k)
    requires n in tm || TakesSelf(c, top, name, s, n) || (s.SRef? && s.ref in d && Sole(c, s.ref, n))
    ensures Grown(c, false, top, name, s, t0, d0, t1, d)
  {
    hide TakesInside, TakesSelf;
    forall k | k in t1 && k !in t0 ensures Explained(c, false, top, name, s, d, k) {
      if k in tm {
        assert Explained(c, true, top, name, s, d, k);
      } else if k == n {
        assert !TakesSelf(c, top, name, s, k) ==> ByReference(c, d, k);
      }
    }
  }

  lemma OwnRefs(c: Context, resolving: set<string>, tm: Table, d: set<string>, t1: Table, name: string, s: Schema,
                n: string)
    requires NameOk(c, resolving, name, s) && RefsOk(c, tm, resolving, d, {}) && Extends(tm, t1)
    requires forall k :: k in t1 && k !in tm ==> k == n || TakesInside(c, resolving == {}, name, s, k)
    requires (n in tm || MayBe(c, resolving, name, s, d, n)) && Means(c, t1, n, s)
    ensures RefsOk(c, t1, resolving, d, {OwnKey(c, name, s)})
  {
    hide TakesInside, TakesSelf, MayBe, OwnKey, Claims, Means, DoneOk;
    DoneGrown(c, tm, t1, d, d + resolving);
    forall r, k | r in c.refs && k in Claims(c, r) ensures ClaimOk(c, t1, resolving, d, {OwnKey(c, name, s)}, r, k) {
      assert ClaimOk(c, tm, resolving, d, {}, r, k);
      if k in tm {
        ClaimGrown(c, tm, t1, resolving, d, {}, r, k);
      } else if k in t1 {
        NewClaim(c, resolving, d, t1, name, s, n, r);
      }
    }
  }

  lemma NewClaim(c: Context, resolving: set<string>, d: set<string>, t: Table, name: string, s: Schema, n: string,
                 r: string)
    requires NameOk(c, resolving, name, s) && r in c.refs && n in Claims(c, r)
    requires MayBe(c, resolving, name, s, d, n) && Means(c, t, n, s)
    requires forall r :: r in d ==> DoneOk(c, t, d + resolving, r)
    ensures ClaimOk(c, t, resolving, d, {OwnKey(c, name, s)}, r, n)
  {
    if TakesSelf(c, resolving == {}, name, s, n) {
      assert IsOwn(c, resolving, name, s, r, n);
    } else {
      assert r == s.ref && DoneOk(c, t, d + resolving, r);
      forall env: Env | Solves(env, t) ensures ItemLang(env, Ref(n)) == Spec(c, env, c.refs[r]) {
        assert ItemLang(env, Ref(n)) == Spec(c, env, SRef(r));
      }
    }
  }

  /** Adding the schema's own rule, after everything it needs, completes the visit. */
  lemma Finish(c: Context, root: Schema, resolving: set<string>, t0: Table, d0: set<string>, tm: Table, d: set<string>,
               t1: Table, name: string, s: Schema, n: string, body: Body)
    requires NoCapture(c, root) && GoodBuiltins(c.prims) && NameOk(c, resolving, name, s)
    requires RefsOk(c, t0, resolving, d0, {}) && Inside(c, resolving, t0, d0, tm, d, name, s)
    requires AddedAs(tm, t1, KeyOf(c, name), body, n) && BodyMeans(c, tm, body, s)
    requires Mentions(s) <= d + resolving && !s.SType?
    ensures Outcome(c, resolving, t0, d0, t1, d, name, s, n)
  {
    hide NoCapture, Spec, GoodBuiltins, RefsOk, NameOk, BodyMeans;
    KeyIsNear(KeyOf(c, name), n);
    RuleMeans(c, tm, t1, s, n, body);
    assert s.SRef? ==> s.ref in Mentions(s);
    OwnAdded(c, resolving, t0, d0, tm, d, t1, name, s, n);
    if Protected(c, t0, resolving, d0, name, s) { StaysFree(c, root, resolving, t0, d0, tm, d, name, s); }
  }

  lemma RuleMeans(c: Context, tm: Table, t1: Table, s: Schema, n: string, body: Body)
    requires t1 == tm[n := body] && Extends(tm, t1) && BodyMeans(c, tm, body, s)
    ensures Means(c, t1, n, s)
  {
    forall env: Env | Solves(env, t1) ensures ItemLang(env, Ref(n)) == Spec(c, env, s) {
      SolvesMono(env, tm, t1);
      assert n in t1;
    }
  }

  // ---------------------------------------------------------------- built-in rules

  /** The built-in rule `p`, and those it needs, are among the ones the schema may bring in. */
  ghost predicate NeededInside(c: Context, name: string, s: Schema, p: string) {
    forall top, k :: Needs(c.prims, p, k) ==> TakesInside(c, top, name, s, k)
  }

  lemma OwnBuiltin(c: Context, name: string, s: Schema)
    ensures s.SLength? ==> NeededInside(c, name, s, "char")
    ensures s.SFormat? ==> NeededInside(c, name, s, s.prim)
  {
  }

  ghost predicate IsBuiltin(c: Context, t: Table, p: string) {
    forall env: Env :: Solves(env, t) ==> ItemLang(env, Ref(p)) == JsonTexts.TextsOfRule(p)
  }

  lemma BuiltinAdded(c: Context, resolving: set<string>, name: string, s: Schema, t0: Table, d0: set<string>,
                     tm: Table, d: set<string>, t1: Table, p: string)
    requires NameOk(c, resolving, name, s) && Inside(c, resolving, t0, d0, tm, d, name, s)
    requires p in c.prims && NeededInside(c, name, s, p) && Extends(tm, t1) && p in t1 && t1[p] == c.prims[p].content
    requires Held(c, t1, p)
    requires forall k :: k in t1 ==> k in tm || k == p || Needs(c.prims, p, k)
    ensures Inside(c, resolving, t0, d0, t1, d, name, s) && RefsOk(c, t1, resolving, d, {}) && IsBuiltin(c, t1, p)
  {
    hide NameOk, TakesInside, Grown, RefsOk;
    NeedsItself(c.prims, p);
    HelpersInside(c, resolving, name, s, t0, d0, tm, d, t1);
    forall env: Env | Solves(env, t1) ensures ItemLang(env, Ref(p)) == JsonTexts.TextsOfRule(p) {
      PrimMeans(c, t1, p, p, env);
    }
  }

  lemma NeedsItself(prims: Builtins, p: string)
    ensures Needs(prims, p, p)
  {
  }

  // ---------------------------------------------------------------- plain types

  /** The name under which the rule of a plain type is added. */
  function TypeRule(c: Context, name: string, s: Schema): string
    requires s.SType?
  {
    if RuleNameOf(c, name) == "root" then "root" else s.name
  }

  lemma TypeName(c: Context, name: string, s: Schema)
    requires GoodBuiltins(c.prims) && s.SType?
    ensures RuleNameOf(c, name) == "root" <==> name == ""
    ensures Escape(TypeRule(c, name, s)) == OwnKey(c, name, s)
  {
    RootKey(c);
    if IsReserved(c.prims, name) { assert (name + "-")[|name|] == '-'; }
  }

  /** The built-in rules stay what they are. */
  lemma TypeKeeps(c: Context, name: string, s: Schema)
    requires GoodBuiltins(c.prims) && s.SType? && Good(c, name, s)
    ensures s.prim in c.prims && (TypeRule(c, name, s) == s.prim || Escape(TypeRule(c, name, s)) !in c.prims)
    ensures PlainType(name, s) ==> TypeRule(c, name, s) == s.prim == OwnKey(c, name, s)
  {
    RootKey(c);
    TypeName(c, name, s);
    EscapeYieldsRuleName(s.name);
  }

  /** The built-in rule can be relied on: it is there, with all it needs. */
  ghost predicate Held(c: Context, t: Table, p: string) {
    Meant(c.prims) && Intact(c.prims, t) && Closed(c.prims, t, {}) && p in c.prims && DepsIn(c.prims, t, p)
  }

  /** A built-in rule, under whatever name, denotes its texts. */
  lemma PrimMeans(c: Context, t: Table, n: string, p: string, env: Env)
    requires Held(c, t, p) && n in t && t[n] == c.prims[p].content && Solves(env, t)
    ensures ItemLang(env, Ref(n)) == JsonTexts.TextsOfRule(p)
  {
    hide BodyLang, JsonTexts.TextsOfRule;
  }

  /** Having added the built-in rule under that name completes the visit. */
  lemma TypeDone(c: Context, root: Schema, resolving: set<string>, t0: Table, d: set<string>, t1: Table, name: string,
                 s: Schema, n: string)
    requires NoCapture(c, root) && GoodBuiltins(c.prims) && NameOk(c, resolving, name, s) && s.SType?
    requires RefsOk(c, t0, resolving, d, {}) && Extends(t0, t1) && s.prim in c.prims
    requires n in t1 && t1[n] == c.prims[s.prim].content && Held(c, t1, s.prim)
    requires forall k :: k in t1 ==> k in t0 || k == n || Needs(c.prims, s.prim, k)
    requires KeyFor(OwnKey(c, name, s), n)
               && (PlainType(name, s) || OwnKey(c, name, s) !in t0 ==> n == OwnKey(c, name, s))
    ensures Outcome(c, resolving, t0, d, t1, d, name, s, n)
  {
    hide NoCapture, GoodBuiltins, NameOk, RefsOk, Intact, Closed, Meant, JsonTexts.TextsOfRule, Needs, Escape;
    KeyIsNear(OwnKey(c, name, s), n);
    InsideBegins(c, resolving, t0, d, name, s);
    forall env: Env | Solves(env, t1) ensures ItemLang(env, Ref(n)) == Spec(c, env, s) {
      PrimMeans(c, t1, n, s.prim, env);
    }
    OwnAdded(c, resolving, t0, d, t0, d, t1, name, s, n);
  }

  /** The rule of a pattern completes the visit. */
  lemma PatternDone(c: Context, resolving: set<string>, t0: Table, d: set<string>, t1: Table, name: string, s: Schema,
                    n: string)
    requires GoodBuiltins(c.prims) && NameOk(c, resolving, name, s) && s.SPattern?
    requires RefsOk(c, t0, resolving, d, {}) && Extends(t0, t1) && n in t1 && KeyFor(KeyOf(c, name), n)
    requires forall k :: k in t1 && k !in t0 ==> Pattern.Auxiliary(RuleNameOf(c, name), k) || k == n
    requires KeyOf(c, name) !in t0 && !Near("dot", KeyOf(c, name)) ==> n == KeyOf(c, name)
    requires Means(c, t1, n, s)
    ensures Outcome(c, resolving, t0, d, t1, d, name, s, n)
  {
    hide Near, GoodBuiltins;
    KeyIsNear(KeyOf(c, name), n);
    InsideBegins(c, resolving, t0, d, name, s);
    OwnAdded(c, resolving, t0, d, t0, d, t1, name, s, n);
    if Protected(c, t0, resolving, d, name, s) { NotCalledDot(c, resolving, name, s); }
  }

  /** No pattern that a reference may mean is called like the rule for a dot. */
  lemma NotCalledDot(c: Context, resolving: set<string>, name: string, s: Schema)
    requires GoodBuiltins(c.prims) && NameOk(c, resolving, name, s) && s.SPattern?
    requires name == "" || exists r :: r in resolving && r in c.refs && name == RefName(r) && s == c.refs[r]
    ensures !Near("dot", KeyOf(c, name))
  {
    RootKey(c);
    if r :| r in resolving && r in c.refs && name == RefName(r) && s == c.refs[r] {
      assert KeyOf(c, name) in Claims(c, r);
      assert !TakesInside(c, resolving == {}, name, s, KeyOf(c, name));
    }
  }

  // ---------------------------------------------------------------- resolving

  /** Beginning to resolve a reference whose rule is not there. */
  lemma BeginResolve(c: Context, root: Schema, t: Table, resolving: set<string>, done: set<string>, ref: string)
    requires NoCapture(c, root) && RefsOk(c, t, resolving, done, {})
    requires ref in c.refs && ref !in resolving
    requires forall r :: r in resolving && r in c.refs && !Settled(c, r) ==> Avoids(c, SRef(ref), r)
    ensures RefsOk(c, t, resolving + {ref}, done, {})
    ensures NameOk(c, resolving + {ref}, RefName(ref), c.refs[ref])
  {
    var more := resolving + {ref};
    forall r, k | r in c.refs && k in Claims(c, r) ensures ClaimOk(c, t, more, done, {}, r, k) {
      assert ClaimOk(c, t, resolving, done, {}, r, k);
    }
    forall r | r in done ensures DoneOk(c, t, done + more, r) {
      assert DoneOk(c, t, done + resolving, r);
    }
    forall r, k | r in c.refs && k in Claims(c, r)
      ensures !TakesInside(c, false, RefName(ref), c.refs[ref], k)
      ensures TakesSelf(c, false, RefName(ref), c.refs[ref], k) ==> IsOwn(c, more, RefName(ref), c.refs[ref], r, k)
    {
      assert FreeName(c, root, r, k);
    }
    forall r | r in more && r in c.refs && !Settled(c, r) ensures Avoids(c, c.refs[ref], r) {
      if r != ref { AvoidsReferred(c, ref, r); }
    }
    assert !Takes(c, false, RefName(ref), c.refs[ref], "root");
  }

  /** A reference to be resolved on behalf of a schema that is that reference. */
  lemma ReferenceReady(c: Context, root: Schema, t: Table, resolving: set<string>, done: set<string>, name: string,
                       ref: string)
    requires NoCapture(c, root) && RefsOk(c, t, resolving, done, {}) && NameOk(c, resolving, name, SRef(ref))
    requires ref in c.refs && ref !in resolving
    ensures RefsOk(c, t, resolving + {ref}, done, {})
    ensures NameOk(c, resolving + {ref}, RefName(ref), c.refs[ref])
  {
    hide NoCapture, RefsOk;
    BeginResolve(c, root, t, resolving, done, ref);
  }

  lemma AvoidsReferred(c: Context, ref: string, r: string)
    requires ref in c.refs && Avoids(c, SRef(ref), r)
    ensures Avoids(c, c.refs[ref], r) && r != ref
  {
    var refs: set<string> :| Mentions(SRef(ref)) <= refs && ClosedRefs(c, refs) && r !in refs;
    assert ref in Mentions(SRef(ref));
  }

  /** In every solution, two names denote the same. */
  ghost predicate SameRule(t: Table, n: string, m: string) {
    forall env: Env :: Solves(env, t) ==> ItemLang(env, Ref(n)) == ItemLang(env, Ref(m))
  }

  /** And being done with it: the name returned means the schema, as does the one the reference stands for. */
  lemma EndResolve(c: Context, root: Schema, t0: Table, t1: Table, resolving: set<string>, d0: set<string>,
                   d1: set<string>, ref: string, n: string)
    requires NoCapture(c, root) && GoodBuiltins(c.prims) && RefsOk(c, t0, resolving, d0, {})
    requires ref in c.refs && RefName(ref) !in t0 && ref !in resolving
    requires Outcome(c, resolving + {ref}, t0, d0, t1, d1, RefName(ref), c.refs[ref], n)
    ensures RefsOk(c, t1, resolving, d1 + {ref}, {}) && SameRule(t1, n, Target(c, ref))
    ensures (d1 + {ref} - d0) !! resolving
    ensures forall k :: k in t1 && k !in t0 ==> ByReference(c, d1 + {ref}, k)
  {
    hide NoCapture, GoodBuiltins, RefsOk, Means, Target, RefName, Grown, Claims;
    var s := c.refs[ref];
    TargetMeans(c, root, t0, t1, resolving, d0, d1, ref, n);
    forall env: Env | Solves(env, t1) ensures ItemLang(env, Ref(n)) == ItemLang(env, Ref(Target(c, ref))) {
      BothMean(c, t1, n, Target(c, ref), s, env);
    }
    forall r, k | r in resolving && r in c.refs && k in Claims(c, r) ensures k != Target(c, ref) {
      ClaimedByOne(c, root, ref, r, k);
    }
    ResolvedRefs(c, t1, resolving, d1, ref);
    ResolvedGrown(c, t0, t1, d0, d1, ref);
  }

  /** What one reference claims is not what another stands for. */
  lemma ClaimedByOne(c: Context, root: Schema, ref: string, r: string, k: string)
    requires NoCapture(c, root) && ref in c.refs && r in c.refs && r != ref && k in Claims(c, r)
    ensures k != Target(c, ref)
  {
    NearItself(k);
    assert FreeName(c, root, r, k);
    assert !Takes(c, false, RefName(ref), c.refs[ref], k);
    assert !TakesSelf(c, false, RefName(ref), c.refs[ref], k);
  }

  lemma OutcomeGrows(c: Context, resolving: set<string>, t0: Table, d0: set<string>, t1: Table, d1: set<string>,
                     name: string, s: Schema, n: string)
    requires Outcome(c, resolving, t0, d0, t1, d1, name, s, n)
    ensures Extends(t0, t1) && d0 <= d1
  {
  }

  lemma BothMean(c: Context, t: Table, n: string, m: string, s: Schema, env: Env)
    requires Means(c, t, n, s) && Means(c, t, m, s) && Solves(env, t)
    ensures ItemLang(env, Ref(n)) == ItemLang(env, Ref(m))
  {
  }

  lemma TargetMeans(c: Context, root: Schema, t0: Table, t1: Table, resolving: set<string>, d0: set<string>,
                    d1: set<string>, ref: string, n: string)
    requires NoCapture(c, root) && GoodBuiltins(c.prims) && RefsOk(c, t0, resolving, d0, {})
    requires ref in c.refs && ref !in resolving
    requires Outcome(c, resolving + {ref}, t0, d0, t1, d1, RefName(ref), c.refs[ref], n)
    ensures Target(c, ref) in t1 && Means(c, t1, Target(c, ref), c.refs[ref])
    ensures Target(c, ref) == OwnKey(c, RefName(ref), c.refs[ref])
  {
    hide NoCapture, GoodBuiltins, Means;
    var more, s, own := resolving + {ref}, c.refs[ref], Target(c, ref);
    if ref in d0 {
      assert DoneOk(c, t0, d0 + resolving, ref);
      MeansMono(c, t0, t1, own, s);
    } else if s.SType? {
      TypeOfReference(c, root, ref);
    } else {
      assert ClaimOk(c, t0, resolving, d0, {}, ref, own);
      assert ref in more;
      assert Protected(c, t0, more, d0, RefName(ref), s);
    }
  }

  lemma ResolvedRefs(c: Context, t: Table, resolving: set<string>, d: set<string>, ref: string)
    requires ref in c.refs && ref !in resolving
    requires Target(c, ref) in t && Means(c, t, Target(c, ref), c.refs[ref])
    requires RefsOk(c, t, resolving + {ref}, d, {Target(c, ref)}) && Mentions(c.refs[ref]) <= d + (resolving + {ref})
    requires forall r, k :: r in resolving && r in c.refs && k in Claims(c, r) ==> k != Target(c, ref)
    ensures RefsOk(c, t, resolving, d + {ref}, {})
  {
    hide Means, Mentions, Claims, Target;
    var d', more := d + {ref}, resolving + {ref};
    assert d' + resolving == d + more;
    forall r | r in d' ensures DoneOk(c, t, d' + resolving, r) {
      if r in d { assert DoneOk(c, t, d + more, r); }
    }
    forall r, k | r in c.refs && k in Claims(c, r) ensures ClaimOk(c, t, resolving, d', {}, r, k) {
      assert ClaimOk(c, t, more, d, {Target(c, ref)}, r, k);
      assert r == ref && k == Target(c, ref) ==> r in d' && Means(c, t, k, c.refs[r]);
    }
  }

  lemma ResolvedGrown(c: Context, t0: Table, t1: Table, d0: set<string>, d1: set<string>, ref: string)
    requires ref in c.refs && Grown(c, false, false, RefName(ref), c.refs[ref], t0, d0, t1, d1)
    ensures forall k :: k in t1 && k !in t0 ==> ByReference(c, d1 + {ref}, k)
  {
    forall k | k in t1 && k !in t0 ensures ByReference(c, d1 + {ref}, k) {
      assert Explained(c, false, false, RefName(ref), c.refs[ref], d1, k);
    }
  }

  /** The schema of a reference is never the one without a name: that would take the name of the root. */
  lemma TypeOfReference(c: Context, root: Schema, ref: string)
    requires NoCapture(c, root) && GoodBuiltins(c.prims) && ref in c.refs && c.refs[ref].SType?
    ensures PlainType(RefName(ref), c.refs[ref])
  {
    RootKey(c);
    NearItself("root");
    TakenAsRoot(c, ref);
  }

  lemma TakenAsRoot(c: Context, ref: string)
    requires ref in c.refs && KeyOf(c, "") == "root" && Near("root", "root") && c.refs[ref].SType?
    ensures RefName(ref) == "" ==> Takes(c, false, RefName(ref), c.refs[ref], "root")
  {
  }

  /** A reference met again: its name is that of its rule, or will be. */
  lemma MetAgain(c: Context, t: Table, resolving: set<string>, done: set<string>, name: string, ref: string)
    requires RefsOk(c, t, resolving, done, {}) && NameOk(c, resolving, name, SRef(ref)) && ref in c.refs
    requires RefName(ref) in t || ref in resolving
    ensures SameRule(t, RefName(ref), Target(c, ref)) && ref in done + resolving
  {
    assert ClaimOk(c, t, resolving, done, {}, ref, RefName(ref));
    if RefName(ref) in t {
      assert DoneOk(c, t, done + resolving, ref);
      forall env: Env | Solves(env, t)
        ensures ItemLang(env, Ref(RefName(ref))) == ItemLang(env, Ref(Target(c, ref)))
      {
        BothMean(c, t, RefName(ref), Target(c, ref), c.refs[ref], env);
      }
    } else {
      NotAvoided(c, ref);
    }
  }

  lemma NotAvoided(c: Context, ref: string)
    ensures !Avoids(c, SRef(ref), ref)
  {
    assert ref in Mentions(SRef(ref));
  }

  // ---------------------------------------------------------------- what looking up a reference does

  function ConstBody(value: string): Body { [Lit(value), Ref("space")] }

  /** A rule with the name of the reference is taken for that of its schema, whatever it is; so is the name itself while
      the reference is being resolved. Otherwise the schema gets a rule. */
  ghost predicate LookedUp(c: Context, resolving: set<string>, ref: string, t: Table, t': Table, n: string) {
    if RefName(ref) in t || ref in resolving then t' == t && n == RefName(ref)
    else ref in c.refs && c.refs[ref].SConst? ==>
      AddedAs(t, t', KeyOf(c, RefName(ref)), ConstBody(c.refs[ref].value), n)
  }

  ghost predicate Referred(c: Context, resolving: set<string>, name: string, ref: string, t: Table, tm: Table,
      m: string,
                           t': Table, n: string)
  {
    LookedUp(c, resolving, ref, t, tm, m) && AddedAs(tm, t', KeyOf(c, name), [Ref(m)], n)
  }

  /** What visiting a constant or a reference adds. */
  ghost predicate Visited(c: Context, resolving: set<string>, name: string, s: Schema, t: Table, t': Table, n: string) {
    && (s.SConst? ==> AddedAs(t, t', KeyOf(c, name), ConstBody(s.value), n))
    && (s.SRef? ==> exists tm, m :: Referred(c, resolving, name, s.ref, t, tm, m, t', n))
  }

  /** Visiting the schema of a reference that was not found. */
  lemma VisitedReference(c: Context, resolving: set<string>, ref: string, t: Table, t': Table, n: string)
    requires ref in c.refs && ref !in resolving && RefName(ref) !in t
    requires Visited(c, resolving + {ref}, RefName(ref), c.refs[ref], t, t', n)
    ensures LookedUp(c, resolving, ref, t, t', n)
  {
  }

  /** Having resolved a reference, inside a schema. */
  lemma ResolvedInside(c: Context, resolving: set<string>, t0: Table, d0: set<string>, tm: Table, dm: set<string>,
                       t1: Table, d1: set<string>, name: string, s: Schema)
    requires Inside(c, resolving, t0, d0, tm, dm, name, s) && RefsOk(c, t1, resolving, d1, {})
    requires Extends(tm, t1) && dm <= d1 && (d1 - dm) !! resolving
    requires forall k :: k in t1 && k !in tm ==> ByReference(c, d1, k)
    ensures Inside(c, resolving, t0, d0, t1, d1, name, s)
  {
    assert Grown(c, true, resolving == {}, name, s, tm, dm, t1, d1);
    GrownTrans(c, true, resolving == {}, name, s, t0, d0, tm, dm, t1, d1);
  }

  // ---------------------------------------------------------------- parts

  lemma PartReady(c: Context, resolving: set<string>, name: string, s: Schema, partName: string, part: Schema)
    requires NameOk(c, resolving, name, s) && IsPart(c, name, s, partName, part)
    ensures NameOk(c, resolving, partName, part)
    ensures forall r, k :: r in c.refs && k in Claims(c, r) ==> !TakesSelf(c, resolving == {}, partName, part, k)
  {
    hide TakesInside, TakesSelf, Claims, Avoids;
    var top := resolving == {};
    forall k | TakesSelf(c, top, partName, part, k) || TakesInside(c, top, partName, part, k)
      ensures TakesInside(c, top, name, s, k)
    {
      assert Takes(c, top, partName, part, k);
    }
    forall r | r in resolving && r in c.refs && !Settled(c, r) ensures Avoids(c, part, r) {
      PartAvoids(c, s, part, r);
    }
  }

  lemma PartAvoids(c: Context, s: Schema, part: Schema, r: string)
    requires Avoids(c, s, r) && Mentions(part) <= Mentions(s)
    ensures Avoids(c, part, r)
  {
    var refs: set<string> :| Mentions(s) <= refs && ClosedRefs(c, refs) && r !in refs;
    assert Mentions(part) <= refs;
  }

  /** After a part: the table has grown as it may, and the references are right. */
  lemma PartDone(c: Context, resolving: set<string>, name: string, s: Schema, t0: Table, d0: set<string>,
                 tm: Table, dm: set<string>, t1: Table, d1: set<string>, partName: string, part: Schema, n: string)
    requires NameOk(c, resolving, name, s) && IsPart(c, name, s, partName, part)
    requires Inside(c, resolving, t0, d0, tm, dm, name, s)
    requires Outcome(c, resolving, tm, dm, t1, d1, partName, part, n)
    ensures Inside(c, resolving, t0, d0, t1, d1, name, s)
  {
    var own := OwnKey(c, partName, part);
    PartReady(c, resolving, name, s, partName, part);
    GrownByPart(c, resolving == {}, name, s, partName, part, tm, dm, t1, d1);
    GrownTrans(c, true, resolving == {}, name, s, t0, d0, tm, dm, t1, d1);
    forall r, k | r in c.refs && k in Claims(c, r) ensures ClaimOk(c, t1, resolving, d1, {}, r, k) {
      assert ClaimOk(c, t1, resolving, d1, {own}, r, k);
      if r in resolving { NotThePart(c, resolving, partName, part, r, k); }
    }
  }

  /** No part is called by a name claimed for a reference being resolved. */
  lemma NotThePart(c: Context, resolving: set<string>, partName: string, part: Schema, r: string, k: string)
    requires r in resolving && r in c.refs && k in Claims(c, r)
    requires forall r, k :: r in c.refs && k in Claims(c, r) ==> !TakesSelf(c, resolving == {}, partName, part, k)
    ensures k != OwnKey(c, partName, part)
  {
    NearItself(k);
    assert !TakesSelf(c, resolving == {}, partName, part, k);
  }

  lemma HelpersInside(c: Context, resolving: set<string>, name: string, s: Schema, t0: Table,
                      d0: set<string>, tm: Table, d: set<string>, t1: Table)
    requires NameOk(c, resolving, name, s) && Inside(c, resolving, t0, d0, tm, d, name, s)
    requires Extends(tm, t1) && forall k :: k in t1 && k !in tm ==> TakesInside(c, resolving == {}, name, s, k)
    ensures Inside(c, resolving, t0, d0, t1, d, name, s)
  {
    GrownByHelpers(c, resolving == {}, name, s, tm, t1, d);
    RefsOkGrown(c, resolving, name, s, tm, d, t1);
    GrownTrans(c, true, resolving == {}, name, s, t0, d0, tm, d, t1, d);
  }
}
