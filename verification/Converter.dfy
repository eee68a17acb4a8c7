/** The conversion of a schema to rules: `visit` and what it calls in json-schema-to-grammar.cpp. Whatever the schema
    and its references, a conversion ends and changes no rule; and where `Ready` holds at the start, the rules it adds
    denote the schema. */
module Converter {
  import opened Gbnf
  import opened Results
  import opened Rules
  import opened SchemaSpec
  import opened ConverterState
  import opened Constants
  import opened ObjectCounts
  import opened ObjectParts
  import opened PartTexts
  import IntegerBounds
  import NotStrings
  import ObjectKeys
  import ObjectRule
  import Pattern
  import Regex
  import Repetition

  /** The rules for the keys of an object. */
  datatype EntryNames = EntryNames(kvNames: map<string, string>, required: seq<string>, optional: seq<string>)

  /** The keys are those of the properties, each with a rule. */
  predicate NamesOf(s: Schema, e: EntryNames)
    requires s.SObject?
  {
    && Listed(s.properties, |s.properties|, e.kvNames)
    && e.required == RequiredKeys(s.properties, s.required, true)
    && e.optional == RequiredKeys(s.properties, s.required, false)
  }

  /** Errors are only added, and only where there is reason to. */
  predicate ErrorsExplained(before: seq<string>, after: seq<string>, reason: bool) {
    after == before || (reason && |after| > |before|)
  }

  class SchemaConverter {
    const c: Context
    const table: RuleTable
    var resolving: set<string>
    var errors: seq<string>

    /** The schema being converted, the references that are done, and the entry rules of the last object. */
    ghost const root: Schema
    ghost var done: set<string>
    ghost var entries: map<string, string>

    /** What always holds. */
    ghost predicate Sound()
      reads this, table
    {
      && GoodBuiltins(c.prims) && table.prims == c.prims && {"char", "string", "value", "object"} <= c.prims.Keys
      && Meant(c.prims) && ObjectRule.SpaceStays(table.rules) && resolving <= c.refs.Keys
    }

    /** Where a visit starts from that comes out right. */
    ghost predicate Ready(name: string, s: Schema)
      reads this, table
    {
      && Sound() && table.Valid() && errors == []
      && NoCapture(c, root) && (forall r :: r in c.refs ==> Good(c, RefName(r), c.refs[r]))
      && RefsOk(c, table.rules, resolving, done, {}) && Good(c, name, s) && NameOk(c, resolving, name, s)
    }

    /** ... and while the parts of the schema are visited, having started from `t0`, `d0`. */
    ghost predicate Underway(name: string, s: Schema, t0: Table, d0: set<string>)
      reads this, table
    {
      && Ready(name, s) && RefsOk(c, t0, resolving, d0, {})
      && Inside(c, resolving, t0, d0, table.rules, done, name, s)
    }

    ghost predicate Achieved(name: string, s: Schema, t0: Table, d0: set<string>, n: string)
      reads this, table
    {
      table.Valid() && errors == [] && Outcome(c, resolving, t0, d0, table.rules, done, name, s, n)
    }

    constructor (c: Context, ghost root: Schema)
      requires GoodBuiltins(c.prims) && {"char", "string", "value", "object"} <= c.prims.Keys && Meant(c.prims)
      ensures Sound() && this.c == c && this.root == root && table.Valid()
      ensures resolving == {} && done == {} && errors == []
      ensures fresh(table) && table.rules == map["space" := SPACE_RULE]
    {
      this.c, this.root := c, root;
      table := new RuleTable(c.prims);
      resolving, errors, done, entries := {}, [], {}, map[];
    }

    /** Adds the schema's own rule, what it needs being there. */
    method AddNamed(name: string, body: Body, ghost s: Schema, ghost t0: Table, ghost d0: set<string>)
      returns (n: string)
      requires Sound()
      modifies table
      ensures Sound() && AddedAs(old(table.rules), table.rules, KeyOf(c, name), body, n)
      ensures (old(Underway(name, s, t0, d0)) && !s.SType? && Mentions(s) <= done + resolving
               && BodyMeans(c, old(table.rules), body, s)) ==> Achieved(name, s, t0, d0, n)
    {
      hide NoCapture, Spec, RefsOk, NameOk, Inside, BodyMeans, Outcome, Intact, Closed, GoodBuiltins, Meant;
      ghost var tm := table.rules;
      n := table.AddRule(RuleNameOf(c, name), body);
      if old(Underway(name, s, t0, d0)) && !s.SType? && Mentions(s) <= done + resolving && BodyMeans(c, tm, body, s) {
        Finish(c, root, resolving, t0, d0, tm, done, table.rules, name, s, n, body);
      }
    }

    /** const */
    method VisitConst(name: string, s: Schema) returns (n: string)
      requires Sound() && s.SConst?
      modifies table
      ensures Sound() && AddedAs(old(table.rules), table.rules, KeyOf(c, name), ConstBody(s.value), n)
      ensures old(Ready(name, s)) ==> Achieved(name, s, old(table.rules), done, n)
    {
      hide Spec, NoCapture, NameOk, Outcome, BodyMeans, Grown, Intact, Closed, GoodBuiltins, Meant;
      if Ready(name, s) { InsideBegins(c, resolving, table.rules, done, name, s); }
      ConstantMeans(c, table.rules, s.value);
      n := AddNamed(name, ConstBody(s.value), s, table.rules, done);
    }

    /** enum */
    method VisitEnum(name: string, s: Schema) returns (n: string)
      requires Sound() && s.SEnum?
      modifies table
      ensures Sound() && Extends(old(table.rules), table.rules)
      ensures old(Ready(name, s)) ==> Achieved(name, s, old(table.rules), done, n)
    {
      hide NoCapture, NameOk, Outcome, Grown, Intact, Closed, GoodBuiltins, BodyLang, KeyFor, Escape, KeyOf, RefsOk,
        BodyMeans, Meant;
      var alts: Body := [];
      for i := 0 to |s.values|
        invariant i == 0 ==> alts == []
        invariant i > 0 ==> forall env: Env :: BodyLang(env, alts) == OneOf(s.values[..i])
      {
        ghost var before := alts;
        alts := (if i > 0 then alts + [Bar] else []) + [Lit(s.values[i])];
        forall env: Env ensures BodyLang(env, alts) == OneOf(s.values[..i + 1]) {
          NextLiteral(env, s.values, i, before, alts);
        }
      }
      assert s.values[..|s.values|] == s.values;
      var body := [Group(alts), Ref("space")];
      if Ready(name, s) {
        InsideBegins(c, resolving, table.rules, done, name, s);
        EnumMeans(c, table.rules, s, alts);
      }
      n := AddNamed(name, body, s, table.rules, done);
    }

    /** Integers with bounds. */
    method VisitInteger(name: string, s: Schema) returns (r: Result<string>)
      requires Sound() && s.SInteger?
      modifies table
      ensures Sound() && Extends(old(table.rules), table.rules)
      ensures r.Failure? <==> !HasBounds(s.minimum, s.maximum)
      ensures r.Success? ==>
                exists body, x ::
                  && IntegerText(s.minimum, s.maximum, body, x)
                  && AddedAs(old(table.rules), table.rules, KeyOf(c, name), [Group(body), Ref("space")], r.value)
      ensures r.Success? && old(Ready(name, s)) ==> Achieved(name, s, old(table.rules), done, r.value)
    {
      hide NoCapture, NameOk, Outcome, Grown, Intact, Closed, GoodBuiltins, BodyLang, KeyFor, Escape, KeyOf, RefsOk,
        BodyMeans, Meant;
      var w, x := IntegerBounds.BuildMinMaxInt(s.minimum, s.maximum);
      if w.Throws? {
        return Failure("At least one of min_value or max_value must be set");
      }
      if Ready(name, s) {
        InsideBegins(c, resolving, table.rules, done, name, s);
        IntegerMeans(c, table.rules, s, w.body);
      }
      assert IntegerText(s.minimum, s.maximum, w.body, x);
      var n := AddNamed(name, [Group(w.body), Ref("space")], s, table.rules, done);
      r := Success(n);
    }

    /** Strings with a pattern. */
    method VisitPattern(name: string, s: Schema) returns (n: string)
      requires Sound() && s.SPattern?
      modifies table
      ensures Sound() && Extends(old(table.rules), table.rules)
      ensures old(Ready(name, s)) ==> Achieved(name, s, old(table.rules), done, n)
    {
      hide NoCapture, NameOk, Outcome, Grown, RefsOk, Meant, Pattern.Auxiliary, Intact, Closed, GoodBuiltins, Near;
      ghost var t0 := table.rules;
      var errs;
      n, errs := Pattern.VisitPattern(table, "^" + Regex.Show(s.re) + "$", false, RuleNameOf(c, name), s.re);
      if old(Ready(name, s)) {
        forall env: Env | Solves(env, table.rules) ensures ItemLang(env, Ref(n)) == Spec(c, env, s) {}
        PatternDone(c, resolving, t0, done, table.rules, name, s, n);
      }
    }

    /** A built-in rule under its own name, on behalf of `s`. */
    method AddBuiltin(p: string, ghost name: string, ghost s: Schema, ghost t0: Table, ghost d0: set<string>)
      returns (n: string)
      requires Sound() && p in c.prims
      modifies table
      ensures Sound() && Extends(old(table.rules), table.rules)
      ensures old(Underway(name, s, t0, d0)) && NeededInside(c, name, s, p) ==>
                Underway(name, s, t0, d0) && n == p && IsBuiltin(c, table.rules, p)
    {
      hide NoCapture, NameOk, Inside, Needs, TakesInside, Good, Meant;
      ghost var tm := table.rules;
      n := table.AddPrimitive(p, p, {});
      if old(Underway(name, s, t0, d0)) && NeededInside(c, name, s, p) {
        BuiltinAdded(c, resolving, name, s, t0, d0, tm, done, table.rules, p);
      }
    }

    /** Strings with length bounds. */
    method VisitLength(name: string, s: Schema) returns (n: string)
      requires Sound() && s.SLength?
      modifies table
      ensures Sound() && Extends(old(table.rules), table.rules)
      ensures old(Ready(name, s)) ==> Achieved(name, s, old(table.rules), done, n)
    {
      hide NoCapture, NameOk, Outcome, Grown, Inside, IsBuiltin, NeededInside, BodyMeans, RefsOk, Intact, Closed,
        GoodBuiltins, BodyLang, KeyFor, Escape, KeyOf, Meant;
      ghost var t0 := table.rules;
      if Ready(name, s) {
        InsideBegins(c, resolving, t0, done, name, s);
        OwnBuiltin(c, name, s);
      }
      var charRule := AddBuiltin("char", name, s, t0, done);
      var chars := Repetition.BuildRepetition(Ref(charRule), s.minLength, s.maxLength, []);
      var body := [Lit("\"")] + chars + [Lit("\""), Ref("space")];
      if old(Ready(name, s)) { LengthMeans(c, table.rules, s, chars, body); }
      n := AddNamed(name, body, s, t0, done);
    }

    /** Date and time formats; a schema without keywords. */
    method VisitFormat(name: string, s: Schema) returns (n: string)
      requires Sound() && s.SFormat?
      modifies this, table
      ensures Sound() && Extends(old(table.rules), table.rules)
      ensures ErrorsExplained(old(errors), errors, MayFail(c, s))
      ensures s.prim in c.prims ==> errors == old(errors)
      ensures resolving == old(resolving) && done == old(done)
      ensures old(Ready(name, s)) ==> Achieved(name, s, old(table.rules), done, n)
    {
      hide NoCapture, NameOk, Outcome, Grown, Inside, IsBuiltin, NeededInside, BodyMeans, RefsOk, Intact, Closed,
        GoodBuiltins, BodyLang, KeyFor, Escape, KeyOf, Meant;
      if s.prim !in c.prims {
        errors := errors + ["Unrecognized schema"];
        return "";
      }
      ghost var t0 := table.rules;
      if Ready(name, s) {
        InsideBegins(c, resolving, t0, done, name, s);
        OwnBuiltin(c, name, s);
      }
      var prim := AddBuiltin(s.prim, name, s, t0, done);
      if old(Ready(name, s)) { BuiltinMeans(c, table.rules, s); }
      n := AddNamed(name, [Ref(prim)], s, t0, done);
    }

    /** Plain types: the built-in rule itself, under its own name or as the root. */
    method VisitType(name: string, s: Schema) returns (n: string)
      requires Sound() && s.SType?
      modifies this, table
      ensures Sound() && Extends(old(table.rules), table.rules)
      ensures ErrorsExplained(old(errors), errors, MayFail(c, s))
      ensures resolving == old(resolving) && done == old(done)
      ensures old(Ready(name, s)) ==> Achieved(name, s, old(table.rules), done, n)
    {
      hide NoCapture, RefsOk, NameOk, Means, Grown, Outcome, Needs, Good, TypeRule, OwnKey, KeyFor, Escape, Intact,
        Closed, PlainType, Meant;
      if Ready(name, s) { TypeKeeps(c, name, s); }
      if s.prim !in c.prims {
        errors := errors + ["Unrecognized schema"];
        return "";
      }
      ghost var t0 := table.rules;
      TypeName(c, name, s);
      n := table.AddPrimitive(TypeRule(c, name, s), s.prim, {});
      if old(Ready(name, s)) { TypeDone(c, root, resolving, t0, done, table.rules, name, s, n); }
    }

    /** Schemas without parts that cannot fail. */
    method VisitSimple(name: string, s: Schema) returns (n: string)
      requires Sound() && !s.SRef? && !s.SUnion? && !s.SObject? && !s.STuple? && !s.SArray? && !s.SInteger?
      modifies this, table
      ensures Sound() && Extends(old(table.rules), table.rules)
      ensures ErrorsExplained(old(errors), errors, MayFail(c, s))
      ensures resolving == old(resolving) && done == old(done)
      ensures s.SConst? ==> AddedAs(old(table.rules), table.rules, KeyOf(c, name), ConstBody(s.value), n)
      ensures old(Ready(name, s)) ==> Achieved(name, s, old(table.rules), done, n)
    {
      hide Spec, Means, Good, Mentions, NoCapture, RefsOk, NameOk, Outcome, Meant;
      match s {
        case SConst(_) => n := VisitConst(name, s);
        case SEnum(_) => n := VisitEnum(name, s);
        case SPattern(_) => n := VisitPattern(name, s);
        case SLength(_, _) => n := VisitLength(name, s);
        case SFormat(_) => n := VisitFormat(name, s);
        case SType(_, _) => n := VisitType(name, s);
      }
    }

    // ---------- schemas with parts

    /** Visits a part of `s` on behalf of `s`, which is called `name`. */
    method VisitPart(partName: string, part: Schema, ghost name: string, ghost s: Schema, ghost t0: Table,
        ghost d0: set<string>)
      returns (r: Result<string>)
      requires Sound()
      modifies this, table
      ensures Sound() && Extends(old(table.rules), table.rules)
      ensures ErrorsExplained(old(errors), errors, MayFail(c, part))
      ensures r.Success? ==> resolving == old(resolving)
      ensures r.Success? ==> Visited(c, resolving, partName, part, old(table.rules), table.rules, r.value)
      ensures r.Failure? ==> MayFail(c, part)
      ensures (r.Success? && old(Underway(name, s, t0, d0)) && IsPart(c, name, s, partName, part)
               && Good(c, partName, part)) ==>
                && Underway(name, s, t0, d0) && old(done) <= done
                && Means(c, table.rules, r.value, part) && Mentions(part) <= done + resolving
      decreases c.refs.Keys - resolving, part, 6
    {
      hide Spec, Means, Good, Mentions, NoCapture, Visited, MayFail, IsPart, NameOk, RefsOk, Intact, Closed,
        GoodBuiltins, Meant;
      ghost var tm, dm := table.rules, done;
      ghost var ready := Underway(name, s, t0, d0) && IsPart(c, name, s, partName, part) && Good(c, partName, part);
      if ready { PartReady(c, resolving, name, s, partName, part); }
      r := Visit(partName, part);
      if r.Success? && ready {
        PartDone(c, resolving, name, s, t0, d0, tm, dm, table.rules, done, partName, part, r.value);
      }
    }

    /** `_generate_union_rule` */
    method UnionRule(name: string, s: Schema, ghost t0: Table, ghost d0: set<string>) returns (r: Result<Body>)
      requires Sound() && s.SUnion?
      modifies this, table
      ensures Sound() && Extends(old(table.rules), table.rules)
      ensures ErrorsExplained(old(errors), errors, MayFail(c, s))
      ensures r.Success? ==> resolving == old(resolving)
      ensures r.Failure? ==> MayFail(c, s)
      ensures r.Success? && old(Underway(name, s, t0, d0)) ==>
                && Underway(name, s, t0, d0) && Mentions(s) <= done + resolving
                && UnionIn(c, table.rules, s.alternatives, |s.alternatives|, r.value)
      decreases c.refs.Keys - resolving, s, 0
    {
      hide Spec, Means, NoCapture, NameOk, Inside, IsPart, UnionIn, TupleIn, Visited, RefsOk, Intact, Closed,
        GoodBuiltins, MayFail, Meant;
      ghost var ready := Underway(name, s, t0, d0);
      var alts: Body := [];
      NoUnionYet(c, table.rules, s.alternatives);
      for i := 0 to |s.alternatives|
        invariant Sound() && Extends(old(table.rules), table.rules)
        invariant ErrorsExplained(old(errors), errors, MayFail(c, s))
        invariant resolving == old(resolving)
        invariant ready ==> Underway(name, s, t0, d0) && UnionIn(c, table.rules, s.alternatives, i, alts)
        invariant ready ==> MentionsDone(s.alternatives, i, done + resolving)
      {
        ghost var before, tm := alts, table.rules;
        AlternativePart(c, name, s, i);
        MayFailWithin(c, s, s.alternatives[i]);
        var part :- VisitPart(AlternativeName(name, i), s.alternatives[i], name, s, t0, d0);
        alts := (if i > 0 then alts + [Bar] else []) + [Ref(part)];
        if ready { NextUnionIn(c, tm, table.rules, s.alternatives, i, before, alts, part); }
      }
      r := Success(alts);
    }

    /** oneOf, anyOf, several types */
    method VisitUnion(name: string, s: Schema) returns (r: Result<string>)
      requires Sound() && s.SUnion?
      modifies this, table
      ensures Sound() && Extends(old(table.rules), table.rules)
      ensures ErrorsExplained(old(errors), errors, MayFail(c, s))
      ensures r.Success? ==> resolving == old(resolving)
      ensures r.Failure? ==> MayFail(c, s)
      ensures r.Success? && old(Ready(name, s)) ==> Achieved(name, s, old(table.rules), old(done), r.value)
      decreases c.refs.Keys - resolving, s, 1
    {
      hide Spec, Means, Mentions, NoCapture, NameOk, RefsOk, Grown, Outcome, UnionIn, Intact, Closed, GoodBuiltins,
        Meant, MayFail;
      ghost var t0, d0 := table.rules, done;
      if Ready(name, s) { InsideBegins(c, resolving, t0, d0, name, s); }
      var alts :- UnionRule(name, s, t0, d0);
      if old(Ready(name, s)) { AllUnionIn(c, table.rules, s.alternatives, alts); }
      var n := AddNamed(name, alts, s, t0, d0);
      r := Success(n);
    }

    /** The rules of the items, comma-joined. */
    method TupleItems(name: string, s: Schema, ghost t0: Table, ghost d0: set<string>) returns (r: Result<Body>)
      requires Sound() && s.STuple?
      modifies this, table
      ensures Sound() && Extends(old(table.rules), table.rules)
      ensures ErrorsExplained(old(errors), errors, MayFail(c, s))
      ensures r.Success? ==> resolving == old(resolving)
      ensures r.Failure? ==> MayFail(c, s)
      ensures r.Success? && old(Underway(name, s, t0, d0)) ==>
                && Underway(name, s, t0, d0) && Mentions(s) <= done + resolving
                && NoBar(r.value) && (s.items == [] ==> r.value == [])
                && TupleIn(c, table.rules, s.items, |s.items|, r.value)
      decreases c.refs.Keys - resolving, s, 0
    {
      hide Spec, Means, NoCapture, NameOk, Inside, IsPart, UnionIn, TupleIn, Visited, RefsOk, Intact, Closed,
        GoodBuiltins, ChildName, MayFail, Meant;
      ghost var ready := Underway(name, s, t0, d0);
      var inner: Body := [];
      NoTupleYet(c, table.rules, s.items);
      for i := 0 to |s.items|
        invariant Sound() && Extends(old(table.rules), table.rules)
        invariant ErrorsExplained(old(errors), errors, MayFail(c, s))
        invariant resolving == old(resolving) && NoBar(inner) && (i == 0 ==> inner == [])
        invariant ready ==> Underway(name, s, t0, d0) && TupleIn(c, table.rules, s.items, i, inner)
        invariant ready ==> MentionsDone(s.items, i, done + resolving)
      {
        ghost var before, tm := inner, table.rules;
        TuplePart(c, name, s, i);
        MayFailWithin(c, s, s.items[i]);
        var part :- VisitPart(TupleItemName(name, i), s.items[i], name, s, t0, d0);
        inner := (if i > 0 then inner + ObjectKeys.COMMA else []) + [Ref(part)];
        if ready { NextTupleIn(c, tm, table.rules, s.items, i, before, inner, part); }
      }
      r := Success(inner);
    }

    /** Lists of items. */
    method VisitTuple(name: string, s: Schema) returns (r: Result<string>)
      requires Sound() && s.STuple?
      modifies this, table
      ensures Sound() && Extends(old(table.rules), table.rules)
      ensures ErrorsExplained(old(errors), errors, MayFail(c, s))
      ensures r.Success? ==> resolving == old(resolving)
      ensures r.Failure? ==> MayFail(c, s)
      ensures r.Success? && old(Ready(name, s)) ==> Achieved(name, s, old(table.rules), old(done), r.value)
      decreases c.refs.Keys - resolving, s, 1
    {
      hide Spec, Means, Mentions, NoCapture, NameOk, RefsOk, Grown, Outcome, TupleIn, Good, Intact, Closed,
        GoodBuiltins, Meant, MayFail;
      ghost var t0, d0 := table.rules, done;
      if Ready(name, s) { InsideBegins(c, resolving, t0, d0, name, s); }
      var inner :- TupleItems(name, s, t0, d0);
      if old(Ready(name, s)) { AllTupleIn(c, table.rules, s.items, inner); }
      var n := AddNamed(name, [Lit("["), Ref("space")] + inner + [Lit("]"), Ref("space")], s, t0, d0);
      r := Success(n);
    }

    /** Arrays of one kind of item. */
    method VisitArray(name: string, s: Schema) returns (r: Result<string>)
      requires Sound() && s.SArray?
      modifies this, table
      ensures Sound() && Extends(old(table.rules), table.rules)
      ensures ErrorsExplained(old(errors), errors, MayFail(c, s))
      ensures r.Success? ==> resolving == old(resolving)
      ensures r.Failure? ==> MayFail(c, s)
      ensures r.Success? && old(Ready(name, s)) ==> Achieved(name, s, old(table.rules), old(done), r.value)
      decreases c.refs.Keys - resolving, s, 0
    {
      hide Spec, Means, NoCapture, NameOk, RefsOk, Grown, Outcome, Visited, IsPart, Intact, Closed, GoodBuiltins,
        BodyLang, KeyFor, Escape, KeyOf, BodyMeans, Meant, MayFail, ChildName;
      ghost var t0, d0 := table.rules, done;
      if Ready(name, s) { InsideBegins(c, resolving, t0, d0, name, s); }
      ItemPart(c, name, s);
      MayFailWithin(c, s, s.item);
      var part :- VisitPart(ChildName(name, "item"), s.item, name, s, t0, d0);
      var inner := Repetition.BuildRepetition(Ref(part), s.minItems, s.maxItems, ObjectKeys.COMMA);
      var body := [Lit("["), Ref("space")] + inner + [Lit("]"), Ref("space")];
      if old(Ready(name, s)) { ArrayMeans(c, table.rules, s, part, inner); }
      var n := AddNamed(name, body, s, t0, d0);
      r := Success(n);
    }

    // ---------- references

    /** Resolves a reference not met before. */
    method Resolve(ref: string, ghost name: string, ghost s: Schema, ghost t0: Table, ghost d0: set<string>)
      returns (r: Result<string>)
      requires Sound() && ref in c.refs && RefName(ref) !in table.rules && ref !in resolving
      modifies this, table
      ensures Sound() && Extends(old(table.rules), table.rules)
      ensures ErrorsExplained(old(errors), errors, MayFail(c, SRef(ref)))
      ensures r.Success? ==> resolving == old(resolving)
      ensures r.Success? ==> LookedUp(c, resolving, ref, old(table.rules), table.rules, r.value)
      ensures r.Failure? ==> MayFail(c, SRef(ref))
      ensures r.Success? && old(Underway(name, s, t0, d0)) && s == SRef(ref) ==>
                Underway(name, s, t0, d0) && ref in done && SameRule(table.rules, r.value, Target(c, ref))
      decreases c.refs.Keys - resolving, SRef(ref), 0
    {
      hide Spec, Means, Mentions, NoCapture, RefsOk, Inside, Outcome, NameOk, Target, SameRule, Intact, Closed,
        GoodBuiltins, KeyFor, Escape, RefName, Claims, Avoids, Grown, MayFail, Visited, LookedUp, Extends,
        ByReference, Meant, ConstBody, KeyOf;
      ghost var tm, dm, outer := table.rules, done, resolving;
      ghost var ready := Underway(name, s, t0, d0) && s == SRef(ref);
      if ready { ReferenceReady(c, root, tm, resolving, done, name, ref); }
      MayFailWithin(c, SRef(ref), c.refs[ref]);
      resolving := resolving + {ref};
      var n :- Visit(RefName(ref), c.refs[ref]);
      resolving := resolving - {ref};
      assert resolving == outer;
      VisitedReference(c, outer, ref, tm, table.rules, n);
      if ready {
        EndResolve(c, root, tm, table.rules, outer, dm, done, ref, n);
        OutcomeGrows(c, outer + {ref}, tm, dm, table.rules, done, RefName(ref), c.refs[ref], n);
        ResolvedInside(c, outer, t0, d0, tm, dm, table.rules, done + {ref}, name, s);
        done := done + {ref};
      }
      r := Success(n);
    }

    /** `_resolve_ref`: a name that is in the table already is taken for the reference's rule, whatever that is. A
        reference that is missing is visited as a schema without keywords. */
    method ResolveRef(ref: string, ghost name: string, ghost s: Schema, ghost t0: Table, ghost d0: set<string>)
      returns (r: Result<string>)
      requires Sound()
      modifies this, table
      ensures Sound() && Extends(old(table.rules), table.rules)
      ensures ErrorsExplained(old(errors), errors, MayFail(c, SRef(ref)))
      ensures r.Success? ==> resolving == old(resolving)
      ensures r.Success? ==> LookedUp(c, resolving, ref, old(table.rules), table.rules, r.value)
      ensures r.Failure? ==> MayFail(c, SRef(ref))
      ensures r.Success? && old(Underway(name, s, t0, d0)) && s == SRef(ref) ==>
                Underway(name, s, t0, d0) && ref in done + resolving && SameRule(table.rules, r.value, Target(c, ref))
      decreases c.refs.Keys - resolving, SRef(ref), 1
    {
      hide Spec, Means, Mentions, NoCapture, RefsOk, Grown, Outcome, NameOk, Target, SameRule, RefName, Intact,
        Closed, GoodBuiltins, Meant;
      var n := RefName(ref);
      if n !in table.rules && ref !in resolving {
        if ref in c.refs {
          r := Resolve(ref, name, s, t0, d0);
        } else {
          var m := VisitFormat(n, SFormat("object"));
          r := Success(m);
        }
      } else {
        if Underway(name, s, t0, d0) && s == SRef(ref) { MetAgain(c, table.rules, resolving, done, name, ref); }
        r := Success(n);
      }
    }

    /** $ref */
    method VisitRef(name: string, s: Schema) returns (r: Result<string>)
      requires Sound() && s.SRef?
      modifies this, table
      ensures Sound() && Extends(old(table.rules), table.rules)
      ensures ErrorsExplained(old(errors), errors, MayFail(c, s))
      ensures r.Success? ==> resolving == old(resolving)
      ensures r.Success? ==> Visited(c, resolving, name, s, old(table.rules), table.rules, r.value)
      ensures r.Failure? ==> MayFail(c, s)
      ensures r.Success? && old(Ready(name, s)) ==> Achieved(name, s, old(table.rules), old(done), r.value)
      decreases c.refs.Keys - resolving, s, 2
    {
      hide Spec, Means, NoCapture, RefsOk, Grown, Outcome, NameOk, Target, SameRule, RefName, LookedUp, BodyMeans,
        Intact, Closed, GoodBuiltins, Meant, MayFail, KeyFor, Escape;
      ghost var t0, d0 := table.rules, done;
      if Ready(name, s) { InsideBegins(c, resolving, t0, d0, name, s); }
      var target :- ResolveRef(s.ref, name, s, t0, d0);
      ghost var tm := table.rules;
      if old(Ready(name, s)) { ReferenceMeans(c, tm, s.ref, target); }
      var n := AddNamed(name, [Ref(target)], s, t0, d0);
      assert Referred(c, resolving, name, s.ref, t0, tm, target, table.rules, n);
      r := Success(n);
    }

    // ---------- objects

    /** A rule the converter makes up for a schema with parts. */
    method AddHelper(helper: string, body: Body, ghost name: string, ghost s: Schema, ghost t0: Table,
        ghost d0: set<string>)
      returns (key: string)
      requires Sound()
      modifies table
      ensures Sound() && AddedAs(old(table.rules), table.rules, Escape(helper), body, key)
      ensures old(Underway(name, s, t0, d0)) && HelperName(c, name, s, helper) ==> Underway(name, s, t0, d0)
    {
      hide Spec, Means, Good, Mentions, NoCapture, RefsOk, NameOk, Inside, TakesInside, Intact, Closed, GoodBuiltins,
        Meant;
      ghost var tm := table.rules;
      key := table.AddRule(helper, body);
      if old(Underway(name, s, t0, d0)) && HelperName(c, name, s, helper) {
        KeyIsNear(Escape(helper), key);
        HelpersInside(c, resolving, name, s, t0, d0, tm, done, table.rules);
      }
    }

    /** The rules of a property: that of its schema and that of the whole entry. */
    method PropertyRule(name: string, s: Schema, i: nat, ghost t0: Table, ghost d0: set<string>)
      returns (r: Result<string>)
      requires Sound() && s.SObject? && i < |s.properties|
      modifies this, table
      ensures Sound() && Extends(old(table.rules), table.rules)
      ensures ErrorsExplained(old(errors), errors, MayFail(c, s))
      ensures r.Success? ==> resolving == old(resolving)
      ensures r.Success? ==>
                PropertyAdded(c, resolving, name, s.properties[i], old(table.rules), table.rules, r.value)
      ensures r.Success? ==> r.value in table.rules && EntryShape(s.properties[i].key, table.rules[r.value])
      ensures r.Failure? ==> MayFail(c, s)
      ensures r.Success? && old(Underway(name, s, t0, d0)) ==>
                && Underway(name, s, t0, d0) && old(done) <= done
                && EntryMeans(c, table.rules, r.value, s.properties[i])
                && Mentions(s.properties[i].schema) <= done + resolving
      decreases c.refs.Keys - resolving, s, 0
    {
      hide Spec, Means, Mentions, NoCapture, RefsOk, NameOk, Inside, IsPart, HelperName, Visited, EntryMeans, Intact,
        Closed, GoodBuiltins, Meant;
      var p := s.properties[i];
      PropertyPart(c, name, s, i);
      EntryHelper(c, name, s, i);
      var value :- VisitPart(ChildName(name, p.key), p.schema, name, s, t0, d0);
      ghost var tm := table.rules;
      var kv := AddHelper(ChildName(name, p.key) + "-kv", EntryBody(p.key, value), name, s, t0, d0);
      assert EntryMade(c, resolving, name, p, old(table.rules), tm, value, table.rules, kv);
      if old(Underway(name, s, t0, d0)) { EntryAdded(c, tm, table.rules, p, value, kv); }
      r := Success(kv);
    }

    /** The rules of all properties, and which of the keys are required. */
    method PropertyRules(name: string, s: Schema, ghost t0: Table, ghost d0: set<string>)
      returns (r: Result<EntryNames>)
      requires Sound() && s.SObject?
      modifies this, table
      ensures Sound() && Extends(old(table.rules), table.rules)
      ensures ErrorsExplained(old(errors), errors, MayFail(c, s))
      ensures r.Success? ==> resolving == old(resolving)
      ensures r.Success? ==> NamesOf(s, r.value) && Shaped(table.rules, r.value.kvNames)
      ensures r.Success? && AtRoot(c, name, s, old(resolving), old(table.rules)) ==>
                MadeUpTo(c, s.properties, |s.properties|, table.rules, r.value.kvNames)
      ensures r.Failure? ==> MayFail(c, s)
      ensures r.Success? && old(Underway(name, s, t0, d0)) ==>
                && Underway(name, s, t0, d0)
                && EntriesDone(c, table.rules, s.properties, |s.properties|, r.value.kvNames)
                && SchemasDone(s.properties, |s.properties|, done + resolving)
      decreases c.refs.Keys - resolving, s, 1
    {
      hide Spec, Means, NoCapture, EntryMeans, RequiredKeys, EntriesDone, Good, RefsOk, NameOk, Inside, MadeUpTo,
        PropertyAdded, Shaped, EntryShape, Intact, Closed, GoodBuiltins, MayFail, Meant;
      ghost var ready, atRoot := Underway(name, s, t0, d0), AtRoot(c, name, s, resolving, table.rules);
      if ready { GoodObject(c, name, s); }
      NoKeys(s.properties, s.required);
      NoEntries(c, table.rules, s.properties);
      if atRoot { NoneMade(c, s.properties, table.rules); }
      var kvNames: map<string, string>, required, optional := map[], [], [];
      NothingShaped(table.rules);
      for i := 0 to |s.properties|
        invariant Sound() && Extends(old(table.rules), table.rules)
        invariant ErrorsExplained(old(errors), errors, MayFail(c, s))
        invariant resolving == old(resolving)
        invariant Listed(s.properties, i, kvNames) && Shaped(table.rules, kvNames)
        invariant atRoot ==> MadeUpTo(c, s.properties, i, table.rules, kvNames)
        invariant ready ==> Underway(name, s, t0, d0) && EntriesDone(c, table.rules, s.properties, i, kvNames)
        invariant ready ==> SchemasDone(s.properties, i, done + resolving)
        invariant required == RequiredKeys(s.properties[..i], s.required, true)
        invariant optional == RequiredKeys(s.properties[..i], s.required, false)
      {
        ghost var tm := table.rules;
        var key := s.properties[i].key;
        var kv :- PropertyRule(name, s, i, t0, d0);
        if ready { NextEntry(c, tm, table.rules, s.properties, i, kvNames, kv); }
        if atRoot { NextMade(c, s.properties, i, tm, table.rules, kvNames, kv); }
        NextShaped(tm, table.rules, kvNames, key, kv);
        kvNames := kvNames[key := kv];
        NextKey(s.properties, i, s.required, true);
        NextKey(s.properties, i, s.required, false);
        if key in s.required {
          required := required + [key];
        } else {
          optional := optional + [key];
        }
      }
      assert s.properties[..|s.properties|] == s.properties;
      r := Success(EntryNames(kvNames, required, optional));
    }

    /** The rule of an additional entry's value. */
    method AdditionalValueRule(name: string, s: Schema, ghost t0: Table, ghost d0: set<string>)
      returns (r: Result<string>)
      requires Sound() && s.SObject? && !s.additional.NoAdditional?
      modifies this, table
      ensures Sound() && Extends(old(table.rules), table.rules)
      ensures ErrorsExplained(old(errors), errors, MayFail(c, s))
      ensures r.Success? ==> resolving == old(resolving)
      ensures r.Failure? ==> MayFail(c, s)
      ensures r.Success? && old(Underway(name, s, t0, d0)) ==>
                && Underway(name, s, t0, d0) && old(done) <= done
                && ValueMeans(c, table.rules, r.value, s.additional)
                && (s.additional.AdditionalOf? ==> Mentions(s.additional.schema) <= done + resolving)
      decreases c.refs.Keys - resolving, s, 0
    {
      hide Spec, Mentions, NoCapture, RefsOk, NameOk, Inside, IsPart, Visited, NeededInside, Intact, Closed,
        GoodBuiltins, Meant;
      if s.additional.AdditionalOf? {
        AdditionalPart(c, name, s);
        r := VisitPart(AdditionalName(name) + "-value", s.additional.schema, name, s, t0, d0);
      } else {
        BuiltinsInside(c, name, s, "value");
        var n := AddBuiltin("value", name, s, t0, d0);
        r := Success(n);
      }
    }

    /** The rule of an additional entry's key. */
    method AdditionalKeyRule(name: string, s: Schema, ghost t0: Table, ghost d0: set<string>) returns (key: string)
      requires Sound() && s.SObject? && !s.additional.NoAdditional?
      modifies table
      ensures Sound() && Extends(old(table.rules), table.rules)
      ensures old(Underway(name, s, t0, d0)) ==>
                Underway(name, s, t0, d0) && KeyMeans(c, table.rules, key, s.properties)
    {
      hide Spec, Mentions, NoCapture, RefsOk, NameOk, Inside, NeededInside, HelperName, NotStrings.Fits,
        NotStrings.OtherNames, NotStrings.WrittenNames, Intact, Closed, GoodBuiltins, Meant;
      if s.properties == [] {
        BuiltinsInside(c, name, s, "string");
        key := AddBuiltin("string", name, s, t0, d0);
      } else {
        BuiltinsInside(c, name, s, "char");
        var charRule := AddBuiltin("char", name, s, t0, d0);
        ghost var tc := table.rules;
        var out := NotStrings.NotStrings(KeysOf(s.properties), charRule);
        AdditionalHelpers(c, name, s);
        key := AddHelper(AdditionalName(name) + "-k", out, name, s, t0, d0);
        if old(Underway(name, s, t0, d0)) { KeyAdded(c, tc, table.rules, s.properties, out, key); }
      }
    }

    /** The rule of an additional entry. */
    method AdditionalRule(name: string, s: Schema, ghost t0: Table, ghost d0: set<string>) returns (r: Result<string>)
      requires Sound() && s.SObject? && !s.additional.NoAdditional?
      modifies this, table
      ensures Sound() && Extends(old(table.rules), table.rules)
      ensures ErrorsExplained(old(errors), errors, MayFail(c, s))
      ensures r.Success? ==> resolving == old(resolving)
      ensures r.Success? ==> r.value in table.rules && EntryShape(ObjectKeys.STAR, table.rules[r.value])
      ensures r.Failure? ==> MayFail(c, s)
      ensures r.Success? && old(Underway(name, s, t0, d0)) ==>
                && Underway(name, s, t0, d0) && old(done) <= done
                && StarMeans(c, table.rules, r.value, s.properties, s.additional)
                && (s.additional.AdditionalOf? ==> Mentions(s.additional.schema) <= done + resolving)
      decreases c.refs.Keys - resolving, s, 1
    {
      hide Spec, Mentions, NoCapture, Good, RefsOk, NameOk, Inside, HelperName, ValueMeans, KeyMeans, StarMeans,
        Intact, Closed, GoodBuiltins, Meant, MayFail, KeyFor, Escape, AdditionalName;
      var value :- AdditionalValueRule(name, s, t0, d0);
      ghost var tm := table.rules;
      var key := AdditionalKeyRule(name, s, t0, d0);
      ghost var tk := table.rules;
      AdditionalHelpers(c, name, s);
      var kv := AddHelper(AdditionalName(name) + "-kv", [Ref(key), Lit(":"), Ref("space"), Ref(value)], name, s,
          t0, d0);
      if old(Underway(name, s, t0, d0)) {
        StarAdded(c, tm, tk, table.rules, s.properties, s.additional, value, key, kv);
      }
      r := Success(kv);
    }

    /** The entry rules of an object. */
    method EntryRules(name: string, s: Schema, ghost t0: Table, ghost d0: set<string>) returns (r: Result<EntryNames>)
      requires Sound() && s.SObject?
      modifies this, table
      ensures Sound() && Extends(old(table.rules), table.rules)
      ensures ErrorsExplained(old(errors), errors, MayFail(c, s))
      ensures r.Success? ==> resolving == old(resolving)
      ensures r.Success? ==> NamesOf(s, r.value) && Shaped(table.rules, r.value.kvNames)
      ensures r.Success? && !s.additional.NoAdditional? ==> ObjectKeys.STAR in r.value.kvNames
      ensures r.Success? && s.additional.NoAdditional? && AtRoot(c, name, s, old(resolving), old(table.rules)) ==>
                MadeUpTo(c, s.properties, |s.properties|, table.rules, r.value.kvNames)
      ensures r.Failure? ==> MayFail(c, s)
      ensures r.Success? && old(Underway(name, s, t0, d0)) ==>
                && Underway(name, s, t0, d0) && Mentions(s) <= done + resolving
                && AllEntries(c, table.rules, s.properties, s.additional, r.value.kvNames)
      decreases c.refs.Keys - resolving, s, 2
    {
      hide Spec, NoCapture, EntryMeans, StarMeans, RefsOk, NameOk, Inside, MadeUpTo, Good, RequiredKeys, Shaped,
        Intact, Closed, GoodBuiltins, Meant, MayFail, EntryShape;
      var e :- PropertyRules(name, s, t0, d0);
      if !s.additional.NoAdditional? {
        ghost var tm := table.rules;
        var kv :- AdditionalRule(name, s, t0, d0);
        if old(Underway(name, s, t0, d0)) {
          EntriesLater(c, tm, table.rules, s.properties, |s.properties|, e.kvNames);
          WithStar(c, table.rules, s.properties, s.additional, e.kvNames, kv);
        }
        NextShaped(tm, table.rules, e.kvNames, ObjectKeys.STAR, kv);
        e := e.(kvNames := e.kvNames[ObjectKeys.STAR := kv]);
      }
      r := Success(e);
    }

    /** `_build_object_rule` */
    method BuildObjectRule(name: string, s: Schema, ghost t0: Table, ghost d0: set<string>) returns (r: Result<Body>)
      requires Sound() && s.SObject?
      modifies this, table
      ensures Sound() && Extends(old(table.rules), table.rules)
      ensures ErrorsExplained(old(errors), errors, MayFail(c, s))
      ensures r.Success? ==> resolving == old(resolving) && Unambiguous(table.rules, s, entries, r.value)
      ensures r.Success? && AtRoot(c, name, s, old(resolving), old(table.rules)) && ConstantObject(c, s) ==>
                ConstantsText(c, s, table.rules, entries, r.value)
      ensures r.Failure? ==> MayFail(c, s)
      ensures r.Success? && old(Underway(name, s, t0, d0)) ==>
                && Underway(name, s, t0, d0) && Mentions(s) <= done + resolving
                && BodyMeans(c, table.rules, r.value, s)
      decreases c.refs.Keys - resolving, s, 3
    {
      hide Spec, Mentions, NoCapture, Good, RefsOk, NameOk, Inside, AllEntries, MadeUpTo, Shaped, Unambiguous,
        BodyMeans, ConstantsText, RequiredKeys, ObjectRule.Enclosed, ObjectRule.EntriesIn, ObjectKeys.Members,
        BodyLang, ObjectRule.Separate, RuleIsUnambiguous, TakesInside, ObjectRule.RestsAdded, At, AllConstant, Intact,
        Closed, MayFail, GoodBuiltins, Meant;
      var e :- EntryRules(name, s, t0, d0);
      ghost var tm := table.rules;
      KeysKnown(s.properties, e.kvNames, s.required, true);
      KeysKnown(s.properties, e.kvNames, s.required, false);
      var rule := ObjectRule.ObjectText(table, name, e.kvNames, e.required, e.optional, !s.additional.NoAdditional?);
      entries := e.kvNames;
      ObjectRule.RestsExtend(name, e.optional, tm, table.rules);
      UnambiguousRule(tm, table.rules, s, e.kvNames, rule);
      if old(Underway(name, s, t0, d0)) {
        RestsInside(c, name, s, tm, table.rules);
        HelpersInside(c, resolving, name, s, t0, d0, tm, done, table.rules);
        GoodObject(c, name, s);
        ObjectTextMeans(c, tm, table.rules, s, e.kvNames, rule);
      }
      if AtRoot(c, name, s, old(resolving), old(table.rules)) && ConstantObject(c, s) {
        ConstantsWritten(c, s, tm, table.rules, e.kvNames, rule);
      }
      r := Success(rule);
    }

    /** Objects */
    method VisitObject(name: string, s: Schema) returns (r: Result<string>)
      requires Sound() && s.SObject?
      modifies this, table
      ensures Sound() && Extends(old(table.rules), table.rules)
      ensures ErrorsExplained(old(errors), errors, MayFail(c, s))
      ensures r.Success? ==> resolving == old(resolving)
      ensures r.Success? ==> ObjectMade(s, old(resolving), old(table.rules), name, r.value)
      ensures r.Failure? ==> MayFail(c, s)
      ensures r.Success? && old(Ready(name, s)) ==> Achieved(name, s, old(table.rules), old(done), r.value)
      decreases c.refs.Keys - resolving, s, 4
    {
      hide Spec, Mentions, NoCapture, Good, RefsOk, NameOk, Grown, Unambiguous, BodyMeans, ConstantsText,
        ConstantsDone, At, AllConstant, DistinctKeys, KeyFor, Escape, KeyOf, ConstantObject, Intact, Closed, Outcome,
        GoodBuiltins, MayFail, Meant;
      ghost var t0, d0 := table.rules, done;
      if Ready(name, s) { InsideBegins(c, resolving, t0, d0, name, s); }
      var rule :- BuildObjectRule(name, s, t0, d0);
      ghost var tr := table.rules;
      var n := AddNamed(name, rule, s, t0, d0);
      UnambiguousLater(tr, table.rules, s, entries, rule);
      if AtRoot(c, name, s, old(resolving), t0) && ConstantObject(c, s) {
        ConstantsAdded(c, s, tr, table.rules, entries, rule, n);
      }
      r := Success(n);
    }

    /** The rule of an object derives its key sequences in one way each, and at the root constants come to what is
        known. */
    ghost predicate ObjectMade(s: Schema, resolving: set<string>, t: Table, name: string, n: string)
      requires s.SObject?
      reads this, table
    {
      && n in table.rules && Unambiguous(table.rules, s, entries, table.rules[n])
      && (AtRoot(c, name, s, resolving, t) && ConstantObject(c, s) ==> ConstantsDone(c, s, table.rules, entries, n))
    }

    /** `visit` */
    method Visit(name: string, s: Schema) returns (r: Result<string>)
      requires Sound()
      modifies this, table
      ensures Sound() && Extends(old(table.rules), table.rules)
      ensures ErrorsExplained(old(errors), errors, MayFail(c, s))
      ensures r.Success? ==> resolving == old(resolving)
      ensures r.Success? ==> Visited(c, resolving, name, s, old(table.rules), table.rules, r.value)
      ensures r.Success? && s.SObject? ==> ObjectMade(s, old(resolving), old(table.rules), name, r.value)
      ensures r.Failure? ==> MayFail(c, s)
      ensures r.Success? && old(Ready(name, s)) ==> Achieved(name, s, old(table.rules), old(done), r.value)
      decreases c.refs.Keys - resolving, s, 5
    {
      hide Spec, Means, Good, Mentions, NoCapture, RefsOk, NameOk, Outcome, ObjectMade, Meant;
      match s {
        case SRef(_) => r := VisitRef(name, s);
        case SUnion(_) => r := VisitUnion(name, s);
        case SObject(_, _, _) => r := VisitObject(name, s);
        case STuple(_) => r := VisitTuple(name, s);
        case SArray(_, _, _) => r := VisitArray(name, s);
        case SInteger(_, _) => r := VisitInteger(name, s);
        case _ =>
          var n := VisitSimple(name, s);
          r := Success(n);
      }
    }
  }
}
