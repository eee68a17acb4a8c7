/** JSON schemas as the converter sees them once it has looked at their keywords, and the JSON texts they describe. */
module SchemaSpec {
  import opened Gbnf
  import opened Rules
  import JsonTexts
  import Pattern
  import Regex
  import Repetition
  import NotStrings
  import ObjectKeys
  import ObjectRule
  import IntegerBounds
  import Decimal

  datatype Additional = NoAdditional | AnyAdditional | AdditionalOf(schema: Schema)

  datatype Property = Property(key: string, schema: Schema)

  /** Bounds as `int` holds them; a maximum of INT_MIN cannot be negated. */
  type Minimum = n: int | IntegerBounds.IntegerRule.INT_MIN <= n <= IntegerBounds.IntegerRule.INT_MAX

  type Maximum = n: int | IntegerBounds.IntegerRule.INT_MIN < n <= IntegerBounds.IntegerRule.INT_MAX

  datatype Schema =
    | SRef(ref: string)                                        // $ref
    | SUnion(alternatives: seq<Schema>)                        // oneOf, anyOf, several types
    | SConst(value: string)                                    // const, as dumped JSON
    | SEnum(values: seq<string>)                               // enum
    | SObject(properties: seq<Property>, required: set<string>, additional: Additional)
    | STuple(items: seq<Schema>)                               // items or prefixItems, a list
    | SArray(item: Schema, minItems: nat, maxItems: int)       // items, one schema
    | SPattern(re: Regex.Expression)                           // string with pattern
    | SLength(minLength: nat, maxLength: int)                  // string with minLength or maxLength
    | SInteger(minimum: Minimum, maximum: Maximum)             // integer with bounds
    | SFormat(prim: string)                                    // date and time formats; the schema without keywords
    | SType(name: string, prim: string)                        // a plain type; uuid under the name of its format

  /** What a conversion is run with: the built-in rules and the schemas `$ref` can name. */
  datatype Context = Context(prims: Builtins, refs: map<string, Schema>)

  // ---------------------------------------------------------------- well-formed schemas

  /** A property name that is dumped as JSON without escapes and does not look like the mark of additional entries. */
  predicate PlainKey(k: string) {
    k != "*" && forall i :: 0 <= i < |k| ==> ' ' <= k[i] && k[i] != '"' && k[i] != '\\'
  }

  predicate DistinctKeys(ps: seq<Property>) {
    forall i, j :: 0 <= i < j < |ps| ==> ps[i].key != ps[j].key
  }

  /** Bounds for which there is an integer grammar; there is none without them. */
  predicate HasBounds(lo: int, hi: int) {
    IntegerBounds.HasMax(hi) || (IntegerBounds.HasMin(lo) && lo != -IntegerBounds.IntegerRule.INT_MAX)
  }

  /** Every integer with bounds in the schema has some that count, and every type is known. */
  predicate Sensible(c: Context, s: Schema) {
    match s
    case SUnion(alts) => forall i :: 0 <= i < |alts| ==> Sensible(c, alts[i])
    case SObject(ps, _, add) =>
      && (forall i :: 0 <= i < |ps| ==> Sensible(c, ps[i].schema))
      && (add.AdditionalOf? ==> Sensible(c, add.schema))
    case STuple(items) => forall i :: 0 <= i < |items| ==> Sensible(c, items[i])
    case SArray(item, _, _) => Sensible(c, item)
    case SInteger(lo, hi) => HasBounds(lo, hi)
    case SFormat(p) => p in c.prims
    case SType(_, p) => p in c.prims
    case _ => true
  }

  /** What a conversion throws for, or records an error. */
  predicate MayFail(c: Context, s: Schema) {
    !Sensible(c, s) || exists r :: r in c.refs && !Sensible(c, c.refs[r])
  }

  lemma MayFailWithin(c: Context, s: Schema, part: Schema)
    requires (s.SUnion? && part in s.alternatives) || (s.STuple? && part in s.items)
             || (s.SRef? && s.ref in c.refs && part == c.refs[s.ref]) || (s.SArray? && part == s.item)
    ensures MayFail(c, part) ==> MayFail(c, s)
  {
  }

  // The names under which `visit` is called.

  /** The rule name `visit` uses for a schema called `name`. */
  function RuleNameOf(c: Context, name: string): string {
    Rules.VisitName(c.prims, name)
  }

  /** ... and the key under which `_add_rule` first tries to put it. */
  function KeyOf(c: Context, name: string): string { Escape(RuleNameOf(c, name)) }

  function AlternativeName(name: string, i: nat): string {
    name + (if name == "" then "alternative-" else "-") + Decimal.Dec(i)
  }

  function TupleItemName(name: string, i: nat): string { ChildName(name, "tuple-" + Decimal.Dec(i)) }

  function AdditionalName(name: string): string { ChildName(name, "additional") }

  /** What the parts are called at the top level and below. */
  lemma PartNames(name: string, key: string)
    requires name != ""
    ensures ChildName("", key) == key && ChildName(name, key) == name + "-" + key
    ensures AlternativeName("", 0) == "alternative-0" && AlternativeName(name, 1) == name + "-" + "1"
    ensures TupleItemName("", 0) == "tuple-0" && TupleItemName(name, 1) == name + "-" + "tuple-1"
    ensures AdditionalName("") == "additional" && AdditionalName(name) == name + "-" + "additional"
  {
    assert Decimal.Dec(0) == "0" && Decimal.Dec(1) == "1";
    assert "tuple-" + "0" == "tuple-0" && "tuple-" + "1" == "tuple-1" && "alternative-" + "0" == "alternative-0";
    assert "" + "" + key == key && name + "-" + key == name + ("-" + key);
  }

  /** The schema, visited under `name`, is one the converter gets right if references are: its literals need no
      backslash, its bounds are in order, the names it forbids fit character classes, and no escaped name of one of its
      parts is that of a built-in rule. (A plain type gets no rule of its own.) */
  predicate Good(c: Context, name: string, s: Schema)
    decreases s
  {
    && (s.SType? || KeyOf(c, name) !in c.prims)
    && match s
       case SRef(r) => r in c.refs
       case SUnion(alts) => alts != [] && forall i :: 0 <= i < |alts| ==> Good(c, AlternativeName(name, i), alts[i])
       case SConst(v) => '\\' !in v
       case SEnum(vs) => vs != [] && forall i :: 0 <= i < |vs| ==> '\\' !in vs[i]
       case SObject(ps, _, add) =>
         && DistinctKeys(ps)
         && (forall i :: 0 <= i < |ps| ==> PlainKey(ps[i].key) && Good(c, ChildName(name, ps[i].key), ps[i].schema))
         && (!add.NoAdditional? ==> NotStrings.Fits(NotStrings.TrieOf(KeysOf(ps))))
         && (add.AdditionalOf? ==> Good(c, AdditionalName(name) + "-value", add.schema))
       case STuple(items) => forall i :: 0 <= i < |items| ==> Good(c, TupleItemName(name, i), items[i])
       case SArray(item, lo, hi) => Good(c, ChildName(name, "item"), item) && lo <= hi <= Repetition.INT_MAX && hi > 0
       case SPattern(_) => true
       case SLength(lo, hi) => lo <= hi <= Repetition.INT_MAX
       case SInteger(lo, hi) => HasBounds(lo, hi) && IntegerBounds.Exact(lo, hi)
       case SFormat(p) => p in c.prims
       case SType(n, p) =>
         p in c.prims && (n == p || (n !in c.prims && RuleName(n) && '-' !in n && n != ""
             && Decimal.IsDigit(n[|n| - 1])))
  }

  // ---------------------------------------------------------------- the names that are taken

  /** The name the rule of a schema goes by, if it is free; a plain type is built in. */
  function OwnKey(c: Context, name: string, s: Schema): string {
    if s.SType? && name != "" then Escape(s.name) else KeyOf(c, name)
  }

  /** The schema's own rule may be called `k`. At the top level, a property that refers to the schema of its own name
      takes no name away: it denotes that schema too. */
  predicate TakesSelf(c: Context, top: bool, name: string, s: Schema, k: string) {
    Near(OwnKey(c, name, s), k) && !(top && s.SRef? && k == OwnKey(c, name, s) && Sole(c, s.ref, k))
  }

  /** The rules made for the property `key` besides that of its schema. */
  predicate TakesForKey(name: string, key: string, k: string) {
    || Near(Escape(ChildName(name, key) + "-kv"), k)
    || Near(Escape(ChildName(name, key + "-rest")), k)
  }

  ghost predicate TakesForAdditional(c: Context, name: string, ps: seq<Property>, add: Additional, k: string) {
    || Near(Escape(AdditionalName(name) + "-k"), k) || Near(Escape(AdditionalName(name) + "-kv"), k)
    || Needs(c.prims, if ps == [] then "string" else "char", k)
    || (add.AnyAdditional? && Needs(c.prims, "value", k))
  }

  /** A rule made in visiting `s` as `name`, besides its own, may be called `k`. Rules of references do not count. */
  ghost predicate TakesInside(c: Context, top: bool, name: string, s: Schema, k: string)
    decreases s, 0
  {
    match s
    case SUnion(alts) => exists i :: 0 <= i < |alts| && Takes(c, top, AlternativeName(name, i), alts[i], k)
    case SObject(ps, _, add) =>
      || (exists i :: 0 <= i < |ps| && TakesForKey(name, ps[i].key, k))
      || (exists i :: 0 <= i < |ps| && Takes(c, top, ChildName(name, ps[i].key), ps[i].schema, k))
      || (!add.NoAdditional? && TakesForAdditional(c, name, ps, add, k))
      || (add.AdditionalOf? && Takes(c, top, AdditionalName(name) + "-value", add.schema, k))
    case STuple(items) => exists i :: 0 <= i < |items| && Takes(c, top, TupleItemName(name, i), items[i], k)
    case SArray(item, _, _) => Takes(c, top, ChildName(name, "item"), item, k)
    case SPattern(_) => Pattern.Auxiliary(RuleNameOf(c, name), k)
    case SLength(_, _) => Needs(c.prims, "char", k)
    case SFormat(p) => Needs(c.prims, p, k)
    case SType(_, p) => Needs(c.prims, p, k)
    case _ => false
  }

  ghost predicate Takes(c: Context, top: bool, name: string, s: Schema, k: string)
    decreases s, 1
  {
    TakesSelf(c, top, name, s, k) || TakesInside(c, top, name, s, k)
  }

  // ---------------------------------------------------------------- references

  /** The part of a reference after its last slash. */
  function RefName(ref: string): string {
    if '/' !in ref then ref else RefName(ref[1..])
  }

  /** The rule a reference stands for: of a plain type the built-in rule itself. */
  function Target(c: Context, ref: string): string {
    if ref in c.refs then OwnKey(c, RefName(ref), c.refs[ref]) else RefName(ref)
  }

  /** The rule goes by the very name that is looked up when the reference is met again. */
  predicate Settled(c: Context, r: string)
    requires r in c.refs
  {
    !c.refs[r].SType? && KeyOf(c, RefName(r)) == RefName(r)
  }

  /** The names that are to mean the schema of a reference: the one looked up and the one its rule gets. */
  function Claims(c: Context, r: string): set<string>
    requires r in c.refs
  {
    {RefName(r)} + if c.refs[r].SType? then {} else {KeyOf(c, RefName(r))}
  }

  /** The name is claimed for this reference alone. */
  predicate Sole(c: Context, r: string, k: string) {
    r in c.refs && k in Claims(c, r) && forall r' :: r' in c.refs && k in Claims(c, r') ==> r' == r
  }

  /** `refs` holds all references its schemas mention. */
  predicate ClosedRefs(c: Context, refs: set<string>) {
    forall r :: r in refs && r in c.refs ==> Mentions(c.refs[r]) <= refs
  }

  /** The schema does not lead to the reference `r`. */
  ghost predicate Avoids(c: Context, s: Schema, r: string) {
    exists refs: set<string> :: Mentions(s) <= refs && ClosedRefs(c, refs) && r !in refs
  }

  /** No rule that any schema makes takes a name claimed for a referenced schema, but for that schema's own rule; and a
      schema that is not found again by its reference does not lead back to itself. */
  ghost predicate NoCapture(c: Context, root: Schema) {
    && (forall r, k :: r in c.refs && k in Claims(c, r) ==> FreeName(c, root, r, k))
    && (forall r :: r in c.refs ==>
          && (Settled(c, r) || Avoids(c, c.refs[r], r))
          && (c.refs[r].SType? ==> c.refs[r].name == c.refs[r].prim)
          && !Takes(c, false, RefName(r), c.refs[r], "root"))
    && !TakesInside(c, true, "", root, "root")
  }

  /** Only the referenced schema itself takes the name claimed for it, and only as its own. */
  ghost predicate FreeName(c: Context, root: Schema, r: string, k: string)
    requires r in c.refs
  {
    && k != "space" && k != "root" && !Takes(c, true, "", root, k)
    && (forall r' :: r' in c.refs && r' != r ==> !Takes(c, false, RefName(r'), c.refs[r'], k))
    && !TakesInside(c, false, RefName(r), c.refs[r], k)
    && (TakesSelf(c, false, RefName(r), c.refs[r], k) ==> k == OwnKey(c, RefName(r), c.refs[r]))
  }

  /** The references a schema mentions. */
  function Mentions(s: Schema): set<string> {
    match s
    case SRef(r) => {r}
    case SUnion(alts) => set i, r | 0 <= i < |alts| && r in Mentions(alts[i]) :: r
    case SObject(ps, _, add) =>
      (set i, r | 0 <= i < |ps| && r in Mentions(ps[i].schema) :: r)
          + (if add.AdditionalOf? then Mentions(add.schema) else {})
    case STuple(items) => set i, r | 0 <= i < |items| && r in Mentions(items[i]) :: r
    case SArray(item, _, _) => Mentions(item)
    case _ => {}
  }

  // ---------------------------------------------------------------- the texts a schema describes

  /** Each of the built-in rules denotes the texts it is named after, wherever it and all it needs are found. */
  ghost predicate Meant(prims: Builtins) {
    forall p, t: Table, env: Env ::
      p in prims && Solves(env, t) && Intact(prims, t) && Closed(prims, t, {}) && DepsIn(prims, t, p) ==>
        BodyLang(env, prims[p].content) == JsonTexts.TextsOfRule(p)
  }

  ghost function Space(env: Env): Lang { ItemLang(env, Ref("space")) }

  ghost function Quoted(env: Env, inner: Lang): Lang {
    Cat(iset{"\""}, Cat(inner, Cat(iset{"\""}, Space(env))))
  }

  /** `key : value`, the key given with its trailing space. */
  ghost function Entry(env: Env, key: Lang, value: Lang): Lang {
    Cat(key, Cat(iset{":"}, Cat(Space(env), value)))
  }

  ghost function PropertyKey(env: Env, key: string): Lang {
    Cat(iset{"\"" + key + "\""}, Space(env))
  }

  function KeysOf(ps: seq<Property>): (r: seq<string>)
    ensures |r| == |ps| && forall i :: 0 <= i < |ps| ==> r[i] == ps[i].key
  {
    seq(|ps|, i requires 0 <= i < |ps| => ps[i].key)
  }

  /** The key of an additional entry: any string, or any string that is no declared key. */
  ghost function AdditionalKey(c: Context, env: Env, ps: seq<Property>): Lang {
    if ps == [] then JsonTexts.TextsOfRule("string")
    else Cat(ClassLang("\""), Cat(NotStrings.OtherNames(KeysOf(ps), JsonTexts.TextsOfRule("char")),
        Cat(ClassLang("\""), Space(env))))
  }

  function RequiredKeys(ps: seq<Property>, required: set<string>, want: bool): seq<string> {
    if ps == [] then []
    else
      var last := ps[|ps| - 1].key;
      RequiredKeys(ps[..|ps| - 1], required, want) + if (last in required) == want then [last] else []
  }

  ghost function OneOf(vs: seq<string>): Lang { iset w | w in vs }

  ghost function Spec(c: Context, env: Env, s: Schema): Lang
    decreases s, 0
  {
    match s
    case SRef(r) => ItemLang(env, Ref(Target(c, r)))
    case SUnion(alts) => AnySpec(c, env, alts)
    case SConst(v) => Cat(iset{v}, Space(env))
    case SEnum(vs) => Cat(OneOf(vs), Space(env))
    case SObject(ps, required, add) =>
      ObjectRule.Enclosed(env, "{",
        ObjectKeys.Members(ObjectKeys.Comma(env), k => EntrySpec(c, env, ps, AdditionalEntry(c, env, ps, add), k),
                           RequiredKeys(ps, required, true), RequiredKeys(ps, required, false), !add.NoAdditional?),
                               "}")
    case STuple(items) => ObjectRule.Enclosed(env, "[", TupleSpec(c, env, items), "]")
    case SArray(item, lo, hi) =>
      ObjectRule.Enclosed(env, "[", Repetition.Lists(Spec(c, env, item), ObjectKeys.Comma(env), lo, hi), "]")
    case SPattern(re) => Quoted(env, Regex.RegexLang(false, re))
    case SLength(lo, hi) => Quoted(env, Repetition.Lists(JsonTexts.TextsOfRule("char"), Eps(), lo, hi))
    case SInteger(lo, hi) => Cat(IntegerBounds.Intended(lo, hi), Space(env))
    case SFormat(p) => JsonTexts.TextsOfRule(p)
    case SType(_, p) => JsonTexts.TextsOfRule(p)
  }

  ghost function AnySpec(c: Context, env: Env, alts: seq<Schema>): Lang
    decreases alts, 0
  {
    if alts == [] then iset{} else Spec(c, env, alts[0]) + AnySpec(c, env, alts[1..])
  }

  /** The items of a tuple with commas between them. */
  ghost function TupleSpec(c: Context, env: Env, items: seq<Schema>): Lang
    decreases items, 0
  {
    if items == [] then Eps()
    else if |items| == 1 then Spec(c, env, items[0])
    else Cat(Spec(c, env, items[0]), Cat(ObjectKeys.Comma(env), TupleSpec(c, env, items[1..])))
  }

  ghost function AdditionalEntry(c: Context, env: Env, ps: seq<Property>, add: Additional): Lang
    decreases add, 0
  {
    match add
    case NoAdditional => iset{}
    case AnyAdditional => Entry(env, AdditionalKey(c, env, ps), JsonTexts.TextsOfRule("value"))
    case AdditionalOf(s) => Entry(env, AdditionalKey(c, env, ps), Spec(c, env, s))
  }

  /** The entry under `k`: that of the property, or that of the additional entries. */
  ghost function EntrySpec(c: Context, env: Env, ps: seq<Property>, additional: Lang, k: string): Lang
    decreases ps, 0
  {
    if ps == [] then (if k == ObjectKeys.STAR then additional else iset{})
    else if ps[0].key == k then PropertySpec(c, env, ps[0])
    else EntrySpec(c, env, ps[1..], additional, k)
  }

  ghost function PropertySpec(c: Context, env: Env, p: Property): Lang
    decreases p, 0
  {
    Entry(env, PropertyKey(env, p.key), Spec(c, env, p.schema))
  }
}
