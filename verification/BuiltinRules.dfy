/** The built-in rules: PRIMITIVE_RULES and STRING_FORMAT_RULES of json-schema-to-grammar.cpp. */
module BuiltinRules {
  import opened Gbnf
  import opened Rules

  const SP := Ref("space")
  const DIGIT := Class("0-9")
  const HEX := Class("0-9a-fA-F")
  const QUOTE := Lit("\"")

  function Opt(b: Body): Item { Rep(Group(b), 0, Upto(1)) }

  function Many(b: Body): Item { Rep(Group(b), 0, Unbounded) }

  function Times(it: Item, n: nat): Item { Rep(it, n, Upto(n)) }

  const BOOLEAN: Body := [Group([Lit("true"), Bar, Lit("false")]), SP]
  const DECIMAL_PART: Body := [Rep(DIGIT, 1, Upto(16))]
  const INTEGRAL_PART: Body := [Class("0"), Bar, Class("1-9"), Rep(DIGIT, 0, Upto(15))]
  const SIGNED: Item := Group([Rep(Lit("-"), 0, Upto(1)), Ref("integral-part")])
  const NUMBER: Body :=
    [SIGNED, Opt([Lit("."), Ref("decimal-part")]), Opt([Class("eE"), Rep(Class("-+"), 0, Upto(1)),
        Ref("integral-part")]), SP]
  const INTEGER: Body := [SIGNED, SP]
  const VALUE: Body :=
    [Ref("object"), Bar, Ref("array"), Bar, Ref("string"), Bar, Ref("number"), Bar, Ref("boolean"), Bar, Ref("null")]
  const MEMBER: Body := [Ref("string"), Lit(":"), SP, Ref("value")]
  const OBJECT: Body := [Lit("{"), SP, Opt(MEMBER + [Many([Lit(","), SP] + MEMBER)]), Lit("}"), SP]
  const ARRAY: Body := [Lit("["), SP, Opt([Ref("value"), Many([Lit(","), SP, Ref("value")])]), Lit("]"), SP]
  const UUID: Body :=
    [QUOTE, Times(HEX, 8), Lit("-"), Times(HEX, 4), Lit("-"), Times(HEX, 4), Lit("-"), Times(HEX, 4), Lit("-"),
        Times(HEX, 12), QUOTE, SP]
  const PLAIN := Class("^\"\\\U{7F}\0-\U{1F}")
  const SHORT := Class("\"\\bfnrt")
  const ESCAPED := Group([SHORT, Bar, Lit("u"), Times(HEX, 4)])
  const CHAR: Body := [PLAIN, Bar, Class("\\"), ESCAPED]
  const STRING: Body := [QUOTE, Rep(Ref("char"), 0, Unbounded), QUOTE, SP]
  const NULL: Body := [Lit("null"), SP]

  const HOUR := Group([Class("01"), DIGIT, Bar, Lit("2"), Class("0-3")])
  const DATE: Body :=
    [Times(DIGIT, 4), Lit("-"), Group([Lit("0"), Class("1-9"), Bar, Lit("1"), Class("0-2")]), Lit("-"),
     Group([Lit("0"), Class("1-9"), Bar, Class("1-2"), DIGIT, Bar, Lit("3"), Class("0-1")])]
  const TIME: Body :=
    [HOUR, Lit(":"), Class("0-5"), DIGIT, Lit(":"), Class("0-5"), DIGIT, Opt([Lit("."), Times(DIGIT, 3)]),
     Group([Lit("Z"), Bar, Group([Lit("+"), Bar, Lit("-")]), HOUR, Lit(":"), Class("0-5"), DIGIT])]

  const PRIMITIVE_RULES: Builtins := map[
    "boolean" := Builtin(BOOLEAN, []),
    "decimal-part" := Builtin(DECIMAL_PART, []),
    "integral-part" := Builtin(INTEGRAL_PART, []),
    "number" := Builtin(NUMBER, ["integral-part", "decimal-part"]),
    "integer" := Builtin(INTEGER, ["integral-part"]),
    "value" := Builtin(VALUE, ["object", "array", "string", "number", "boolean", "null"]),
    "object" := Builtin(OBJECT, ["string", "value"]),
    "array" := Builtin(ARRAY, ["value"]),
    "uuid" := Builtin(UUID, []),
    "char" := Builtin(CHAR, []),
    "string" := Builtin(STRING, ["char"]),
    "null" := Builtin(NULL, [])
  ]

  const STRING_FORMAT_RULES: Builtins := map[
    "date" := Builtin(DATE, []),
    "time" := Builtin(TIME, []),
    "date-time" := Builtin([Ref("date"), Lit("T"), Ref("time")], ["date", "time"]),
    "date-string" := Builtin([QUOTE, Ref("date"), QUOTE, SP], ["date"]),
    "time-string" := Builtin([QUOTE, Ref("time"), QUOTE, SP], ["time"]),
    "date-time-string" := Builtin([QUOTE, Ref("date-time"), QUOTE, SP], ["date-time"])
  ]

  const BUILTINS: Builtins := PRIMITIVE_RULES + STRING_FORMAT_RULES

  lemma PrimitiveNames()
    ensures forall n :: n in PRIMITIVE_RULES ==> BuiltinName(n)
  {
    ShortNames();
    LongNames();
    assert forall n :: n in PRIMITIVE_RULES ==> n in SHORT_NAMES || n in LONG_NAMES;
  }

  const SHORT_NAMES: seq<string> := ["uuid", "char", "null", "value", "array", "number", "object", "string"]
  const LONG_NAMES: seq<string> := ["boolean", "decimal-part", "integral-part", "integer"]

  lemma ShortNames()
    ensures forall n :: n in SHORT_NAMES ==> BuiltinName(n)
  {
  }

  lemma LongNames()
    ensures forall n :: n in LONG_NAMES ==> BuiltinName(n)
  {
  }

  lemma FormatNames()
    ensures forall n :: n in STRING_FORMAT_RULES ==> BuiltinName(n)
  {
  }

  ghost predicate DepsKnown(rules: Builtins) {
    forall n :: n in rules ==> forall i :: 0 <= i < |rules[n].deps| ==> rules[n].deps[i] in rules
  }

  lemma PrimitiveDeps()
    ensures DepsKnown(PRIMITIVE_RULES)
  {
  }

  lemma FormatDeps()
    ensures DepsKnown(STRING_FORMAT_RULES)
  {
  }

  /** A conversion can be run with these rules. */
  lemma BuiltinsAreGood()
    ensures GoodBuiltins(BUILTINS) && {"char", "string", "value", "object"} <= BUILTINS.Keys
  {
    NamedByConverter();
    PrimitiveNames();
    PrimitiveDeps();
    FormatNames();
    FormatDeps();
    Together(PRIMITIVE_RULES, STRING_FORMAT_RULES);
  }

  lemma NamedByConverter()
    ensures {"char", "string", "value", "object"} <= BUILTINS.Keys
  {
  }

  lemma Together(a: Builtins, b: Builtins)
    requires DepsKnown(a) && DepsKnown(b) && forall n :: n in a || n in b ==> BuiltinName(n)
    ensures GoodBuiltins(a + b)
  {
  }

  /** Only names as they stand are reserved: the rule of a schema goes for a built-in name exactly if the schema's
      name is no rule name and is escaped to one. */
  lemma EscapedNameIsBuiltin(prims: Builtins, name: string)
    requires GoodBuiltins(prims)
    ensures Escape(VisitName(prims, name)) in prims <==> !RuleName(name) && Escape(name) in prims
  {
    hide Escape;
    EscapeYieldsRuleName(name);
    EscapeYieldsRuleName("root");
    assert RuleName("root");
    if IsReserved(prims, name) {
      EscapeTail(name, "-");
      var n := Escape(name + "-");
      assert n[|n| - 1] == '-';
      assert name in prims ==> RuleName(name);
    }
  }

  /** The rule of a schema leaves the built-in rules as they are, unless its name is escaped to a built-in one, it
      is not that rule, and that rule is not there yet: then it takes the place of the built-in rule. */
  method AddSchemaRule(t: RuleTable, name: string, rule: Body) returns (key: string)
    requires t.Valid()
    modifies t
    ensures Intact(t.prims, t.rules) <==>
              || RuleName(name) || Escape(name) !in t.prims
              || rule == t.prims[Escape(name)].content || Escape(name) in old(t.rules)
    ensures !Intact(t.prims, t.rules) ==> t.rules == old(t.rules)[Escape(name) := rule]
  {
    EscapedNameIsBuiltin(t.prims, name);
    EscapeYieldsRuleName(name);
    key := t.AddRule(VisitName(t.prims, name), rule);
  }

  /** A property called `decimal_part`: its rule takes the place of `decimal-part`, which numbers refer to, unless a
      number came first. */
  method AddDecimalPart(t: RuleTable, rule: Body) returns (key: string)
    requires t.Valid() && t.prims == BUILTINS && rule != DECIMAL_PART
    modifies t
    ensures Intact(BUILTINS, t.rules) <==> "decimal-part" in old(t.rules)
    ensures !Intact(BUILTINS, t.rules) ==> t.rules == old(t.rules)["decimal-part" := rule]
  {
    EscapeOfExample();
    DecimalPart();
    assert !NameChar("decimal_part"[7]);
    key := AddSchemaRule(t, "decimal_part", rule);
  }

  lemma DecimalPart()
    ensures "decimal-part" in BUILTINS && BUILTINS["decimal-part"].content == DECIMAL_PART
  {
  }

  lemma EscapeOfExample()
    ensures Escape("decimal_part") == "decimal-part"
  {
    UnderscoreEscaped("decimal");
    EscapeTail("decimal_", "part");
    assert "decimal_" + "part" == "decimal_part" && "decimal-" + "part" == "decimal-part";
    assert "decimal" + "_" == "decimal_" && "decimal" + "-" == "decimal-";
  }

  lemma {:induction false} UnderscoreEscaped(n: string)
    requires RuleName(n)
    ensures Escape(n + "_") == n + "-"
  {
    if n == "" {
      assert n + "_" == "_" && n + "-" == "-" && "_"[1..] == "";
    } else {
      assert (n + "_")[1..] == n[1..] + "_" && n + "-" == [n[0]] + (n[1..] + "-");
      UnderscoreEscaped(n[1..]);
    }
  }
}
