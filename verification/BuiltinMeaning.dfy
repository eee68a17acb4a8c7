/** Every built-in rule denotes the texts it is named after, in every solution of a table that holds the built-in
    rules. */
module BuiltinMeaning {
  import opened Gbnf
  import opened Rules
  import opened BuiltinRules
  import opened BuiltinTexts
  import opened JsonTexts
  import opened JsonValues

  // ---------------------------------------------------------------- entries, and what they are to denote

  ghost predicate Stored(p: string, content: Body, deps: seq<string>) {
    p in BUILTINS && BUILTINS[p] == Builtin(content, deps)
  }

  /** The entry is in this table. */
  ghost predicate In(rules: Builtins, p: string, content: Body, deps: seq<string>) {
    p in rules && rules[p] == Builtin(content, deps)
  }

  lemma PrimitiveStored(p: string, content: Body, deps: seq<string>)
    requires In(PRIMITIVE_RULES, p, content, deps) && p !in STRING_FORMAT_RULES
    ensures Stored(p, content, deps)
  {
    hide In;
    Union(PRIMITIVE_RULES, STRING_FORMAT_RULES, p, content, deps);
  }

  lemma FormatStored(p: string, content: Body, deps: seq<string>)
    requires In(STRING_FORMAT_RULES, p, content, deps)
    ensures Stored(p, content, deps)
  {
    hide In;
    Union(PRIMITIVE_RULES, STRING_FORMAT_RULES, p, content, deps);
  }

  lemma Union(a: Builtins, b: Builtins, p: string, content: Body, deps: seq<string>)
    requires In(b, p, content, deps) || (In(a, p, content, deps) && p !in b)
    ensures p in a + b && (a + b)[p] == Builtin(content, deps)
  {
  }

  lemma LiteralsIn()
    ensures In(PRIMITIVE_RULES, "boolean", BOOLEAN, [])
    ensures In(PRIMITIVE_RULES, "null", NULL, [])
    ensures "boolean" !in STRING_FORMAT_RULES && "null" !in STRING_FORMAT_RULES
  {
  }

  lemma LiteralsStored()
    ensures Stored("boolean", BOOLEAN, [])
    ensures Stored("null", NULL, [])
  {
    hide In, Stored;
    LiteralsIn();
    PrimitiveStored("boolean", BOOLEAN, []);
    PrimitiveStored("null", NULL, []);
  }

  lemma DigitsIn()
    ensures In(PRIMITIVE_RULES, "decimal-part", DECIMAL_PART, [])
    ensures In(PRIMITIVE_RULES, "integral-part", INTEGRAL_PART, [])
    ensures "decimal-part" !in STRING_FORMAT_RULES && "integral-part" !in STRING_FORMAT_RULES
  {
  }

  lemma DigitsStored()
    ensures Stored("decimal-part", DECIMAL_PART, [])
    ensures Stored("integral-part", INTEGRAL_PART, [])
  {
    hide In, Stored;
    DigitsIn();
    PrimitiveStored("decimal-part", DECIMAL_PART, []);
    PrimitiveStored("integral-part", INTEGRAL_PART, []);
  }

  lemma NumbersIn()
    ensures In(PRIMITIVE_RULES, "integer", INTEGER, ["integral-part"])
    ensures In(PRIMITIVE_RULES, "number", NUMBER, ["integral-part", "decimal-part"])
    ensures "integer" !in STRING_FORMAT_RULES && "number" !in STRING_FORMAT_RULES
  {
  }

  lemma NumbersStored()
    ensures Stored("integer", INTEGER, ["integral-part"])
    ensures Stored("number", NUMBER, ["integral-part", "decimal-part"])
  {
    hide In, Stored;
    NumbersIn();
    PrimitiveStored("integer", INTEGER, ["integral-part"]);
    PrimitiveStored("number", NUMBER, ["integral-part", "decimal-part"]);
  }

  lemma StringsIn()
    ensures In(PRIMITIVE_RULES, "char", CHAR, [])
    ensures In(PRIMITIVE_RULES, "string", STRING, ["char"])
    ensures In(PRIMITIVE_RULES, "uuid", UUID, [])
    ensures "char" !in STRING_FORMAT_RULES && "string" !in STRING_FORMAT_RULES
    ensures "uuid" !in STRING_FORMAT_RULES
  {
  }

  lemma StringsStored()
    ensures Stored("char", CHAR, [])
    ensures Stored("string", STRING, ["char"])
    ensures Stored("uuid", UUID, [])
  {
    hide In, Stored;
    StringsIn();
    PrimitiveStored("char", CHAR, []);
    PrimitiveStored("string", STRING, ["char"]);
    PrimitiveStored("uuid", UUID, []);
  }

  lemma ValuesIn()
    ensures In(PRIMITIVE_RULES, "value", VALUE, ["object", "array", "string", "number", "boolean", "null"])
    ensures In(PRIMITIVE_RULES, "array", ARRAY, ["value"])
    ensures In(PRIMITIVE_RULES, "object", OBJECT, ["string", "value"])
    ensures "value" !in STRING_FORMAT_RULES && "array" !in STRING_FORMAT_RULES
    ensures "object" !in STRING_FORMAT_RULES
  {
  }

  lemma ValuesStored()
    ensures Stored("value", VALUE, ["object", "array", "string", "number", "boolean", "null"])
    ensures Stored("array", ARRAY, ["value"])
    ensures Stored("object", OBJECT, ["string", "value"])
  {
    hide In, Stored;
    ValuesIn();
    PrimitiveStored("value", VALUE, ["object", "array", "string", "number", "boolean", "null"]);
    PrimitiveStored("array", ARRAY, ["value"]);
    PrimitiveStored("object", OBJECT, ["string", "value"]);
  }

  lemma DatesIn()
    ensures In(STRING_FORMAT_RULES, "date", DATE, [])
    ensures In(STRING_FORMAT_RULES, "time", TIME, [])
    ensures In(STRING_FORMAT_RULES, "date-time", [Ref("date"), Lit("T"), Ref("time")], ["date", "time"])
  {
  }

  lemma DatesStored()
    ensures Stored("date", DATE, [])
    ensures Stored("time", TIME, [])
    ensures Stored("date-time", [Ref("date"), Lit("T"), Ref("time")], ["date", "time"])
  {
    hide In, Stored;
    DatesIn();
    FormatStored("date", DATE, []);
    FormatStored("time", TIME, []);
    FormatStored("date-time", [Ref("date"), Lit("T"), Ref("time")], ["date", "time"]);
  }

  lemma QuotedDatesIn()
    ensures In(STRING_FORMAT_RULES, "date-string", [QUOTE, Ref("date"), QUOTE, SP], ["date"])
    ensures In(STRING_FORMAT_RULES, "time-string", [QUOTE, Ref("time"), QUOTE, SP], ["time"])
    ensures In(STRING_FORMAT_RULES, "date-time-string", [QUOTE, Ref("date-time"), QUOTE, SP], ["date-time"])
  {
  }

  lemma QuotedDatesStored()
    ensures Stored("date-string", [QUOTE, Ref("date"), QUOTE, SP], ["date"])
    ensures Stored("time-string", [QUOTE, Ref("time"), QUOTE, SP], ["time"])
    ensures Stored("date-time-string", [QUOTE, Ref("date-time"), QUOTE, SP], ["date-time"])
  {
    hide In, Stored;
    QuotedDatesIn();
    FormatStored("date-string", [QUOTE, Ref("date"), QUOTE, SP], ["date"]);
    FormatStored("time-string", [QUOTE, Ref("time"), QUOTE, SP], ["time"]);
    FormatStored("date-time-string", [QUOTE, Ref("date-time"), QUOTE, SP], ["date-time"]);
  }

  lemma LiteralsAndDigitsMeant()
    ensures TextsOfRule("boolean") == BooleanTexts()
    ensures TextsOfRule("null") == NullTexts()
    ensures TextsOfRule("decimal-part") == Decimals()
    ensures TextsOfRule("integral-part") == Integrals()
  {
  }

  lemma NumbersAndStringsMeant()
    ensures TextsOfRule("integer") == IntegerTexts()
    ensures TextsOfRule("number") == NumberTexts()
    ensures TextsOfRule("char") == Chars()
    ensures TextsOfRule("string") == StringTexts()
    ensures TextsOfRule("uuid") == Quoted(Uuids())
  {
  }

  lemma ValuesMeant()
    ensures TextsOfRule("value") == ValueTexts()
    ensures TextsOfRule("array") == ArrayTexts()
    ensures TextsOfRule("object") == ObjectTexts()
  {
  }

  lemma DatesMeant()
    ensures TextsOfRule("date") == DateTexts()
    ensures TextsOfRule("time") == TimeTexts()
    ensures TextsOfRule("date-time") == DateTimeTexts()
  {
  }

  lemma QuotedDatesMeant()
    ensures TextsOfRule("date-string") == Quoted(DateTexts())
    ensures TextsOfRule("time-string") == Quoted(TimeTexts())
  {
  }

  lemma QuotedDateTimesMeant()
    ensures TextsOfRule("date-time-string") == Quoted(DateTimeTexts())
  {
  }

  const LITERAL_NAMES: seq<string> := ["boolean", "null", "decimal-part", "integral-part"]
  const SHAPE_NAMES: seq<string> := ["char", "uuid", "date", "time"]
  const NUMBER_NAMES: seq<string> := ["integer", "number", "string"]
  const VALUE_NAMES: seq<string> := ["value", "array", "object"]
  const DATE_NAMES: seq<string> := ["date-time", "date-string", "time-string", "date-time-string"]

  lemma BuiltinNames(p: string)
    requires p in BUILTINS
    ensures p in LITERAL_NAMES || p in SHAPE_NAMES || p in NUMBER_NAMES || p in VALUE_NAMES || p in DATE_NAMES
  {
  }

  // ---------------------------------------------------------------- rule by rule

  /** The table holds built-in rules and all they need, and `env` solves it. */
  ghost predicate Served(t: Table, env: Env) {
    Solves(env, t) && Intact(BUILTINS, t) && Closed(BUILTINS, t, {})
  }

  /** The rule lets through what it is to let through. */
  ghost predicate Right(env: Env, p: string) {
    p in BUILTINS && BodyLang(env, BUILTINS[p].content) == TextsOfRule(p)
  }

  lemma SpaceHeld(t: Table, env: Env)
    requires Served(t, env)
    ensures Spaces(env)
  {
    SpaceDenotes(t, env);
  }

  /** What a rule in the table denotes under its name. */
  lemma Held(t: Table, env: Env, p: string, content: Body, deps: seq<string>)
    requires Served(t, env) && p in t && Stored(p, content, deps)
    ensures ItemLang(env, Ref(p)) == BodyLang(env, content)
    ensures DepsIn(BUILTINS, t, p)
  {
    hide BodyLang;
  }

  lemma NeedIn(t: Table, p: string, content: Body, deps: seq<string>, i: nat)
    requires Stored(p, content, deps) && i < |deps| && DepsIn(BUILTINS, t, p)
    ensures deps[i] in t
  {
    assert BUILTINS[p].deps[i] in t;
  }

  lemma RightIf(env: Env, p: string, content: Body, deps: seq<string>, l: Lang)
    requires Stored(p, content, deps) && BodyLang(env, content) == l && TextsOfRule(p) == l
    ensures Right(env, p)
  {
    hide BodyLang, TextsOfRule;
  }

  lemma {:induction false} LiteralsRight(env: Env)
    requires Spaces(env)
    ensures Right(env, "boolean") && Right(env, "null")
  {
    hide BodyLang, TextsOfRule, Stored, Right, Spaces;
    LiteralsStored();
    LiteralsAndDigitsMeant();
    BooleanText(env);
    RightIf(env, "boolean", BOOLEAN, [], BooleanTexts());
    NullText(env);
    RightIf(env, "null", NULL, [], NullTexts());
  }

  lemma {:induction false} DigitsRight(env: Env)
    ensures Right(env, "decimal-part") && Right(env, "integral-part")
  {
    hide BodyLang, TextsOfRule, Stored, Right;
    DigitsStored();
    LiteralsAndDigitsMeant();
    DecimalText(env);
    RightIf(env, "decimal-part", DECIMAL_PART, [], Decimals());
    IntegralText(env);
    RightIf(env, "integral-part", INTEGRAL_PART, [], Integrals());
  }

  lemma {:induction false} CharAndUuidRight(env: Env)
    requires Spaces(env)
    ensures Right(env, "char") && Right(env, "uuid")
  {
    hide BodyLang, TextsOfRule, Stored, Right, Spaces;
    StringsStored();
    NumbersAndStringsMeant();
    CharText(env);
    RightIf(env, "char", CHAR, [], Chars());
    UuidText(env);
    RightIf(env, "uuid", UUID, [], Quoted(Uuids()));
  }

  lemma {:induction false} DateAndTimeRight(env: Env)
    ensures Right(env, "date") && Right(env, "time")
  {
    hide BodyLang, TextsOfRule, Stored, Right;
    DatesStored();
    DatesMeant();
    DateText(env);
    RightIf(env, "date", DATE, [], DateTexts());
    TimeText(env);
    RightIf(env, "time", TIME, [], TimeTexts());
  }

  /** What the rule needs is in the table. */
  ghost predicate Ready(t: Table, p: string) { p in BUILTINS && DepsIn(BUILTINS, t, p) }

  ghost predicate NeededBy(q: string, p: string) { p in BUILTINS && q in BUILTINS[p].deps }

  /** A needed rule, under its name. */
  lemma NeedHeld(t: Table, env: Env, p: string, q: string, l: Lang)
    requires Served(t, env) && Ready(t, p) && NeededBy(q, p) && Right(env, q) && TextsOfRule(q) == l
    ensures Denotes(env, q, l)
  {
    hide BodyLang, TextsOfRule;
    NeedReady(t, env, p, q);
    Held(t, env, q, BUILTINS[q].content, BUILTINS[q].deps);
  }

  lemma NeedReady(t: Table, env: Env, p: string, q: string)
    requires Served(t, env) && Ready(t, p) && NeededBy(q, p) && q in BUILTINS
    ensures q in t && Ready(t, q)
  {
    var i :| 0 <= i < |BUILTINS[p].deps| && BUILTINS[p].deps[i] == q;
    assert q in t;
  }

  lemma NumberNeeds()
    ensures NeededBy("integral-part", "integer") && NeededBy("integral-part", "number")
    ensures NeededBy("decimal-part", "number") && NeededBy("char", "string")
  {
    NumbersStored();
    StringsStored();
    assert ["integral-part", "decimal-part"][0] == "integral-part";
    assert ["integral-part", "decimal-part"][1] == "decimal-part";
  }

  lemma {:induction false} IntegerRight(t: Table, env: Env)
    requires Served(t, env) && Ready(t, "integer")
    ensures Right(env, "integer")
  {
    hide BodyLang, TextsOfRule, Right, Stored, NeededBy, Ready;
    SpaceHeld(t, env);
    NumbersStored();
    NumbersAndStringsMeant();
    LiteralsAndDigitsMeant();
    NumberNeeds();
    DigitsRight(env);
    NeedHeld(t, env, "integer", "integral-part", Integrals());
    IntegerText(env);
    RightIf(env, "integer", INTEGER, ["integral-part"], IntegerTexts());
  }

  lemma {:induction false} NumberRight(t: Table, env: Env)
    requires Served(t, env) && Ready(t, "number")
    ensures Right(env, "number")
  {
    hide BodyLang, TextsOfRule, Right, Stored, NeededBy, Ready;
    SpaceHeld(t, env);
    NumbersStored();
    NumbersAndStringsMeant();
    LiteralsAndDigitsMeant();
    NumberNeeds();
    DigitsRight(env);
    NeedHeld(t, env, "number", "integral-part", Integrals());
    NeedHeld(t, env, "number", "decimal-part", Decimals());
    NumberText(env);
    RightIf(env, "number", NUMBER, ["integral-part", "decimal-part"], NumberTexts());
  }

  lemma {:induction false} StringRight(t: Table, env: Env)
    requires Served(t, env) && Ready(t, "string")
    ensures Right(env, "string")
  {
    hide BodyLang, TextsOfRule, Right, Stored, NeededBy, Ready;
    SpaceHeld(t, env);
    StringsStored();
    NumbersAndStringsMeant();
    NumberNeeds();
    CharAndUuidRight(env);
    NeedHeld(t, env, "string", "char", Chars());
    StringText(env);
    RightIf(env, "string", STRING, ["char"], StringTexts());
  }

  lemma DateNeeds()
    ensures NeededBy("date", "date-time") && NeededBy("time", "date-time")
    ensures NeededBy("date", "date-string") && NeededBy("time", "time-string")
    ensures NeededBy("date-time", "date-time-string")
  {
    DatesStored();
    QuotedDatesStored();
    assert ["date", "time"][0] == "date" && ["date", "time"][1] == "time";
  }

  lemma {:induction false} DateTimeRight(t: Table, env: Env)
    requires Served(t, env) && Ready(t, "date-time")
    ensures Right(env, "date-time")
  {
    hide BodyLang, TextsOfRule, Right, Stored, NeededBy, Ready;
    DatesStored();
    DatesMeant();
    DateNeeds();
    DateAndTimeRight(env);
    NeedHeld(t, env, "date-time", "date", DateTexts());
    NeedHeld(t, env, "date-time", "time", TimeTexts());
    DateTimeText(env);
    RightIf(env, "date-time", [Ref("date"), Lit("T"), Ref("time")], ["date", "time"], DateTimeTexts());
  }

  lemma {:induction false} DateStringRight(t: Table, env: Env)
    requires Served(t, env) && Ready(t, "date-string")
    ensures Right(env, "date-string")
  {
    hide BodyLang, TextsOfRule, Right, Stored, NeededBy, Ready;
    SpaceHeld(t, env);
    QuotedDatesStored();
    QuotedDatesMeant();
    DatesMeant();
    DateNeeds();
    DateAndTimeRight(env);
    NeedHeld(t, env, "date-string", "date", DateTexts());
    QuotedItem(env, Ref("date"), DateTexts());
    RightIf(env, "date-string", [QUOTE, Ref("date"), QUOTE, SP], ["date"], Quoted(DateTexts()));
  }

  lemma {:induction false} TimeStringRight(t: Table, env: Env)
    requires Served(t, env) && Ready(t, "time-string")
    ensures Right(env, "time-string")
  {
    hide BodyLang, TextsOfRule, Right, Stored, NeededBy, Ready;
    SpaceHeld(t, env);
    QuotedDatesStored();
    QuotedDatesMeant();
    DatesMeant();
    DateNeeds();
    DateAndTimeRight(env);
    NeedHeld(t, env, "time-string", "time", TimeTexts());
    QuotedItem(env, Ref("time"), TimeTexts());
    RightIf(env, "time-string", [QUOTE, Ref("time"), QUOTE, SP], ["time"], Quoted(TimeTexts()));
  }

  lemma {:induction false} DateTimeStringRight(t: Table, env: Env)
    requires Served(t, env) && Ready(t, "date-time-string")
    ensures Right(env, "date-time-string")
  {
    hide BodyLang, TextsOfRule, Right, Stored, NeededBy, Ready;
    SpaceHeld(t, env);
    QuotedDatesStored();
    QuotedDateTimesMeant();
    DatesMeant();
    DateNeeds();
    DateTimeStored();
    NeedReady(t, env, "date-time-string", "date-time");
    DateTimeRight(t, env);
    NeedHeld(t, env, "date-time-string", "date-time", DateTimeTexts());
    QuotedItem(env, Ref("date-time"), DateTimeTexts());
    RightIf(env, "date-time-string", [QUOTE, Ref("date-time"), QUOTE, SP], ["date-time"], Quoted(DateTimeTexts()));
  }

  lemma DateTimeStored()
    ensures "date-time" in BUILTINS
  {
  }

  // ---------------------------------------------------------------- values, arrays and objects

  lemma ValueNeeds()
    ensures NeededBy("object", "value") && NeededBy("array", "value") && NeededBy("string", "value")
    ensures NeededBy("number", "value") && NeededBy("boolean", "value") && NeededBy("null", "value")
    ensures NeededBy("value", "array") && NeededBy("value", "object")
  {
    ValuesStored();
    var deps := ["object", "array", "string", "number", "boolean", "null"];
    assert deps[0] in deps && deps[1] in deps && deps[2] in deps && deps[3] in deps && deps[4] in deps;
    assert deps[5] in deps && ["string", "value"][1] == "value";
  }

  lemma LeavesStored()
    ensures {"object", "array", "value", "string", "number", "boolean", "null"} <= BUILTINS.Keys
  {
  }

  lemma {:induction false} LeavesHeld(t: Table, env: Env)
    requires Served(t, env) && Ready(t, "value")
    ensures Denotes(env, "string", StringTexts()) && Denotes(env, "number", NumberTexts())
    ensures Denotes(env, "boolean", BooleanTexts()) && Denotes(env, "null", NullTexts())
  {
    hide BodyLang, TextsOfRule, Right, Stored, NeededBy, Ready, Denotes;
    SpaceHeld(t, env);
    LeavesStored();
    ValueNeeds();
    NumbersAndStringsMeant();
    LiteralsAndDigitsMeant();
    NeedReady(t, env, "value", "string");
    StringRight(t, env);
    NeedHeld(t, env, "value", "string", StringTexts());
    NeedReady(t, env, "value", "number");
    NumberRight(t, env);
    NeedHeld(t, env, "value", "number", NumberTexts());
    LiteralsRight(env);
    NeedHeld(t, env, "value", "boolean", BooleanTexts());
    NeedHeld(t, env, "value", "null", NullTexts());
  }

  /** The three rules, one of them needed, are there and refer to each other. */
  lemma {:induction false} KnotHeld(t: Table, env: Env)
    requires Served(t, env) && Ready(t, "value")
    ensures "array" in t && "object" in t && "value" in t
  {
    hide NeededBy, Ready;
    LeavesStored();
    ValueNeeds();
    NeedReady(t, env, "value", "object");
    NeedReady(t, env, "value", "array");
    NeedReady(t, env, "array", "value");
  }

  lemma {:induction false} ArrayBody(env: Env)
    requires Spaces(env)
    ensures BodyLang(env, ARRAY) == Bracketed("[", Eps() + Rows(ItemLang(env, Ref("value"))), "]")
  {
    hide BodyLang, Bracketed, Rows;
    var item: Body := [Ref("value")];
    ListBody(env, "[", item, "]");
    SeqOne(env, Ref("value"));
    assert [Lit(","), SP] + item == [Lit(","), SP, Ref("value")];
    assert item + [Many([Lit(","), SP] + item)] == [Ref("value"), Many([Lit(","), SP, Ref("value")])];
  }

  lemma {:induction false} ObjectBody(env: Env)
    requires Spaces(env) && Denotes(env, "string", StringTexts())
    ensures BodyLang(env, OBJECT) == Bracketed("{", Eps() + Rows(Members(ItemLang(env, Ref("value")))), "}")
  {
    hide BodyLang, SeqLang, Bracketed, Rows, Members, Denotes, StringTexts;
    ListBody(env, "{", MEMBER, "}");
    MemberText(env);
  }

  lemma {:induction false} KnotRight(t: Table, env: Env)
    requires Served(t, env) && Ready(t, "value")
    ensures Right(env, "value") && Right(env, "array") && Right(env, "object")
  {
    hide BodyLang, ItemLang, TextsOfRule, Right, Stored, NeededBy, Ready, Bracketed, Rows, Members, Leaves, Denotes,
      Served, Spaces;
    SpaceHeld(t, env);
    KnotHeld(t, env);
    LeavesHeld(t, env);
    ValuesStored();
    ValuesMeant();
    Held(t, env, "value", VALUE, ["object", "array", "string", "number", "boolean", "null"]);
    Held(t, env, "array", ARRAY, ["value"]);
    Held(t, env, "object", OBJECT, ["string", "value"]);
    ValueBody(env);
    ArrayBody(env);
    ObjectBody(env);
    KnotIsJson(BodyLang(env, VALUE), BodyLang(env, ARRAY), BodyLang(env, OBJECT));
    RightIf(env, "value", VALUE, ["object", "array", "string", "number", "boolean", "null"], ValueTexts());
    RightIf(env, "array", ARRAY, ["value"], ArrayTexts());
    RightIf(env, "object", OBJECT, ["string", "value"], ObjectTexts());
  }

  // ---------------------------------------------------------------- all of them

  /** In every solution of a table that holds the built-in rules, each of them denotes the texts it is named after. */
  lemma {:induction false} BuiltinIsRight(t: Table, env: Env, p: string)
    requires Solves(env, t) && Intact(BUILTINS, t) && Closed(BUILTINS, t, {})
    requires p in BUILTINS && DepsIn(BUILTINS, t, p)
    ensures BodyLang(env, BUILTINS[p].content) == TextsOfRule(p)
  {
    hide BodyLang, TextsOfRule;
    assert Right(env, p) by {
      hide Right, Ready;
      BuiltinNames(p);
      if p in LITERAL_NAMES {
        SpaceHeld(t, env);
        LiteralRight(env, p);
      } else if p in SHAPE_NAMES {
        SpaceHeld(t, env);
        ShapeRight(env, p);
      } else if p in NUMBER_NAMES {
        NumbersRight(t, env, p);
      } else if p in VALUE_NAMES {
        ValuesRight(t, env, p);
      } else {
        DatesRight(t, env, p);
      }
    }
  }

  lemma {:induction false} LiteralRight(env: Env, p: string)
    requires Spaces(env) && p in LITERAL_NAMES
    ensures Right(env, p)
  {
    hide Right, Spaces;
    LiteralsRight(env);
    DigitsRight(env);
  }

  lemma {:induction false} ShapeRight(env: Env, p: string)
    requires Spaces(env) && p in SHAPE_NAMES
    ensures Right(env, p)
  {
    hide Right, Spaces;
    CharAndUuidRight(env);
    DateAndTimeRight(env);
  }

  lemma {:induction false} NumbersRight(t: Table, env: Env, p: string)
    requires Served(t, env) && Ready(t, p) && p in NUMBER_NAMES
    ensures Right(env, p)
  {
    hide Served, Ready, Right;
    if p == "integer" {
      IntegerRight(t, env);
    } else if p == "number" {
      NumberRight(t, env);
    } else {
      StringRight(t, env);
    }
  }

  lemma {:induction false} DatesRight(t: Table, env: Env, p: string)
    requires Served(t, env) && Ready(t, p) && p in DATE_NAMES
    ensures Right(env, p)
  {
    hide Served, Ready, Right;
    if p == "date-time" {
      DateTimeRight(t, env);
    } else if p == "date-string" {
      DateStringRight(t, env);
    } else if p == "time-string" {
      TimeStringRight(t, env);
    } else {
      DateTimeStringRight(t, env);
    }
  }

  lemma {:induction false} ValuesRight(t: Table, env: Env, p: string)
    requires Served(t, env) && Ready(t, p) && p in VALUE_NAMES
    ensures Right(env, p)
  {
    hide Served, Ready, Right;
    if p == "array" {
      ValueNeeded(t, env, "array");
    } else if p == "object" {
      ValueNeeded(t, env, "object");
    }
    KnotRight(t, env);
  }

  lemma ValueNeeded(t: Table, env: Env, p: string)
    requires Served(t, env) && Ready(t, p) && (p == "array" || p == "object")
    ensures Ready(t, "value")
  {
    hide NeededBy, Served, Ready;
    LeavesStored();
    ValueNeeds();
    NeedReady(t, env, p, "value");
  }
}
