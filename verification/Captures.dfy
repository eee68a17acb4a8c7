/** References that are looked up by name: an input for which another schema is found, and inputs that look alike and
    come out right. */
module Captures {
  import opened Gbnf
  import opened Results
  import opened Rules
  import opened SchemaSpec
  import opened ConverterState
  import opened Constants
  import opened Conversion
  import opened ObjectParts

  function RefTo(name: string): string { "#/$defs/" + name }

  /** An object with these properties, all optional. */
  function ObjectWith(ps: seq<Property>): Schema { SObject(ps, {}, NoAdditional) }

  lemma {:induction false} NameOfPath(path: string, name: string)
    requires '/' !in name
    ensures RefName(path + "/" + name) == name
  {
    var p := path + "/" + name;
    if path == "" {
      assert p[1..] == name && p[0] == '/';
    } else {
      assert p[1..] == path[1..] + "/" + name && p[|path|] == '/';
      NameOfPath(path[1..], name);
    }
  }

  lemma NameOfRef(name: string)
    requires '/' !in name
    ensures RefName(RefTo(name)) == name
  {
    NameOfPath("#/$defs", name);
    assert RefTo(name) == "#/$defs" + "/" + name;
  }

  // ---------------------------------------------------------------- another schema is found

  /** Property `a` is the constant 1, and property `b` refers to the definition `a`, the constant 2. */
  function Captured(): Schema {
    ObjectWith([Property("a", SConst("1")), Property("b", SRef(RefTo("a")))])
  }

  lemma CapturedIsConstant(c: Context)
    requires GoodBuiltins(c.prims) && c.refs == map[RefTo("a") := SConst("2")]
    ensures ConstantObject(c, Captured())
  {
    hide GoodBuiltins, Word, RefTo, RefName;
    var ps := Captured().properties;
    NameOfRef("a");
    ShortWord(c, "a");
    ShortWord(c, "b");
    assert IsConstant(c, ps[0].schema) && IsConstant(c, ps[1].schema);
  }

  /** No built-in name is a single letter. */
  lemma ShortWord(c: Context, m: string)
    requires GoodBuiltins(c.prims) && |m| == 1 && 'a' <= m[0] <= 'z'
    ensures Word(c, m)
  {
  }

  lemma CapturedGets(c: Context)
    requires c.refs == map[RefTo("a") := SConst("2")] && ConstantObject(c, Captured())
    ensures Got(c, Captured().properties, 1) == "1" && !RightlyReferred(c, Captured().properties, 1)
  {
    hide Word, DistinctKeys, RefTo, RefName;
    var ps := Captured().properties;
    NameOfRef("a");
    assert Holder(c, ps, 0, "a").None?;
    assert Got(c, ps, 0) == "1";
    assert Holder(c, ps, 1, "a") == Some("1");
  }

  /** The rule of the property `a` is found for the definition `a`: the entry of `b` denotes 1 and not 2. */
  lemma OtherSchemaFound(c: Context, t: Table, entries: map<string, string>)
    requires GoodBuiltins(c.prims) && c.refs == map[RefTo("a") := SConst("2")]
    ensures ConstantObject(c, Captured())
    ensures ConstantsDone(c, Captured(), t, entries, "root") && "space" in t && t["space"] == SPACE_RULE ==>
              && "b" in entries && EntryMeans(c, t, entries["b"], Property("b", SConst("1")))
              && !EntryMeans(c, t, entries["b"], Property("b", SConst("2")))
  {
    hide EntryMeans, Means, Got, GoodBuiltins, RefTo;
    CapturedIsConstant(c);
    CapturedGets(c);
    if ConstantsDone(c, Captured(), t, entries, "root") && "space" in t && t["space"] == SPACE_RULE {
      assert Converted(c, Captured().properties)[1] == Property("b", SConst("1"));
      OneConstant(c, t, entries["b"], "b", "1", "2");
    }
  }

  // ---------------------------------------------------------------- names that look alike

  /** The names that rules for the property `key` of an object may get. */
  predicate Nearby(c: Context, key: string, k: string) {
    || Near(Escape(key + "-kv"), k) || Near(Escape(key + "-rest"), k) || Near(KeyOf(c, key), k)
  }

  /** The property and the definition it refers to keep out of each other's way: they are called alike, or no rule
      of the one may get a name of the other. */
  predicate Apart(c: Context, key: string, m: string) {
    var e := KeyOf(c, m);
    && m != "space" && e != "space" && !Near("root", m) && !Near("root", e) && !Near(e, "root")
    && !Nearby(c, key, "root") && (Near(e, m) ==> m == e)
    && !Near(Escape(key + "-kv"), m) && !Near(Escape(key + "-rest"), m)
    && !Near(Escape(key + "-kv"), e) && !Near(Escape(key + "-rest"), e)
    && (Near(KeyOf(c, key), m) ==> m == KeyOf(c, key)) && (Near(KeyOf(c, key), e) ==> e == KeyOf(c, key))
  }

  /** Then the one definition is not captured, whatever the characters in its name. */
  lemma {:induction false} NotCaptured(c: Context, key: string, m: string, value: string)
    requires GoodBuiltins(c.prims) && c.refs == map[RefTo(m) := SConst(value)] && '/' !in m && Apart(c, key, m)
    ensures NoCapture(c, ObjectWith([Property(key, SRef(RefTo(m)))]))
  {
    hide Near, Escape, KeyOf, RefTo, RefName;
    var root, ref := ObjectWith([Property(key, SRef(RefTo(m)))]), RefTo(m);
    NameOfRef(m);
    RootKey(c);
    assert ChildName("", key) == key && ChildName("", key + "-rest") == key + "-rest" by {
      assert "" + "" + key == key && "" + "" + (key + "-rest") == key + "-rest";
    }
    forall k ensures TakesInside(c, true, "", root, k) <==>
        || Near(Escape(key + "-kv"), k) || Near(Escape(key + "-rest"), k) || TakesSelf(c, true, key, SRef(ref), k)
    {
      InsideOne(c, key, SRef(ref), k);
    }
    NearItself("root");
    forall k | k in Claims(c, ref) ensures FreeName(c, root, ref, k) {
      assert Sole(c, ref, k);
      assert !TakesSelf(c, true, key, SRef(ref), k);
    }
    assert Avoids(c, c.refs[ref], ref) by {
      var none: set<string> := {};
      assert Mentions(c.refs[ref]) <= none && ClosedRefs(c, none) && ref !in none;
    }
    assert !Takes(c, false, RefName(ref), c.refs[ref], "root");
    assert !TakesInside(c, true, "", root, "root");
    assert forall r :: r in c.refs ==> r == ref;
  }

  lemma {:induction false} InsideOne(c: Context, key: string, s: Schema, k: string)
    requires ChildName("", key) == key && ChildName("", key + "-rest") == key + "-rest" && s.SRef?
    ensures TakesInside(c, true, "", ObjectWith([Property(key, s)]), k) <==>
        || Near(Escape(key + "-kv"), k) || Near(Escape(key + "-rest"), k) || TakesSelf(c, true, key, s, k)
  {
    var ps := [Property(key, s)];
    assert ps[0].key == key && ps[0].schema == s;
    assert TakesForKey("", ps[0].key, k) <==> Near(Escape(key + "-kv"), k) || Near(Escape(key + "-rest"), k);
    assert Takes(c, true, ChildName("", ps[0].key), ps[0].schema, k) <==> TakesSelf(c, true, key, s, k);
  }

  /** ... and the whole conversion comes out right. */
  lemma {:induction false} Converts(c: Context, key: string, m: string, value: string)
    requires GoodBuiltins(c.prims) && c.refs == map[RefTo(m) := SConst(value)] && '/' !in m && Apart(c, key, m)
    requires PlainKey(key) && KeyOf(c, key) !in c.prims && KeyOf(c, m) !in c.prims && '\\' !in value
    ensures Convertible(c, ObjectWith([Property(key, SRef(RefTo(m)))]))
  {
    hide NoCapture, Apart, KeyOf, RefTo, RefName, PlainKey;
    var ps := [Property(key, SRef(RefTo(m)))];
    NotCaptured(c, key, m, value);
    NameOfRef(m);
    RootKey(c);
    assert ChildName("", key) == key by { assert "" + "" + key == key; }
    assert ps[0].key == key && Good(c, key, ps[0].schema);
  }

  /** A property and a definition of the same name, as in most schemas. */
  lemma SameName(c: Context)
    requires GoodBuiltins(c.prims) && c.refs == map[RefTo("address") := SConst("1")] && "address" !in c.prims
    ensures Convertible(c, ObjectWith([Property("address", SRef(RefTo("address")))]))
  {
    hide Convertible, GoodBuiltins, ObjectWith, RefTo, Near;
    NameAsIs(c, "address");
    NearIsLonger("address");
    UnlikeKey("address", "root");
    Unlike("root", "address");
    Converts(c, "address", "address", "1");
  }

  /** A definition called `m`, to be found by the rule `e`, and a property `x`. */
  lemma OtherLetters(c: Context, m: string)
    requires GoodBuiltins(c.prims) && m != "" && KeyOf(c, m) != "" && m[0] !in "xrs" && KeyOf(c, m)[0] !in "xrs"
    requires Near(KeyOf(c, m), m) ==> m == KeyOf(c, m)
    ensures Apart(c, "x", m)
  {
    hide Near, GoodBuiltins;
    var e := KeyOf(c, m);
    ShortName(c, "x");
    UnlikeKey("x", m);
    UnlikeKey("x", e);
    UnlikeKey("x", "root");
    Unlike("root", m);
    Unlike("root", e);
    Unlike(e, "root");
  }

  /** A name that ends in a digit. */
  lemma NumberAtEnd(c: Context)
    requires GoodBuiltins(c.prims) && c.refs == map[RefTo("vec3") := SConst("1")] && "vec3" !in c.prims
    ensures Convertible(c, ObjectWith([Property("x", SRef(RefTo("vec3")))]))
  {
    hide Convertible, GoodBuiltins, Apart, RefTo;
    ShortName(c, "x");
    NameAsIs(c, "vec3");
    OtherLetters(c, "vec3");
    Converts(c, "x", "vec3", "1");
  }

  /** A name with a hyphen. */
  lemma HyphenInside(c: Context)
    requires GoodBuiltins(c.prims) && c.refs == map[RefTo("my-type") := SConst("1")] && "my-type" !in c.prims
    ensures Convertible(c, ObjectWith([Property("x", SRef(RefTo("my-type")))]))
  {
    hide Convertible, GoodBuiltins, Apart, RefTo, KeyOf, RuleName, PlainKey;
    MyType();
    ShortName(c, "x");
    NameAsIs(c, "my-type");
    OtherLetters(c, "my-type");
    Converts(c, "x", "my-type", "1");
  }

  /** A name that is escaped, so that the rule is not found by it: the schema is converted anew each time. */
  lemma Underscored(c: Context)
    requires GoodBuiltins(c.prims) && c.refs == map[RefTo("my_type") := SConst("1")]
    requires "my_type" !in c.prims && "my-type" !in c.prims
    ensures Convertible(c, ObjectWith([Property("x", SRef(RefTo("my_type")))]))
  {
    hide Convertible, GoodBuiltins, Apart, RefTo, RuleName, PlainKey, Escape;
    MyType();
    ShortName(c, "x");
    Hyphenated();
    assert KeyOf(c, "my_type") == "my-type" && "my-type"[2] != "my_type"[2];
    OtherLetters(c, "my_type");
    Converts(c, "x", "my_type", "1");
  }

  lemma MyType()
    ensures RuleName("my-type") && '/' !in "my-type" && '/' !in "my_type" && PlainKey("x")
    ensures RuleName("x") && "x" != ""
  {
  }

  lemma Hyphenated()
    ensures Escape("my_type") == "my-type"
  {
    EscapeAppend("my_", "type");
    EscapeYieldsRuleName("type");
    assert Escape("my_") == "my-" && "my_" + "type" == "my_type";
  }

  /** Names that begin differently are not near each other. */
  lemma Unlike(a: string, k: string)
    requires a != "" && k != "" && a[0] != k[0]
    ensures !Near(a, k)
  {
  }

  lemma UnlikeKey(key: string, k: string)
    requires RuleName(key) && key != "" && k != "" && key[0] != k[0]
    ensures !Near(key, k) && !Near(Escape(key + "-kv"), k) && !Near(Escape(key + "-rest"), k)
  {
    NearIsLonger(key);
  }

  lemma NearIsLonger(key: string)
    requires RuleName(key)
    ensures Escape(key + "-kv") == key + "-kv" && !Near(Escape(key + "-kv"), key)
    ensures Escape(key + "-rest") == key + "-rest" && !Near(Escape(key + "-rest"), key)
  {
    EscapeYieldsRuleName(key + "-kv");
    EscapeYieldsRuleName(key + "-rest");
  }

  lemma NameAsIs(c: Context, m: string)
    requires RuleName(m) && m != "" && m != "root" && m !in c.prims
    ensures KeyOf(c, m) == m
  {
    EscapeYieldsRuleName(m);
  }

  /** No built-in name has one letter. */
  lemma ShortName(c: Context, m: string)
    requires GoodBuiltins(c.prims) && RuleName(m) && |m| == 1
    ensures KeyOf(c, m) == m && m !in c.prims
  {
    NameAsIs(c, m);
  }
}
