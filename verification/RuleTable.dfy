/** The rules collected during a conversion: `_add_rule` and `_add_primitive` of json-schema-to-grammar.cpp. */
module Rules {
  import opened Gbnf
  import Decimal

  /** A built-in rule and the built-in rules it refers to. */
  datatype Builtin = Builtin(content: Body, deps: seq<string>)

  /** PRIMITIVE_RULES and STRING_FORMAT_RULES; see `BuiltinRules` for their contents. */
  type Builtins = map<string, Builtin>

  const SPACE_RULE: Body := [Bar, Lit(" "), Bar, Lit("\n"), Rep(Class(" \t"), 0, Upto(20))]

  // ---------------------------------------------------------------- rule names

  predicate NameChar(c: char) {
    'a' <= c <= 'z' || 'A' <= c <= 'Z' || '0' <= c <= '9' || c == '-'
  }

  predicate RuleName(n: string) {
    forall i :: 0 <= i < |n| ==> NameChar(n[i])
  }

  /** Every run of characters that cannot occur in a rule name becomes one hyphen. */
  function Escape(n: string): string {
    if n == "" then ""
    else if NameChar(n[0]) then [n[0]] + Escape(n[1..])
    else if |n| > 1 && !NameChar(n[1]) then Escape(n[1..])
    else "-" + Escape(n[1..])
  }

  lemma {:induction false} EscapeYieldsRuleName(n: string)
    ensures RuleName(Escape(n))
    ensures RuleName(n) ==> Escape(n) == n
  {
    if n != "" {
      EscapeYieldsRuleName(n[1..]);
      if RuleName(n) { assert n == [n[0]] + n[1..]; }
    }
  }

  /** Escaping keeps the hyphens there are, and leaves one for whatever it removes. */
  lemma {:induction false} EscapedHyphens(n: string)
    ensures '-' in n ==> '-' in Escape(n)
    ensures '-' !in Escape(n) ==> RuleName(n) && Escape(n) == n
  {
    if n != "" {
      EscapedHyphens(n[1..]);
      var e := Escape(n);
      if NameChar(n[0]) {
        assert e == [n[0]] + Escape(n[1..]) && n == [n[0]] + n[1..];
      } else {
        assert '-' in e by { HyphenForRun(n); }
      }
    }
  }

  lemma {:induction false} HyphenForRun(n: string)
    requires n != "" && !NameChar(n[0])
    ensures '-' in Escape(n)
  {
    if |n| > 1 && !NameChar(n[1]) {
      HyphenForRun(n[1..]);
    } else {
      assert Escape(n)[0] == '-';
    }
  }

  /** Escaping works piece by piece, where the next piece starts with a character of rule names. */
  lemma {:induction false} EscapeAppend(a: string, b: string)
    requires b == "" || NameChar(b[0])
    ensures Escape(a + b) == Escape(a) + Escape(b)
  {
    if a == "" {
      assert a + b == b;
    } else {
      assert (a + b)[1..] == a[1..] + b;
      EscapeAppend(a[1..], b);
    }
  }

  /** A run of characters that cannot occur in a rule name becomes one hyphen, however long it is. */
  lemma {:induction false} RunIsOneHyphen(a: string, run: string, b: string)
    requires RuleName(a) && run != "" && (forall i :: 0 <= i < |run| ==> !NameChar(run[i])) && RuleName(b)
    ensures Escape(a + run + b) == a + "-" + b
    decreases |a|, |run|
  {
    if a != "" {
      assert (a + run + b)[1..] == a[1..] + run + b;
      RunIsOneHyphen(a[1..], run, b);
    } else if |run| > 1 {
      assert (a + run + b)[1..] == a + run[1..] + b && !NameChar((a + run + b)[1]);
      RunIsOneHyphen(a, run[1..], b);
    } else {
      assert (a + run + b)[1..] == b;
      EscapeYieldsRuleName(b);
    }
  }

  /** A hyphen, and what follows it, stays as it is. */
  lemma EscapeTail(a: string, b: string)
    requires RuleName(b) && b != ""
    ensures Escape(a + b) == Escape(a) + b && RuleName(Escape(a + b))
  {
    EscapeAppend(a, b);
    EscapeYieldsRuleName(b);
    EscapeYieldsRuleName(a + b);
  }

  /** The name a rule ends up with: its own, or that with a number. */
  ghost predicate KeyFor(name: string, key: string) {
    key == name || exists i: nat :: key == name + Decimal.Dec(i)
  }

  /** ... which is one of these. */
  predicate Near(name: string, key: string) {
    name <= key && Decimal.Digits(key[|name|..])
  }

  lemma KeyIsNear(name: string, key: string)
    requires KeyFor(name, key)
    ensures Near(name, key)
  {
    if key != name {
      var i: nat :| key == name + Decimal.Dec(i);
      Decimal.DecCanonical(i);
      assert key[|name|..] == Decimal.Dec(i);
    } else {
      assert key[|name|..] == "";
    }
  }

  /** `is_reserved_name` */
  predicate IsReserved(prims: Builtins, name: string) {
    name == "root" || name in prims
  }

  /** The rule name `visit` uses for a schema called `name`. */
  function VisitName(prims: Builtins, name: string): string {
    if IsReserved(prims, name) then name + "-" else if name == "" then "root" else name
  }

  /** The name of a part of the schema called `name`. */
  function ChildName(name: string, suffix: string): string {
    name + (if name == "" then "" else "-") + suffix
  }

  /** A built-in name ends in a small letter, and not in `v`, `k` or `st` as the generated ones do. */
  predicate BuiltinName(n: string) {
    && |n| >= 2 && RuleName(n) && n != "root" && n != "space" && n != "dot"
    && 'a' <= n[|n| - 1] <= 'z' && n[|n| - 1] != 'v' && n[|n| - 1] != 'k'
    && (n[|n| - 2] != 's' || n[|n| - 1] != 't')
  }

  ghost predicate GoodBuiltins(prims: Builtins) {
    forall n :: n in prims ==> BuiltinName(n) && forall i :: 0 <= i < |prims[n].deps| ==> prims[n].deps[i] in prims
  }

  // ---------------------------------------------------------------- what a table must keep

  /** Built-in names hold the built-in rules. */
  ghost predicate Intact(prims: Builtins, t: Table) {
    && "space" in t && t["space"] == SPACE_RULE
    && forall n :: n in prims && n in t ==> t[n] == prims[n].content
  }

  ghost predicate DepsIn(prims: Builtins, t: Table, n: string)
    requires n in prims
  {
    forall i :: 0 <= i < |prims[n].deps| ==> prims[n].deps[i] in t
  }

  /** Adding `rule` under the rule name `n` leaves the built-in rules as they are: the name is not built-in, or the rule
      is the built-in one, or that is there already and the rule gets a number. */
  predicate KeepsBuiltins(prims: Builtins, t: Table, n: string, rule: Body) {
    n !in prims || rule == prims[n].content || n in t
  }

  /** `s` holds all that the built-in rules in it need. */
  predicate HoldsNeeds(prims: Builtins, s: set<string>) {
    forall n :: n in s && n in prims ==> forall i :: 0 <= i < |prims[n].deps| ==> prims[n].deps[i] in s
  }

  /** The built-in rule `p` needs `k`, directly or through others. */
  ghost predicate Needs(prims: Builtins, p: string, k: string) {
    forall s: set<string> :: p in s && HoldsNeeds(prims, s) ==> k in s
  }

  /** What the built-in rules refer to is there, those in `open` excepted. */
  ghost predicate Closed(prims: Builtins, t: Table, open: set<string>) {
    forall n :: n in prims && n in t && n !in open ==> DepsIn(prims, t, n)
  }

  lemma NumberedName(name: string, key: string)
    requires KeyFor(name, key) && key != name
    ensures |key| > |name| && Decimal.IsDigit(key[|key| - 1])
    ensures RuleName(name) ==> RuleName(key)
  {
    var i: nat :| key == name + Decimal.Dec(i);
    Decimal.DecCanonical(i);
    var d := Decimal.Dec(i);
    assert key[|key| - 1] == d[|d| - 1] && Decimal.IsDigit(d[|d| - 1]);
  }

  // ---------------------------------------------------------------- the table

  class RuleTable {
    const prims: Builtins
    var rules: Table

    ghost predicate Valid()
      reads this
    {
      GoodBuiltins(prims) && Intact(prims, rules) && Closed(prims, rules, {})
    }

    constructor (prims: Builtins)
      requires GoodBuiltins(prims)
      ensures Valid() && this.prims == prims && rules == map["space" := SPACE_RULE]
    {
      this.prims := prims;
      rules := map["space" := SPACE_RULE];
    }

    /** `_add_rule`: the rule gets its name, or the name with the first number that fits. Nothing stored changes. */
    method AddRule(name: string, rule: Body) returns (key: string)
      modifies this
      ensures rules == old(rules)[key := rule] && Extends(old(rules), rules)
      ensures KeyFor(Escape(name), key)
      ensures Escape(name) !in old(rules) || old(rules)[Escape(name)] == rule ==> key == Escape(name)
      ensures old(Valid()) && Escape(name) !in prims ==> Valid() && RuleName(key) && key !in prims
      ensures GoodBuiltins(prims) && old(Intact(prims, rules)) ==>
                (Intact(prims, rules) <==> KeepsBuiltins(prims, old(rules), Escape(name), rule))
    {
      EscapeYieldsRuleName(name);
      NamedByUser(prims, Escape(name));
      var escName := Escape(name);
      if escName !in rules || rules[escName] == rule {
        rules := rules[escName := rule];
        return escName;
      }
      var i := 0;
      ghost var tried: set<string> := {};
      while escName + Decimal.Dec(i) in rules && rules[escName + Decimal.Dec(i)] != rule
        invariant rules == old(rules)
        invariant tried <= rules.Keys
        invariant forall k :: k in tried ==> exists j: nat :: j < i && k == escName + Decimal.Dec(j)
        decreases rules.Keys - tried
      {
        NumbersDiffer(escName, i, tried);
        tried := tried + {escName + Decimal.Dec(i)};
        i := i + 1;
      }
      key := escName + Decimal.Dec(i);
      rules := rules[key := rule];
    }

    /** `_add_primitive`: a built-in rule under some name, and with it every built-in rule it needs. `open` are the
        built-in rules whose needs the callers are still filling in. */
    method AddPrimitive(name: string, p: string, ghost open: set<string>) returns (n: string)
      requires GoodBuiltins(prims) && p in prims
      modifies this
      ensures Extends(old(rules), rules) && n in rules && rules[n] == prims[p].content && DepsIn(prims, rules, p)
      ensures KeyFor(Escape(name), n) && forall k :: k in rules ==> k in old(rules) || k == n || Needs(prims, p, k)
      ensures Escape(name) !in old(rules) ==> n == Escape(name)
      ensures old(Intact(prims, rules) && Closed(prims, rules, open)) && (name == p || Escape(name) !in prims) ==>
                Intact(prims, rules) && Closed(prims, rules, open) && (name == p ==> n == p)
      decreases prims.Keys - rules.Keys, Escape(name) != p || p in rules
    {
      hide RuleName, Escape, HoldsNeeds, Needs, KeyFor, Intact, Closed;
      EscapeYieldsRuleName(p);
      n := AddRule(name, prims[p].content);
      ghost var mid := rules;
      ghost var keeps := old(Intact(prims, rules) && Closed(prims, rules, open))
        && (name == p || Escape(name) !in prims);
      if keeps { PrimitiveAdded(prims, old(rules), mid, open, name, p, n); }
      for i := 0 to |prims[p].deps|
        invariant keeps ==> Intact(prims, rules) && Closed(prims, rules, open + {p})
        invariant Extends(mid, rules)
        invariant forall j :: 0 <= j < i ==> prims[p].deps[j] in rules
        invariant forall k :: k in rules ==> k in mid || Needs(prims, p, k)
      {
        var dep := prims[p].deps[i];
        if dep !in rules {
          assert prims.Keys - rules.Keys <= prims.Keys - old(rules).Keys;
          assert Escape(name) == p && p !in old(rules) ==> p in prims.Keys - old(rules).Keys;
          EscapeYieldsRuleName(dep);
          ghost var before := rules;
          var m := AddPrimitive(dep, dep, open + {p});
          NeedsMore(prims, p, i, before, rules);
        }
      }
      if keeps { NeedsFilled(prims, rules, open, p); }
    }
  }

  lemma PrimitiveAdded(prims: Builtins, t: Table, t': Table, open: set<string>, name: string, p: string, n: string)
    requires GoodBuiltins(prims) && p in prims && Intact(prims, t) && Closed(prims, t, open)
    requires (name == p || Escape(name) !in prims) && KeyFor(Escape(name), n)
    requires t' == t[n := prims[p].content] && Extends(t, t')
    requires Escape(name) !in t || t[Escape(name)] == prims[p].content ==> n == Escape(name)
    ensures Intact(prims, t') && Closed(prims, t', open + {p}) && (name == p ==> n == p)
  {
    EscapeYieldsRuleName(p);
    if n != Escape(name) { NumberedName(Escape(name), n); }
  }

  /** All needs filled in. */
  lemma NeedsFilled(prims: Builtins, t: Table, open: set<string>, p: string)
    requires p in prims && Closed(prims, t, open + {p}) && DepsIn(prims, t, p)
    ensures Closed(prims, t, open)
  {
  }

  lemma NeedsMore(prims: Builtins, p: string, i: nat, t: Table, t': Table)
    requires p in prims && i < |prims[p].deps|
    requires forall k :: k in t' ==> k in t || k == prims[p].deps[i] || Needs(prims, prims[p].deps[i], k)
    ensures forall k :: k in t' ==> k in t || Needs(prims, p, k)
  {
    forall k | k in t' && k !in t ensures Needs(prims, p, k) {
      forall s: set<string> | p in s && HoldsNeeds(prims, s) ensures k in s {
        assert prims[p].deps[i] in s;
      }
    }
  }

  lemma NamedByUser(prims: Builtins, name: string)
    ensures GoodBuiltins(prims) && RuleName(name) && name !in prims ==>
              forall key :: KeyFor(name, key) ==> RuleName(key) && key !in prims
  {
    forall key | KeyFor(name, key) && key != name
      ensures Decimal.IsDigit(key[|key| - 1]) && (RuleName(name) ==> RuleName(key))
    {
      NumberedName(name, key);
    }
  }

  lemma NumbersDiffer(n: string, i: nat, tried: set<string>)
    requires forall k :: k in tried ==> exists j: nat :: j < i && k == n + Decimal.Dec(j)
    ensures n + Decimal.Dec(i) !in tried
  {
    if n + Decimal.Dec(i) in tried {
      var j: nat :| j < i && n + Decimal.Dec(i) == n + Decimal.Dec(j);
      assert (n + Decimal.Dec(i))[|n|..] == Decimal.Dec(i) && (n + Decimal.Dec(j))[|n|..] == Decimal.Dec(j);
      Decimal.DecCanonical(i);
      Decimal.DecCanonical(j);
    }
  }
}
