/** The texts written for optional keys derive each sequence of keys as often as `ObjectKeys` counts. */
module ObjectCounts {
  import opened Gbnf
  import opened Derivations
  import opened ObjectKeys

  /** The entry rules of a sequence of keys. */
  function Named(kvNames: map<string, string>, sel: seq<string>): (r: seq<string>)
    ensures |r| == |sel|
  {
    seq(|sel|, i requires 0 <= i < |sel| => if sel[i] in kvNames then kvNames[sel[i]] else "")
  }

  predicate Known(kvNames: map<string, string>, sel: seq<string>) {
    forall i :: 0 <= i < |sel| ==> sel[i] in kvNames
  }

  /** Every key has an entry rule of its own, which cannot be taken for white space or a shared rule. */
  ghost predicate Distinguished(t: Table, kvNames: map<string, string>) {
    && (forall k :: k in kvNames ==>
          kvNames[k] in t && kvNames[k] != "space" && t[kvNames[k]] != [] && !t[kvNames[k]][0].Rep?)
    && forall k, k' :: k in kvNames && k' in kvNames && kvNames[k] == kvNames[k'] ==> k == k'
  }

  predicate StarLast(ks: seq<string>) {
    forall i :: 0 <= i < |ks| - 1 ==> ks[i] != STAR
  }

  /** In every later table, `b` derives a sequence of keys as often as the keys `ks` are counted for it. */
  ghost predicate RefsCounted(t: Table, kvNames: map<string, string>, ks: seq<string>, firstIsOptional: bool, b: Body)
    requires ks != []
  {
    forall t', sel, depth: nat :: Extends(t, t') && depth >= |ks| && Known(kvNames, sel) ==>
      SeqWays(t', kvNames.Values, b, Named(kvNames, sel), depth)
      == if firstIsOptional then RestCount(ks, sel) else StartCount(ks, sel)
  }

  /** The shared rule for `ks` does. */
  ghost predicate RuleCounted(t: Table, kvNames: map<string, string>, ks: seq<string>, key: string) {
    forall t', sel, depth: nat :: Extends(t, t') && depth > |ks| && Known(kvNames, sel) ==>
      ItemWays(t', kvNames.Values, Ref(key), Named(kvNames, sel), depth) == RestCount(ks, sel)
  }

  ghost predicate AltsCounted(t: Table, kvNames: map<string, string>, ks: seq<string>, b: Body) {
    forall t', sel, depth: nat :: Extends(t, t') && depth >= |ks| && Known(kvNames, sel) ==>
      BodyWays(t', kvNames.Values, b, Named(kvNames, sel), depth) == StartsCount(ks, sel)
  }

  lemma RuleAdded(tm: Table, t: Table, kvNames: map<string, string>, ks: seq<string>, key: string, rest: Body)
    requires ks != [] && Extends(tm, t) && Distinguished(t, kvNames) && RefsCounted(tm, kvNames, ks, true, rest)
    requires key in t && t[key] == rest && NoBar(rest) && rest != [] && rest[0].Rep? && "space" in t
    requires t["space"] != [] && !t["space"][0].Rep?
    ensures RuleCounted(t, kvNames, ks, key)
  {
    assert key !in kvNames.Values;
    forall t', sel, depth: nat | Extends(t, t') && depth > |ks| && Known(kvNames, sel)
      ensures ItemWays(t', kvNames.Values, Ref(key), Named(kvNames, sel), depth) == RestCount(ks, sel)
    {
      assert Extends(tm, t');
      assert key in t' && t'[key] == rest;
      NoLaterWays(t', kvNames.Values, rest, Named(kvNames, sel), depth - 1);
    }
  }

  // ---------------------------------------------------------------- names of keys

  lemma NamedRest(t: Table, kvNames: map<string, string>, sel: seq<string>, k: string)
    requires Known(kvNames, sel) && sel != [] && k in kvNames && Distinguished(t, kvNames)
    ensures Named(kvNames, sel)[..1] == [kvNames[k]] <==> sel[0] == k
    ensures [kvNames[k]] <= Named(kvNames, sel) <==> sel[0] == k
    ensures Named(kvNames, sel)[1..] == Named(kvNames, sel[1..]) && Known(kvNames, sel[1..])
  {
    var ns, kv := Named(kvNames, sel), kvNames[k];
    assert ns[..1] == [ns[0]] && ns[0] == kvNames[sel[0]];
    assert [kv] <= ns <==> ns[0] == kv;
  }

  lemma NamedCopies(t: Table, kvNames: map<string, string>, sel: seq<string>, k: string)
    requires Distinguished(t, kvNames) && Known(kvNames, sel) && k in kvNames
    ensures Named(kvNames, sel) == Copies(kvNames[k], |sel|) <==> forall i :: 0 <= i < |sel| ==> sel[i] == k
  {
    var ns := Named(kvNames, sel);
    if ns == Copies(kvNames[k], |sel|) {
      forall i | 0 <= i < |sel| ensures sel[i] == k {
        assert ns[i] == kvNames[sel[i]] == Copies(kvNames[k], |sel|)[i];
      }
    }
  }

  lemma CommaWord(kvs: set<string>)
    requires "space" !in kvs
    ensures WordOf(kvs, COMMA) == []
  {
    var rest, none: Body := [Ref("space")], [];
    assert COMMA[1..] == rest && rest[1..] == none;
    assert WordOf(kvs, rest) == WordOf(kvs, none);
  }

  lemma CommaRef(t: Table, kvNames: map<string, string>, k: string, depth: nat)
    requires k in kvNames && "space" !in kvNames.Values
    ensures Fixed(t, kvNames.Values, Group(COMMA + [Ref(kvNames[k])]), [kvNames[k]], depth)
    ensures Fixed(t, kvNames.Values, Ref(kvNames[k]), [kvNames[k]], depth)
  {
    var kvs, b := kvNames.Values, COMMA + [Ref(kvNames[k])];
    assert kvNames[k] in kvs;
    PlainGroup(t, kvs, b, depth);
    CommaWord(kvs);
    var one, none: Body := [Ref(kvNames[k])], [];
    WordAppend(kvs, COMMA, one);
    assert one[1..] == none && WordOf(kvs, one) == [kvNames[k]] + WordOf(kvs, none);
  }

  // ---------------------------------------------------------------- the texts

  /** What comes after the first item: nothing, or the shared rule for the other keys. */
  ghost predicate RestOf(t: Table, kvNames: map<string, string>, ks: seq<string>, rest: Body)
    requires ks != []
  {
    if |ks| == 1 then rest == []
    else rest != [] && rest == [rest[0]] && rest[0].Ref? && RuleCounted(t, kvNames, ks[1..], rest[0].name)
  }

  lemma RestWays(t: Table, t': Table, kvNames: map<string, string>, ks: seq<string>, rest: Body, sel: seq<string>,
      depth: nat)
    requires ks != [] && RestOf(t, kvNames, ks, rest) && Extends(t, t') && depth >= |ks| && Known(kvNames, sel)
    ensures SeqWays(t', kvNames.Values, rest, Named(kvNames, sel), depth) == RestCount(ks[1..], sel)
  {
    if |ks| > 1 { OneItem(t', kvNames.Values, rest[0], Named(kvNames, sel), depth); }
  }

  lemma OptOfName(t: Table, kvs: set<string>, g: Item, n: string, depth: nat)
    requires Fixed(t, kvs, g, [n], depth)
    ensures forall s :: ItemWays(t, kvs, Rep(g, 0, Upto(1)), s, depth) == if s == [] || s == [n] then 1 else 0
  {
    forall s ensures ItemWays(t, kvs, Rep(g, 0, Upto(1)), s, depth) == if s == [] || s == [n] then 1 else 0 {
      OptWays(t, kvs, g, s, depth);
    }
  }

  /** A key that may be left out. */
  lemma OptionalFirst(t: Table, t': Table, kvNames: map<string, string>, ks: seq<string>, rest: Body,
      sel: seq<string>, depth: nat)
    requires ks != [] && ks[0] in kvNames && ks[0] != STAR && Distinguished(t, kvNames)
    requires RestOf(t, kvNames, ks, rest) && Extends(t, t') && depth >= |ks| && Known(kvNames, sel)
    ensures var it := Rep(Group(COMMA + [Ref(kvNames[ks[0]])]), 0, Upto(1));
            SeqWays(t', kvNames.Values, [it] + rest, Named(kvNames, sel), depth) == RestCount(ks, sel)
  {
    var kvs, g := kvNames.Values, Group(COMMA + [Ref(kvNames[ks[0]])]);
    var it := Rep(g, 0, Upto(1));
    hide SeqWays, Named, RuleCounted, Fixed;
    CommaRef(t', kvNames, ks[0], depth);
    OptOfName(t', kvs, g, kvNames[ks[0]], depth);
    OptionalNameFirst(t', kvs, it, kvNames[ks[0]], rest, Named(kvNames, sel), depth);
    RestWays(t, t', kvNames, ks, rest, sel, depth);
    if sel != [] {
      NamedRest(t, kvNames, sel, ks[0]);
      RestWays(t, t', kvNames, ks, rest, sel[1..], depth);
    }
  }

  /** Additional entries, as many as there are. */
  lemma StarredFirst(t: Table, t': Table, kvNames: map<string, string>, sel: seq<string>, depth: nat)
    requires STAR in kvNames && Distinguished(t, kvNames) && Known(kvNames, sel)
    ensures SeqWays(t', kvNames.Values, [Rep(Group(COMMA + [Ref(kvNames[STAR])]), 0, Unbounded)], Named(kvNames, sel),
              depth) == RestCount([STAR], sel)
  {
    var kvs, g := kvNames.Values, Group(COMMA + [Ref(kvNames[STAR])]);
    CommaRef(t', kvNames, STAR, depth);
    OneItem(t', kvs, Rep(g, 0, Unbounded), Named(kvNames, sel), depth);
    StarWays(t', kvs, g, kvNames[STAR], Named(kvNames, sel), depth);
    NamedCopies(t, kvNames, sel, STAR);
    OneStarCount(sel);
    if forall i :: 0 <= i < |sel| ==> sel[i] == STAR { assert sel == Stars(|sel|); }
  }

  /** The first key, and then what may follow it. */
  lemma RequiredFirst(t: Table, t': Table, kvNames: map<string, string>, ks: seq<string>, rest: Body,
      sel: seq<string>, depth: nat)
    requires ks != [] && ks[0] in kvNames && Distinguished(t, kvNames) && Extends(t, t') && Known(kvNames, sel)
    requires if ks[0] == STAR then ks == [STAR] && rest == [Rep(Group(COMMA + [Ref(kvNames[STAR])]), 0, Unbounded)]
             else RestOf(t, kvNames, ks, rest) && depth >= |ks|
    ensures SeqWays(t', kvNames.Values, [Ref(kvNames[ks[0]])] + rest, Named(kvNames, sel), depth) == StartCount(ks, sel)
  {
    var kvs, kv := kvNames.Values, kvNames[ks[0]];
    CommaRef(t', kvNames, ks[0], depth);
    FixedFirst(t', kvs, Ref(kv), [kv], rest, Named(kvNames, sel), depth);
    if sel != [] {
      NamedRest(t, kvNames, sel, ks[0]);
      if ks[0] == STAR {
        StarredFirst(t, t', kvNames, sel[1..], depth);
      } else {
        RestWays(t, t', kvNames, ks, rest, sel[1..], depth);
      }
    }
  }

  /** The text for the keys `ks`, its first item and the reference to the shared rule. */
  lemma RefsAreCounted(t: Table, kvNames: map<string, string>, ks: seq<string>, firstIsOptional: bool, rest: Body,
      res: Body)
    requires ks != [] && ks[0] in kvNames && Distinguished(t, kvNames) && StarLast(ks) && RestOf(t, kvNames, ks, rest)
    requires var kv := Ref(kvNames[ks[0]]);
             var comma := Group(COMMA + [kv]);
             res == (if firstIsOptional then [Rep(comma, 0, if ks[0] == STAR then Unbounded else Upto(1))]
                     else [kv] + if ks[0] == STAR then [Rep(comma, 0, Unbounded)] else []) + rest
    ensures RefsCounted(t, kvNames, ks, firstIsOptional, res)
  {
    var kv := Ref(kvNames[ks[0]]);
    var comma := Group(COMMA + [kv]);
    if ks[0] == STAR { assert |ks| == 1 && ks == [STAR] && rest == []; }
    forall t', sel, depth: nat | Extends(t, t') && depth >= |ks| && Known(kvNames, sel)
      ensures SeqWays(t', kvNames.Values, res, Named(kvNames, sel), depth)
              == if firstIsOptional then RestCount(ks, sel) else StartCount(ks, sel)
    {
      if firstIsOptional && ks[0] == STAR {
        assert res == [Rep(comma, 0, Unbounded)];
        StarredFirst(t, t', kvNames, sel, depth);
      } else if firstIsOptional {
        OptionalFirst(t, t', kvNames, ks, rest, sel, depth);
      } else if ks[0] == STAR {
        var more := [Rep(comma, 0, Unbounded)];
        assert res == [kv] + more;
        RequiredFirst(t, t', kvNames, ks, more, sel, depth);
      } else {
        assert res == [kv] + rest;
        RequiredFirst(t, t', kvNames, ks, rest, sel, depth);
      }
    }
  }

  // ---------------------------------------------------------------- alternatives

  /** The alternatives from the `i`-th key on are still to be written. */
  ghost predicate CountedSoFar(t: Table, kvNames: map<string, string>, ks: seq<string>, i: nat, b: Body)
    requires i <= |ks|
  {
    forall t', sel, depth: nat :: Extends(t, t') && depth >= |ks| && Known(kvNames, sel) ==>
      StartsCount(ks, sel)
      == (if i == 0 then 0 else BodyWays(t', kvNames.Values, b, Named(kvNames, sel), depth)) + StartsCount(ks[i..], sel)
  }

  lemma NextCounted(tm: Table, t: Table, kvNames: map<string, string>, ks: seq<string>, i: nat, before: Body, one: Body,
      b: Body)
    requires i < |ks| && Extends(tm, t) && CountedSoFar(tm, kvNames, ks, i, before)
    requires RefsCounted(t, kvNames, ks[i..], false, one) && NoBar(one)
    requires b == if i > 0 then before + [Bar] + one else one
    ensures CountedSoFar(t, kvNames, ks, i + 1, b)
  {
    assert ks[i..][1..] == ks[i + 1..];
    forall t', sel, depth: nat | Extends(t, t') && depth >= |ks| && Known(kvNames, sel)
      ensures StartsCount(ks, sel)
              == BodyWays(t', kvNames.Values, b, Named(kvNames, sel), depth) + StartsCount(ks[i + 1..], sel)
    {
      var ns := Named(kvNames, sel);
      assert Extends(tm, t');
      NoLaterWays(t', kvNames.Values, one, ns, depth);
      if i > 0 { WaysAlt(t', kvNames.Values, before, one, ns, depth); }
    }
  }

  lemma AllCounted(t: Table, kvNames: map<string, string>, ks: seq<string>, b: Body)
    requires ks != [] && CountedSoFar(t, kvNames, ks, |ks|, b)
    ensures AltsCounted(t, kvNames, ks, b)
  {
    assert ks[|ks|..] == [];
  }

  // ---------------------------------------------------------------- all members

  /** All the required keys in order, then a selection of the others. */
  ghost predicate IsSequence(required: seq<string>, optional: seq<string>, additional: bool, sel: seq<string>) {
    required <= sel && Selection(optional, additional, sel[|required|..])
  }

  /** The text between the braces derives the key sequences of the object, each in one way, and no others. */
  ghost predicate MembersCounted(t: Table, kvNames: map<string, string>, required: seq<string>, optional: seq<string>,
      additional: bool, b: Body)
  {
    forall t', sel, depth: nat :: Extends(t, t') && depth > |optional| && Known(kvNames, sel) ==>
      SeqWays(t', kvNames.Values, b, Named(kvNames, sel), depth)
      == if IsSequence(required, optional, additional, sel) then 1 else 0
  }

  lemma NamedPrefix(t: Table, kvNames: map<string, string>, required: seq<string>, sel: seq<string>)
    requires Distinguished(t, kvNames) && Known(kvNames, required) && Known(kvNames, sel)
    ensures Named(kvNames, required) <= Named(kvNames, sel) <==> required <= sel
    ensures required <= sel ==> Known(kvNames, sel[|required|..])
    ensures required <= sel ==> Named(kvNames, sel)[|required|..] == Named(kvNames, sel[|required|..])
  {
    var rs, ns := Named(kvNames, required), Named(kvNames, sel);
    if rs <= ns {
      forall i | 0 <= i < |required| ensures required[i] == sel[i] {
        assert rs[i] == ns[i];
      }
    }
    if required <= sel {
      forall i | 0 <= i < |required| ensures rs[i] == ns[i] {
        assert required[i] == sel[i];
      }
    }
  }

  /** The alternatives in a group that may be left out, after a comma if there are required keys. */
  function Choice(required: seq<string>, alts: Body): Item {
    if required == [] then Group(alts) else Group(COMMA + [Group(alts)])
  }

  lemma ChoiceWays(t: Table, kvs: set<string>, required: seq<string>, alts: Body, sel: seq<string>, depth: nat)
    requires "space" !in kvs
    ensures ItemWays(t, kvs, Choice(required, alts), sel, depth) == BodyWays(t, kvs, alts, sel, depth)
  {
    if required != [] {
      var b := COMMA + [Group(alts)];
      NoLaterWays(t, kvs, b, sel, depth);
      CommaWord(kvs);
      PlainFirst(t, kvs, COMMA, [Group(alts)], sel, depth);
      OneItem(t, kvs, Group(alts), sel, depth);
      assert sel[0..] == sel;
    }
  }

  lemma {:induction false} MembersAreCounted(t: Table, kvNames: map<string, string>, required: seq<string>,
      optional: seq<string>, additional: bool, front: Body, alts: Body)
    requires Distinguished(t, kvNames) && NoStar(optional) && Distinct(optional) && Known(kvNames, required)
    requires PlainBody(kvNames.Values, front) && WordOf(kvNames.Values, front) == Named(kvNames, required)
    requires Keys(optional, additional) != [] && AltsCounted(t, kvNames, Keys(optional, additional), alts)
    ensures MembersCounted(t, kvNames, required, optional, additional,
              front + [Rep(Choice(required, alts), 0, Upto(1))])
  {
    var kvs, it := kvNames.Values, Rep(Choice(required, alts), 0, Upto(1));
    forall t', sel, depth: nat | Extends(t, t') && depth > |optional| && Known(kvNames, sel)
      ensures SeqWays(t', kvs, front + [it], Named(kvNames, sel), depth)
              == if IsSequence(required, optional, additional, sel) then 1 else 0
    {
      var ns := Named(kvNames, sel);
      PlainFirst(t', kvs, front, [it], ns, depth);
      NamedPrefix(t, kvNames, required, sel);
      if required <= sel {
        var rest := sel[|required|..];
        OneItem(t', kvs, it, Named(kvNames, rest), depth);
        OptWays(t', kvs, Choice(required, alts), Named(kvNames, rest), depth);
        ChoiceWays(t', kvs, required, alts, Named(kvNames, rest), depth);
        assert BodyWays(t', kvs, alts, Named(kvNames, rest), depth) == StartsCount(Keys(optional, additional), rest);
        if rest == [] {
          NothingSelected(optional, additional);
          NothingStarts(Keys(optional, additional));
        } else {
          OneDerivation(optional, additional, rest);
        }
      }
    }
  }

  lemma {:induction false} NothingStarts(ks: seq<string>)
    ensures StartsCount(ks, []) == 0
  {
    if ks != [] { NothingStarts(ks[1..]); }
  }

  lemma {:induction false} RequiredAreCounted(t: Table, kvNames: map<string, string>, required: seq<string>,
      front: Body)
    requires Distinguished(t, kvNames) && Known(kvNames, required)
    requires PlainBody(kvNames.Values, front) && WordOf(kvNames.Values, front) == Named(kvNames, required)
    ensures MembersCounted(t, kvNames, required, [], false, front)
  {
    var kvs := kvNames.Values;
    forall t', sel, depth: nat | Extends(t, t') && depth > 0 && Known(kvNames, sel)
      ensures SeqWays(t', kvs, front, Named(kvNames, sel), depth)
              == if IsSequence(required, [], false, sel) then 1 else 0
    {
      PlainFirst(t', kvs, front, [], Named(kvNames, sel), depth);
      assert front + [] == front;
      NamedPrefix(t, kvNames, required, sel);
      if required <= sel {
        StarsOnly(false, sel[|required|..]);
        assert Stars(0) == [];
      }
    }
  }

  /** The whole rule derives the key sequences of the object, each in one way, and no others. */
  ghost predicate RuleIsUnambiguous(t: Table, kvNames: map<string, string>, required: seq<string>,
      optional: seq<string>, additional: bool, rule: Body)
  {
    forall t', sel, depth: nat :: Extends(t, t') && depth > |optional| && Known(kvNames, sel) ==>
      BodyWays(t', kvNames.Values, rule, Named(kvNames, sel), depth)
      == if IsSequence(required, optional, additional, sel) then 1 else 0
  }

  lemma SilentAround(t: Table, kvs: set<string>, open: string, inner: Body, close: string, sel: seq<string>,
      depth: nat)
    requires "space" !in kvs && NoBar(inner)
    ensures BodyWays(t, kvs, [Lit(open), Ref("space")] + inner + [Lit(close), Ref("space")], sel, depth)
            == SeqWays(t, kvs, inner, sel, depth)
  {
    var o, c := [Lit(open), Ref("space")], [Lit(close), Ref("space")];
    var b := o + inner + c;
    NoLaterWays(t, kvs, b, sel, depth);
    SilentWord(kvs, open);
    SilentWord(kvs, close);
    PlainFirst(t, kvs, o, inner + c, sel, depth);
    assert b == o + (inner + c) && sel[0..] == sel;
    SilentLast(t, kvs, inner, c, sel, depth);
  }

  lemma SilentWord(kvs: set<string>, text: string)
    requires "space" !in kvs
    ensures PlainBody(kvs, [Lit(text), Ref("space")]) && WordOf(kvs, [Lit(text), Ref("space")]) == []
  {
    var rest, none: Body := [Ref("space")], [];
    assert [Lit(text), Ref("space")][1..] == rest && rest[1..] == none;
    assert WordOf(kvs, rest) == WordOf(kvs, none);
  }

  /** Plain text without names at the end changes nothing. */
  lemma {:induction false} SilentLast(t: Table, kvs: set<string>, b: Body, c: Body, sel: seq<string>, depth: nat)
    requires NoBar(b) && PlainBody(kvs, c) && WordOf(kvs, c) == []
    ensures SeqWays(t, kvs, b + c, sel, depth) == SeqWays(t, kvs, b, sel, depth)
    decreases |b|
  {
    if b == [] {
      assert b + c == c && c + [] == c && sel[0..] == sel;
      PlainFirst(t, kvs, c, [], sel, depth);
    } else {
      var w := b + c;
      assert w[1..] == b[1..] + c;
      forall s ensures SeqWays(t, kvs, w[1..], s, depth) == SeqWays(t, kvs, b[1..], s, depth) {
        SilentLast(t, kvs, b[1..], c, s, depth);
      }
      ConvSame(s => ItemWays(t, kvs, w[0], s, depth), s => SeqWays(t, kvs, w[1..], s, depth),
               s => ItemWays(t, kvs, b[0], s, depth), s => SeqWays(t, kvs, b[1..], s, depth), sel);
    }
  }

  lemma BracesCounted(t: Table, kvNames: map<string, string>, required: seq<string>, optional: seq<string>,
      additional: bool, inner: Body)
    requires "space" !in kvNames.Values && NoBar(inner)
    requires MembersCounted(t, kvNames, required, optional, additional, inner)
    ensures RuleIsUnambiguous(t, kvNames, required, optional, additional,
              [Lit("{"), Ref("space")] + inner + [Lit("}"), Ref("space")])
  {
    forall t', sel, depth: nat | Extends(t, t') && depth > |optional| && Known(kvNames, sel)
      ensures BodyWays(t', kvNames.Values, [Lit("{"), Ref("space")] + inner + [Lit("}"), Ref("space")],
                Named(kvNames, sel), depth)
              == if IsSequence(required, optional, additional, sel) then 1 else 0
    {
      SilentAround(t', kvNames.Values, "{", inner, "}", Named(kvNames, sel), depth);
    }
  }
}
