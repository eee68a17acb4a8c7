/** The rule for JSON strings that are none of the given names: `_not_strings` of json-schema-to-grammar.cpp. */
module NotStrings {
  import opened Gbnf
  import opened ClassText
  import ByteReader

  datatype Option<+T> = None | Some(value: T)

  /** A trie node; `children` is the ordered map from characters to nodes. */
  datatype Trie = Trie(children: seq<(char, Trie)>, isEnd: bool)

  const EMPTY := Trie([], false)

  // ---------------------------------------------------------------- building the trie

  /** `insert`: walk down, creating missing nodes, and mark the last one. */
  function Insert(t: Trie, s: string): Trie
    decreases s, 2
  {
    if s == "" then t.(isEnd := true) else t.(children := InsertBelow(t.children, s))
  }

  function InsertBelow(cs: seq<(char, Trie)>, s: string): seq<(char, Trie)>
    requires s != ""
    decreases s, 1, cs
  {
    if cs == [] || s[0] < cs[0].0 then [(s[0], Insert(EMPTY, s[1..]))] + cs
    else if s[0] == cs[0].0 then [(s[0], Insert(cs[0].1, s[1..]))] + cs[1..]
    else [cs[0]] + InsertBelow(cs[1..], s)
  }

  function Child(cs: seq<(char, Trie)>, c: char): Option<Trie> {
    if cs == [] then None else if cs[0].0 == c then Some(cs[0].1) else Child(cs[1..], c)
  }

  /** The node that `w` leads to. */
  function Walk(t: Trie, w: string): Option<Trie>
    decreases w
  {
    if w == "" then Some(t)
    else match Child(t.children, w[0]) { case None => None case Some(u) => Walk(u, w[1..]) }
  }

  ghost predicate Ordered(cs: seq<(char, Trie)>) {
    forall i, j :: 0 <= i < j < |cs| ==> cs[i].0 < cs[j].0
  }

  /** Keys ascend at every node, and every node without children, the root excepted, ends a name. */
  ghost predicate Sound(t: Trie) {
    && Ordered(t.children)
    && forall i :: 0 <= i < |t.children| ==>
         Sound(t.children[i].1) && (t.children[i].1.children == [] ==> t.children[i].1.isEnd)
  }

  lemma {:induction false} ChildOfInsert(cs: seq<(char, Trie)>, s: string, c: char)
    requires s != "" && Ordered(cs)
    ensures Child(InsertBelow(cs, s), c) ==
            if c == s[0] then Some(Insert(match Child(cs, c) { case None => EMPTY case Some(u) => u },
                s[1..])) else Child(cs, c)
  {
    if cs == [] || s[0] < cs[0].0 {
      if cs != [] && c == s[0] { ChildAbsent(cs, c); }
      assert ([(s[0], Insert(EMPTY, s[1..]))] + cs)[1..] == cs;
    } else if s[0] == cs[0].0 {
      assert ([(s[0], Insert(cs[0].1, s[1..]))] + cs[1..])[1..] == cs[1..];
    } else {
      assert ([cs[0]] + InsertBelow(cs[1..], s))[1..] == InsertBelow(cs[1..], s);
      ChildOfInsert(cs[1..], s, c);
    }
  }

  lemma {:induction false} ChildAbsent(cs: seq<(char, Trie)>, c: char)
    requires forall i :: 0 <= i < |cs| ==> cs[i].0 != c
    ensures Child(cs, c) == None
  {
    if cs != [] { ChildAbsent(cs[1..], c); }
  }

  lemma {:induction false} ChildAt(cs: seq<(char, Trie)>, c: char)
    ensures Child(cs, c).Some? ==> exists i :: 0 <= i < |cs| && cs[i] == (c, Child(cs, c).value)
  {
    if cs != [] && cs[0].0 != c {
      ChildAt(cs[1..], c);
      if i :| 0 <= i < |cs[1..]| && Child(cs, c).Some? && cs[1..][i] == (c, Child(cs, c).value) {
        assert cs[i + 1] == (c, Child(cs, c).value);
      }
    }
  }

  lemma {:induction false} InsertSound(t: Trie, s: string)
    requires Sound(t)
    ensures Sound(Insert(t, s)) && (Insert(t, s).children == [] ==> Insert(t, s).isEnd)
    decreases s, 2
  {
    if s != "" { InsertBelowSound(t.children, s); }
  }

  lemma {:induction false} InsertBelowSound(cs: seq<(char, Trie)>, s: string)
    requires s != "" && Sound(Trie(cs, false))
    ensures Sound(Trie(InsertBelow(cs, s), false)) && InsertBelow(cs, s) != []
    ensures cs != [] ==> InsertBelow(cs, s)[0].0 == if s[0] < cs[0].0 then s[0] else cs[0].0
    ensures cs == [] ==> InsertBelow(cs, s)[0].0 == s[0]
    decreases s, 1, cs
  {
    if cs == [] || s[0] < cs[0].0 {
      InsertSound(EMPTY, s[1..]);
    } else if s[0] == cs[0].0 {
      InsertSound(cs[0].1, s[1..]);
    } else {
      var rest := cs[1..];
      assert Sound(Trie(rest, false)) by {
        forall i | 0 <= i < |rest| ensures Sound(rest[i].1) && (rest[i].1.children == [] ==> rest[i].1.isEnd) {
          assert rest[i] == cs[i + 1];
        }
      }
      InsertBelowSound(rest, s);
    }
  }

  /** Inserting a name adds exactly the paths along its prefixes, and marks exactly its own node. */
  lemma {:induction false} WalkOfInsert(t: Trie, s: string, w: string)
    requires Sound(t)
    ensures Walk(Insert(t, s), w).Some? <==> Walk(t, w).Some? || w <= s
    ensures Marked(Insert(t, s), w) <==> Marked(t, w) || w == s
    decreases w
  {
    if w != "" && s != "" {
      ChildOfInsert(t.children, s, w[0]);
      ChildAt(t.children, w[0]);
      if w[0] == s[0] {
        var u := match Child(t.children, w[0]) { case None => EMPTY case Some(u) => u };
        WalkOfInsert(u, s[1..], w[1..]);
        assert w <= s <==> w[1..] <= s[1..];
        assert w == s <==> w[1..] == s[1..] by { assert w == [w[0]] + w[1..] && s == [s[0]] + s[1..]; }
        if w != [w[0]] { assert w[1..] != ""; }
      }
    }
  }

  predicate Marked(t: Trie, w: string) {
    var n := Walk(t, w);
    n.Some? && n.value.isEnd
  }

  /** The trie of the names. */
  function TrieOf(strings: seq<string>): Trie {
    if strings == [] then EMPTY else Insert(TrieOf(strings[..|strings| - 1]), strings[|strings| - 1])
  }

  /** The loop that fills it. */
  method BuildTrie(strings: seq<string>) returns (t: Trie)
    ensures t == TrieOf(strings)
  {
    t := EMPTY;
    for i := 0 to |strings|
      invariant t == TrieOf(strings[..i])
    {
      assert strings[..i + 1][..i] == strings[..i];
      t := Insert(t, strings[i]);
    }
    assert strings[..|strings|] == strings;
  }

  /** Its paths are the prefixes of the names, its marked nodes the names. */
  lemma {:induction false} TrieHoldsNames(strings: seq<string>, w: string)
    ensures Sound(TrieOf(strings))
    ensures Walk(TrieOf(strings), w).Some? <==> w == "" || IsPrefixOfSome(w, strings)
    ensures Marked(TrieOf(strings), w) <==> w in strings
  {
    if strings != [] {
      var front, s := strings[..|strings| - 1], strings[|strings| - 1];
      assert strings == front + [s];
      TrieHoldsNames(front, w);
      WalkOfInsert(TrieOf(front), s, w);
      InsertSound(TrieOf(front), s);
      PrefixSnoc(w, front, s);
    }
  }

  ghost predicate IsPrefixOfSome(w: string, strings: seq<string>) {
    exists i :: 0 <= i < |strings| && w <= strings[i]
  }

  lemma PrefixSnoc(w: string, strings: seq<string>, s: string)
    ensures IsPrefixOfSome(w, strings + [s]) <==> IsPrefixOfSome(w, strings) || w <= s
  {
    if i :| 0 <= i < |strings| && w <= strings[i] { assert (strings + [s])[i] == strings[i]; }
    if w <= s { assert (strings + [s])[|strings|] == s; }
  }

  // ---------------------------------------------------------------- the words the text should let through

  /** `w` leaves the trie below `t`: at a character that is no child, followed by any characters, or beyond a
      leaf by at least one character. `x` is what the character rule denotes. */
  ghost predicate Leaves(t: Trie, x: Lang, w: string)
    decreases w
  {
    && t.children != []
    && w != ""
    && (LeavesBelow(t.children, x, w)
        || (Child(t.children, w[0]) == None && w[0] != '"' && w[1..] in RepLang(x, 0, Unbounded)))
  }

  ghost predicate LeavesBelow(cs: seq<(char, Trie)>, x: Lang, w: string)
    requires w != ""
    decreases w, 0
  {
    var c := Child(cs, w[0]);
    c.Some? && if c.value.children != [] then Leaves(c.value, x, w[1..]) else w[1..] in RepLang(x, 1, Unbounded)
  }

  lemma {:induction false} ChildSnoc(cs: seq<(char, Trie)>, kv: (char, Trie), c: char)
    ensures Child(cs + [kv], c) == if Child(cs, c).Some? then Child(cs, c) else if kv.0 == c then Some(kv.1) else None
    ensures Child(cs, c) == None <==> c !in Keys(cs)
    ensures Keys(cs + [kv]) == Keys(cs) + [kv.0]
  {
    if cs == [] {
      assert [kv][1..] == [];
    } else {
      assert (cs + [kv])[1..] == cs[1..] + [kv];
      ChildSnoc(cs[1..], kv, c);
    }
  }

  function Keys(cs: seq<(char, Trie)>): string {
    if cs == [] then "" else [cs[0].0] + Keys(cs[1..])
  }

  lemma {:induction false} KeysAt(cs: seq<(char, Trie)>)
    ensures |Keys(cs)| == |cs| && forall i :: 0 <= i < |cs| ==> Keys(cs)[i] == cs[i].0
  {
    if cs != [] { KeysAt(cs[1..]); }
  }

  // ---------------------------------------------------------------- the text

  ghost function AnyOf(env: Env, charRule: string): Lang {
    ItemLang(env, Ref(charRule))
  }

  /** What the text written for a node denotes: one alternative per child, then one for every other character. */
  ghost predicate Written(t: Trie, x: Lang, w: string)
    decreases t, 1
  {
    && t.children != []
    && (WrittenBelow(t.children, x, w)
        || (w != "" && ClassHas("^\"" + Keys(t.children), w[0]) && w[1..] in RepLang(x, 0, Unbounded)))
  }

  ghost predicate WrittenBelow(cs: seq<(char, Trie)>, x: Lang, w: string)
    decreases cs, 0
  {
    exists i :: 0 <= i < |cs| && ChildWritten(cs[i], x, w)
  }

  /** The class of a caret alone has no members and is read as nothing. */
  ghost predicate ChildWritten(kv: (char, Trie), x: Lang, w: string)
    decreases kv, 0
  {
    if kv.0 == '^' then RestWritten(kv.1, x, w) else w != "" && w[0] == kv.0 && RestWritten(kv.1, x, w[1..])
  }

  ghost predicate RestWritten(u: Trie, x: Lang, w: string)
    decreases u, 2
  {
    if u.children != [] then Written(u, x, w) else w in RepLang(x, 1, Unbounded)
  }

  /** `[t]` followed by one more item. */
  lemma InClassThen(env: Env, t: string, it: Item, w: string)
    requires t != "" && t != "^" && !it.Bar?
    ensures w in BodyLang(env, [Class(t), it]) <==> w != "" && ClassHas(t, w[0]) && w[1..] in ItemLang(env, it)
  {
    SeqTwo(env, Class(t), it);
    BodyOfSeq(env, [Class(t), it]);
    InCharCat(t, ItemLang(env, it), w);
  }

  /** The text of one alternative. */
  lemma ChildText(env: Env, kv: (char, Trie), next: Item, x: Lang, w: string)
    requires !next.Bar? && forall v :: v in ItemLang(env, next) <==> RestWritten(kv.1, x, v)
    ensures w in BodyLang(env, [Class([kv.0]), next]) <==> ChildWritten(kv, x, w)
  {
    hide RestWritten, BodyLang, ItemLang, ClassHas;
    if kv.0 == '^' {
      CaretText(env, next);
    } else {
      InClassThen(env, [kv.0], next, w);
      if w != "" { OnlyOne(kv.0, w[0]); }
    }
  }

  lemma CaretText(env: Env, next: Item)
    requires !next.Bar?
    ensures BodyLang(env, [Class("^"), next]) == ItemLang(env, next)
  {
    var l := ItemLang(env, next);
    SeqTwo(env, Class("^"), next);
    BodyOfSeq(env, [Class("^"), next]);
    assert Cat(Eps(), l) == l by { CatEps(l); }
  }

  lemma OnlyOne(k: char, c: char)
    requires k != '^'
    ensures ClassHas([k], c) <==> c == k
  {
    assert [k][1..] == "" && !InRanges("", c);
  }

  lemma WrittenNext(cs: seq<(char, Trie)>, i: nat, x: Lang, w: string)
    requires i < |cs|
    ensures WrittenBelow(cs[..i + 1], x, w) <==> WrittenBelow(cs[..i], x, w) || ChildWritten(cs[i], x, w)
  {
    hide ChildWritten;
    var a, b := cs[..i], cs[..i + 1];
    if j :| 0 <= j < |b| && ChildWritten(b[j], x, w) { assert j < i ==> a[j] == b[j]; }
    if j :| 0 <= j < |a| && ChildWritten(a[j], x, w) { assert b[j] == a[j]; }
    if ChildWritten(cs[i], x, w) { assert b[i] == cs[i]; }
  }

  /** The recursive writer: one alternative per child, then one for every other character. */
  method VisitTrie(node: Trie, charRule: string) returns (out: Body)
    ensures node.children == [] ==> out == []
    ensures node.children != [] ==>
              forall env: Env, w :: w in BodyLang(env, out) <==> Written(node, AnyOf(env, charRule), w)
    decreases node
  {
    hide ChildWritten, RestWritten, ClassHas;
    out := [];
    var rejects := "";
    var cs := node.children;
    for i := 0 to |cs|
      invariant rejects == Keys(cs[..i])
      invariant i == 0 ==> out == []
      invariant i > 0 ==>
                  forall env: Env, w :: w in BodyLang(env, out) <==> WrittenBelow(cs[..i], AnyOf(env, charRule), w)
    {
      var c, child := cs[i].0, cs[i].1;
      rejects := rejects + [c];
      var next: Item;
      if child.children != [] {
        var sub := VisitTrie(child, charRule);
        next := Group(sub);
      } else {
        next := Rep(Ref(charRule), 1, Unbounded);
      }
      NextText(child, next, charRule);
      ghost var before := out;
      out := (if i == 0 then [] else out + [Bar]) + [Class([c]), next];
      assert cs[..i + 1] == cs[..i] + [cs[i]];
      forall env: Env, w
        ensures w in BodyLang(env, out) <==> WrittenBelow(cs[..i + 1], AnyOf(env, charRule), w)
      {
        BodyAlt(env, before, [Class([c]), next]);
        if i == 0 { assert out == [Class([c]), next]; }
        ChildText(env, cs[i], next, AnyOf(env, charRule), w);
        WrittenNext(cs, i, AnyOf(env, charRule), w);
      }
      ChildSnoc(cs[..i], cs[i], 'a');
    }
    assert cs[..|cs|] == cs;
    if cs != [] {
      ghost var before := out;
      var others := [Class("^\"" + rejects), Rep(Ref(charRule), 0, Unbounded)];
      out := out + [Bar] + others;
      forall env: Env, w ensures w in BodyLang(env, out) <==> Written(node, AnyOf(env, charRule), w) {
        BodyAlt(env, before, others);
        InClassThen(env, "^\"" + rejects, others[1], w);
      }
    }
  }

  lemma NextText(child: Trie, next: Item, charRule: string)
    requires if child.children == [] then next == Rep(Ref(charRule), 1, Unbounded)
             else next.Group? && forall env: Env, w ::
                 w in BodyLang(env, next.body) <==> Written(child, AnyOf(env, charRule), w)
    ensures forall env: Env, v :: v in ItemLang(env, next) <==> RestWritten(child, AnyOf(env, charRule), v)
  {
  }

  // ---------------------------------------------------------------- when the text means what it should

  /** At every node the classes written mean what they should; for `ClassText.NodePlain` see there. */
  predicate Fits(t: Trie) {
    NodePlain(Keys(t.children)) && forall i :: 0 <= i < |t.children| ==> Fits(t.children[i].1)
  }

  /** At every node the classes written are read by the grammar reader as they are meant. */
  ghost predicate ReadsRight(t: Trie) {
    NodeReads(Keys(t.children)) && forall i :: 0 <= i < |t.children| ==> ReadsRight(t.children[i].1)
  }

  /** All characters on the way are of some kind. */
  ghost predicate Over(t: Trie, kind: char -> bool) {
    forall i :: 0 <= i < |t.children| ==> kind(t.children[i].0) && Over(t.children[i].1, kind)
  }

  predicate IsByte(c: char) { c < '\U{100}' }

  /** The one if and only if the other. */
  lemma {:induction false} ReadsRightIffFits(t: Trie)
    requires Sound(t) && Over(t, IsByte)
    ensures ReadsRight(t) <==> Fits(t)
  {
    KeysAt(t.children);
    NodeReadsIffPlain(Keys(t.children));
    forall i | 0 <= i < |t.children| ensures ReadsRight(t.children[i].1) <==> Fits(t.children[i].1) {
      ReadsRightIffFits(t.children[i].1);
    }
  }

  lemma OtherChars(cs: seq<(char, Trie)>, c: char)
    requires Ordered(cs) && HyphenFits(Keys(cs))
    ensures ClassHas("^\"" + Keys(cs), c) <==> c != '"' && Child(cs, c) == None
  {
    KeysAt(cs);
    ChildSnoc(cs, ('a', EMPTY), c);
    OnlyTheseIffFits(Keys(cs));
    assert TheseRight(Keys(cs), c);
    assert ("^\"" + Keys(cs))[1..] == "\"" + Keys(cs);
  }

  /** Without carets, at most the child for the first character takes the word. */
  lemma ChildTaken(cs: seq<(char, Trie)>, x: Lang, w: string)
    requires Ordered(cs) && '^' !in Keys(cs)
    ensures WrittenBelow(cs, x, w) <==>
              w != "" && Child(cs, w[0]).Some? && RestWritten(Child(cs, w[0]).value, x, w[1..])
  {
    hide RestWritten;
    NoCaret(cs);
    if w != "" {
      ChildAt(cs, w[0]);
      if i :| 0 <= i < |cs| && ChildWritten(cs[i], x, w) { ChildFound(cs, i); }
      if Child(cs, w[0]).Some? && RestWritten(Child(cs, w[0]).value, x, w[1..]) {
        var i :| 0 <= i < |cs| && cs[i] == (w[0], Child(cs, w[0]).value);
        assert ChildWritten(cs[i], x, w);
      }
    }
  }

  lemma NoCaret(cs: seq<(char, Trie)>)
    requires '^' !in Keys(cs)
    ensures forall i :: 0 <= i < |cs| ==> cs[i].0 != '^'
  {
    KeysAt(cs);
    forall i | 0 <= i < |cs| ensures cs[i].0 != '^' { assert Keys(cs)[i] in Keys(cs); }
  }

  lemma {:induction false} ChildFound(cs: seq<(char, Trie)>, i: nat)
    requires Ordered(cs) && i < |cs|
    ensures Child(cs, cs[i].0) == Some(cs[i].1)
  {
    if i > 0 {
      assert cs[0].0 != cs[i].0 && cs[1..][i - 1] == cs[i];
      ChildFound(cs[1..], i - 1);
    }
  }

  /** Where all classes fit, the text lets through the words that leave the trie. */
  lemma {:induction false} WrittenIsLeaves(t: Trie, x: Lang, w: string)
    requires Sound(t) && Fits(t)
    ensures Written(t, x, w) <==> Leaves(t, x, w)
    decreases w
  {
    if w == "" {
      ChildTaken(t.children, x, w);
    } else {
      ChildTaken(t.children, x, w);
      OtherChars(t.children, w[0]);
      ChildAt(t.children, w[0]);
      var c := Child(t.children, w[0]);
      if c.Some? {
        var i :| 0 <= i < |t.children| && t.children[i] == (w[0], c.value);
        assert Fits(t.children[i].1) && Sound(t.children[i].1);
        WrittenIsLeaves(c.value, x, w[1..]);
      }
    }
  }

  // ---------------------------------------------------------------- and when it does not

  /** A character that stands for itself in JSON strings and in character classes alike. */
  predicate KeyChar(c: char) { ' ' <= c <= '~' && c != '"' && Plain(c) }

  predicate KeyName(s: string) { forall i :: 0 <= i < |s| ==> KeyChar(s[i]) }

  /** The character rule denotes at least these characters, and not the empty word. */
  ghost predicate SpellsKeys(x: Lang) {
    "" !in x && forall c: char :: KeyChar(c) ==> [c] in x
  }

  /** A word on which the text written and the trie differ. */
  ghost predicate Misread(t: Trie, x: Lang, w: string) {
    w != "" && KeyName(w) && (Written(t, x, w) <==> Walk(t, w).Some?)
  }

  lemma OneInStar(x: Lang, w: string)
    requires SpellsKeys(x) && KeyName(w)
    ensures w in RepLang(x, 0, Unbounded) && (w != "" ==> w in RepLang(x, 1, Unbounded))
              && "" !in RepLang(x, 1, Unbounded)
  {
    AnyNumber(x, w);
  }

  /** A misfitting hyphen: the comma or the full stop is refused, though no name goes on with it. */
  lemma HyphenMisread(t: Trie, x: Lang) returns (w: string)
    requires Sound(t) && Over(t, KeyChar) && '^' !in Keys(t.children) && !HyphenFits(Keys(t.children))
    ensures Misread(t, x, w)
  {
    hide Written, ClassHas, InRanges;
    var ks := Keys(t.children);
    KeysAt(t.children);
    var c := TakenAlong(ks);
    w := [c];
    ChildSnoc(t.children, ('a', EMPTY), c);
    NoWayOn(t, x, c);
  }

  lemma NoWayOn(t: Trie, x: Lang, c: char)
    requires Sound(t) && '^' !in Keys(t.children) && Child(t.children, c) == None
    requires InRanges("\"" + Keys(t.children), c)
    ensures !Written(t, x, [c]) && Walk(t, [c]) == None
  {
    ChildTaken(t.children, x, [c]);
    assert ("^\"" + Keys(t.children))[1..] == "\"" + Keys(t.children);
  }

  /** Whether a caret is let through by the children for carets, one below the other. */
  ghost predicate CaretPasses(t: Trie)
    decreases t
  {
    if exists i :: 0 <= i < |t.children| && t.children[i].0 == '^'
    then exists i :: 0 <= i < |t.children| && CaretLeads(t.children[i])
    else ClassHas("^\"" + Keys(t.children), '^')
  }

  ghost predicate CaretLeads(kv: (char, Trie))
    decreases kv
  {
    kv.0 == '^' && (kv.1.children == [] || CaretPasses(kv.1))
  }

  lemma {:induction false} CaretWritten(t: Trie, x: Lang)
    requires t.children != [] && SpellsKeys(x) && CaretPasses(t)
    ensures Written(t, x, "^")
  {
    OneInStar(x, "");
    OneInStar(x, "^");
    assert "^"[1..] == "";
    if i :| 0 <= i < |t.children| && CaretLeads(t.children[i]) {
      if t.children[i].1.children != [] { CaretWritten(t.children[i].1, x); }
      assert ChildWritten(t.children[i], x, "^");
    }
  }

  /** If not, no word that starts with a caret passes, and enough carets leave the trie. */
  lemma {:induction false} CaretRefused(t: Trie, x: Lang) returns (n: nat)
    requires Sound(t) && t.children != [] && !CaretPasses(t)
    ensures n > 0 && Walk(t, Carets(n)) == None
    ensures forall w :: w != "" && w[0] == '^' ==> !Written(t, x, w)
  {
    var ks := Keys(t.children);
    KeysAt(t.children);
    ChildSnoc(t.children, ('a', EMPTY), '^');
    if i :| 0 <= i < |t.children| && t.children[i].0 == '^' {
      var u := t.children[i].1;
      var m := CaretRefused(u, x);
      n := m + 1;
      ChildFound(t.children, i);
      assert Carets(n)[1..] == Carets(m);
      forall w | w != "" && w[0] == '^' ensures !Written(t, x, w) {
        forall k | 0 <= k < |t.children| ensures !ChildWritten(t.children[k], x, w) {
          if k != i { assert t.children[k].0 != '^'; }
        }
        assert ks[i] in ks;
        KeyExcluded(ks, '^');
      }
    } else {
      n := 1;
      assert Carets(1) == "^";
      forall w | w != "" && w[0] == '^' ensures !Written(t, x, w) {
        forall k | 0 <= k < |t.children| ensures !ChildWritten(t.children[k], x, w) {}
      }
    }
  }

  function Carets(n: nat): (r: string)
    ensures |r| == n && forall i :: 0 <= i < n ==> r[i] == '^'
  {
    seq(n, _ => '^')
  }

  /** The class of the other characters holds none of the children. */
  lemma KeyExcluded(ks: string, c: char)
    requires Ascending(ks) && c in ks
    ensures !ClassHas("^\"" + ks, c)
  {
    assert ("^\"" + ks)[1..] == "\"" + ks;
    if '-' in ks {
      var j :| 0 <= j < |ks| && ks[j] == '-';
      HyphenAt(ks, j, c);
    } else {
      NoHyphenRanges("\"" + ks, c);
    }
  }

  lemma CaretMisread(t: Trie, x: Lang, i: nat) returns (w: string)
    requires Sound(t) && SpellsKeys(x) && i < |t.children| && t.children[i].0 == '^'
    ensures Misread(t, x, w)
  {
    if CaretPasses(t) {
      w := "^";
      CaretWritten(t, x);
      ChildFound(t.children, i);
      assert "^"[1..] == "";
    } else {
      var n := CaretRefused(t, x);
      w := Carets(n);
    }
  }

  /** Wherever some class does not fit, the text is wrong about some word. */
  lemma {:induction false} Misfit(t: Trie, x: Lang) returns (w: string)
    requires Sound(t) && Over(t, KeyChar) && SpellsKeys(x) && t.children != [] && !Fits(t)
    ensures Misread(t, x, w)
  {
    var ks := Keys(t.children);
    KeysAt(t.children);
    if i :| 0 <= i < |t.children| && t.children[i].0 == '^' {
      w := CaretMisread(t, x, i);
    } else if !HyphenFits(ks) {
      w := HyphenMisread(t, x);
    } else {
      var i :| 0 <= i < |t.children| && !Fits(t.children[i].1);
      var c, u := t.children[i].0, t.children[i].1;
      var v := Misfit(u, x);
      w := [c] + v;
      MisreadBelow(t, x, i, v);
    }
  }

  lemma {:induction false} MisreadBelow(t: Trie, x: Lang, i: nat, v: string)
    requires Sound(t) && Over(t, KeyChar) && i < |t.children| && '^' !in Keys(t.children)
    requires HyphenFits(Keys(t.children)) && t.children[i].1.children != [] && Misread(t.children[i].1, x, v)
    ensures Misread(t, x, [t.children[i].0] + v)
  {
    hide HyphenFits, ClassHas, InRanges, Ascending;
    KeysAt(t.children);
    var ks, w := Keys(t.children), [t.children[i].0] + v;
    assert w[1..] == v && ks[i] in ks;
    ChildFound(t.children, i);
    ChildTaken(t.children, x, w);
    KeyExcluded(ks, t.children[i].0);
  }

  // ---------------------------------------------------------------- which strings pass

  /** Every character of `w`, taken alone, is a plain string character: no quote, and matched by the character rule. */
  ghost predicate Spells(x: Lang, w: string) {
    forall i :: 0 <= i < |w| ==> w[i] != '"' && [w[i]] in x
  }

  lemma {:induction false} SpelledByPower(x: Lang, w: string)
    requires Spells(x, w)
    ensures w in Pow(x, |w|)
  {
    if w != "" {
      assert w == [w[0]] + w[1..];
      SpelledByPower(x, w[1..]);
      CatIntro(x, Pow(x, |w| - 1), [w[0]], w[1..]);
    }
  }

  lemma EmptyInCat(a: Lang, b: Lang)
    ensures "" in Cat(a, b) ==> "" in a
  {
    if k :| SplitAt(a, b, "", k) { assert ""[..k] == ""; }
  }

  lemma AnyNumber(x: Lang, w: string)
    requires "" !in x
    ensures Spells(x, w) ==> w in RepLang(x, 0, Unbounded)
    ensures Spells(x, w) && w != "" ==> w in RepLang(x, 1, Unbounded)
    ensures "" !in RepLang(x, 1, Unbounded)
  {
    if Spells(x, w) {
      SpelledByPower(x, w);
      assert Allowed(|w|, 0, Unbounded);
      if w != "" { assert Allowed(|w|, 1, Unbounded); }
    }
    forall n: nat | n >= 1 ensures "" !in Pow(x, n) {
      EmptyInCat(x, Pow(x, n - 1));
    }
  }

  /** Whatever is let through lies off the trie; plain words off the trie are let through. */
  lemma {:induction false} LeavesIsOffTrie(t: Trie, x: Lang, w: string)
    requires Sound(t) && t.children != [] && "" !in x
    ensures Leaves(t, x, w) ==> Walk(t, w) == None
    ensures Spells(x, w) && Walk(t, w) == None ==> Leaves(t, x, w)
    decreases w
  {
    if w != "" {
      var rest := w[1..];
      assert Spells(x, w) ==> Spells(x, rest);
      AnyNumber(x, rest);
      ChildAt(t.children, w[0]);
      var c := Child(t.children, w[0]);
      match c
      case None =>
      case Some(u) =>
        var i :| 0 <= i < |t.children| && t.children[i] == (w[0], u);
        assert Sound(t.children[i].1);
        assert Walk(t, w) == Walk(u, rest);
        if u.children != [] {
          LeavesIsOffTrie(u, x, rest);
          assert LeavesBelow(t.children, x, w) == Leaves(u, x, rest);
        } else {
          assert LeavesBelow(t.children, x, w) == (rest in RepLang(x, 1, Unbounded));
          if rest != "" { assert Child(u.children, rest[0]) == None; }
        }
    }
  }

  /** What the rule should let through: a plain string that is no prefix of a name; the empty string when it is
      not itself a name. */
  ghost predicate Permitted(strings: seq<string>, w: string) {
    if w == "" then "" !in strings else !IsPrefixOfSome(w, strings)
  }

  ghost predicate IsOther(strings: seq<string>, x: Lang, w: string) {
    var t := TrieOf(strings);
    (w == "" && (t.children == [] || !t.isEnd)) || Leaves(t, x, w)
  }

  /** The words the rule is to let through between the quotes. */
  ghost function OtherNames(strings: seq<string>, x: Lang): Lang {
    iset w | IsOther(strings, x, w)
  }

  ghost predicate IsWritten(strings: seq<string>, x: Lang, w: string) {
    var t := TrieOf(strings);
    (w == "" && (t.children == [] || !t.isEnd)) || Written(t, x, w)
  }

  /** The words it lets through. */
  ghost function WrittenNames(strings: seq<string>, x: Lang): Lang {
    iset w | IsWritten(strings, x, w)
  }

  lemma WrittenAreOthers(strings: seq<string>, x: Lang)
    requires Fits(TrieOf(strings))
    ensures WrittenNames(strings, x) == OtherNames(strings, x)
  {
    TrieHoldsNames(strings, "");
    forall w ensures IsWritten(strings, x, w) <==> IsOther(strings, x, w) {
      WrittenIsLeaves(TrieOf(strings), x, w);
    }
  }

  /** Among the plain words the rule is right exactly when some name is nonempty: if all the names are empty, it
      lets the empty string through and nothing else. Otherwise no name ever passes, escapes or not. */
  lemma OtherNamesAreOthers(strings: seq<string>, x: Lang)
    requires strings != [] && "" !in x
    ensures if exists i :: 0 <= i < |strings| && strings[i] != ""
            then (forall w :: Spells(x, w) ==> (w in OtherNames(strings, x) <==> Permitted(strings, w)))
                 && (forall w :: w in strings ==> w !in OtherNames(strings, x))
            else OtherNames(strings, x) == iset{""} && !Permitted(strings, "")
  {
    var t := TrieOf(strings);
    TrieHoldsNames(strings, "");
    RootOfTrie(t, strings);
    if t.children != [] {
      forall w ensures Spells(x, w) ==> (w in OtherNames(strings, x) <==> Permitted(strings, w))
      {
        TrieHoldsNames(strings, w);
        LeavesIsOffTrie(t, x, w);
      }
      forall w | w in strings ensures w !in OtherNames(strings, x) {
        TrieHoldsNames(strings, w);
        LeavesIsOffTrie(t, x, w);
        var i :| 0 <= i < |strings| && strings[i] == w;
        assert IsPrefixOfSome(w, strings);
      }
    } else {
      assert strings[0] == "";
      forall w ensures w in OtherNames(strings, x) <==> w == "" {}
    }
  }

  lemma RootOfTrie(t: Trie, strings: seq<string>)
    requires t == TrieOf(strings)
    ensures t.isEnd <==> "" in strings
    ensures t.children != [] <==> exists i :: 0 <= i < |strings| && strings[i] != ""
  {
    TrieHoldsNames(strings, "");
    assert t.isEnd <==> Marked(t, "");
    if i :| 0 <= i < |strings| && strings[i] != "" {
      TrieHoldsNames(strings, strings[i]);
      assert IsPrefixOfSome(strings[i], strings);
    }
    if t.children != [] {
      var w := [t.children[0].0];
      assert w[1..] == "";
      assert Walk(t, w).Some?;
      TrieHoldsNames(strings, w);
    }
  }

  /** So the rule is right if and only if all classes fit. */
  lemma NamesRightIffFits(strings: seq<string>, x: Lang)
    requires SpellsKeys(x) && (forall i :: 0 <= i < |strings| ==> KeyName(strings[i]))
    requires exists i :: 0 <= i < |strings| && strings[i] != ""
    ensures Fits(TrieOf(strings)) <==>
              && (forall w :: Spells(x, w) ==> (w in WrittenNames(strings, x) <==> Permitted(strings, w)))
              && (forall w :: w in strings ==> w !in WrittenNames(strings, x))
  {
    var t := TrieOf(strings);
    if Fits(t) {
      WrittenAreOthers(strings, x);
      OtherNamesAreOthers(strings, x);
    } else {
      TrieHoldsNames(strings, "");
      RootOfTrie(t, strings);
      TrieOver(strings, KeyChar);
      var w := Misfit(t, x);
      TrieHoldsNames(strings, w);
      assert w in WrittenNames(strings, x) <==> Written(t, x, w);
      assert Spells(x, w);
    }
  }

  lemma {:induction false} TrieOver(strings: seq<string>, kind: char -> bool)
    requires forall i, j :: 0 <= i < |strings| && 0 <= j < |strings[i]| ==> kind(strings[i][j])
    ensures Over(TrieOf(strings), kind)
  {
    if strings != [] {
      var front, s := strings[..|strings| - 1], strings[|strings| - 1];
      assert forall i, j :: 0 <= i < |front| && 0 <= j < |front[i]| ==> front[i] == strings[i] && kind(front[i][j]);
      TrieOver(front, kind);
      InsertOver(TrieOf(front), s, kind);
    }
  }

  lemma {:induction false} InsertOver(t: Trie, s: string, kind: char -> bool)
    requires Over(t, kind) && forall j :: 0 <= j < |s| ==> kind(s[j])
    ensures Over(Insert(t, s), kind)
    decreases s, 2
  {
    if s != "" { InsertBelowOver(t.children, s, kind); }
  }

  lemma {:induction false} InsertBelowOver(cs: seq<(char, Trie)>, s: string, kind: char -> bool)
    requires s != "" && Over(Trie(cs, false), kind) && forall j :: 0 <= j < |s| ==> kind(s[j])
    ensures Over(Trie(InsertBelow(cs, s), false), kind)
    decreases s, 1, cs
  {
    assert forall j :: 0 <= j < |s[1..]| ==> s[1..][j] == s[j + 1];
    if cs == [] || s[0] < cs[0].0 {
      InsertOver(EMPTY, s[1..], kind);
    } else if s[0] == cs[0].0 {
      InsertOver(cs[0].1, s[1..], kind);
    } else {
      assert Over(Trie(cs[1..], false), kind) by {
        forall i | 0 <= i < |cs[1..]| ensures kind(cs[1..][i].0) && Over(cs[1..][i].1, kind) {
          assert cs[1..][i] == cs[i + 1];
        }
      }
      InsertBelowOver(cs[1..], s, kind);
    }
  }

  // ---------------------------------------------------------------- the condition on the names

  /** No name has a character that is special in a class; and where names go on with a hyphen and with something above
      it, they also go on with a comma and with a full stop. */
  ghost predicate NamesFit(strings: seq<string>) {
    && (forall i :: 0 <= i < |strings| ==> PlainText(strings[i]) && '^' !in strings[i])
    && forall p, c :: HyphenBelow(strings, p, c) ==>
         IsPrefixOfSome(p + ",", strings) && IsPrefixOfSome(p + ".", strings)
  }

  ghost predicate HyphenBelow(strings: seq<string>, p: string, c: char) {
    IsPrefixOfSome(p + "-", strings) && c > '-' && IsPrefixOfSome(p + [c], strings)
  }

  lemma {:induction false} WalkOn(t: Trie, p: string, c: char)
    requires Walk(t, p).Some?
    ensures Walk(t, p + [c]) == Child(Walk(t, p).value.children, c)
    decreases p
  {
    if p == "" {
      assert p + [c] == [c] && [c][1..] == "";
    } else {
      assert (p + [c])[1..] == p[1..] + [c];
      WalkOn(Child(t.children, p[0]).value, p[1..], c);
    }
  }

  /** The keys of the node at `p`. */
  lemma KeysOfNode(strings: seq<string>, p: string, c: char)
    requires Walk(TrieOf(strings), p).Some?
    ensures c in Keys(Walk(TrieOf(strings), p).value.children) <==> IsPrefixOfSome(p + [c], strings)
  {
    TrieHoldsNames(strings, p + [c]);
    WalkOn(TrieOf(strings), p, c);
    ChildSnoc(Walk(TrieOf(strings), p).value.children, ('a', EMPTY), c);
  }

  ghost predicate NodeFits(t: Trie, p: string) {
    Walk(t, p).Some? ==> NodePlain(Keys(Walk(t, p).value.children))
  }

  /** All nodes are reached by words. */
  lemma {:induction false} FitsAtAllNodes(t: Trie)
    requires Sound(t)
    ensures Fits(t) <==> forall p :: NodeFits(t, p)
  {
    if Fits(t) {
      forall p ensures NodeFits(t, p) { FitsOnTheWay(t, p); }
    } else if !NodePlain(Keys(t.children)) {
      assert !NodeFits(t, "");
    } else {
      var i :| 0 <= i < |t.children| && !Fits(t.children[i].1);
      var c, u := t.children[i].0, t.children[i].1;
      FitsAtAllNodes(u);
      var p :| !NodeFits(u, p);
      ChildFound(t.children, i);
      assert ([c] + p)[1..] == p;
      assert !NodeFits(t, [c] + p);
    }
  }

  lemma {:induction false} FitsOnTheWay(t: Trie, p: string)
    requires Fits(t)
    ensures NodeFits(t, p)
    decreases p
  {
    if p != "" && Child(t.children, p[0]).Some? {
      ChildAt(t.children, p[0]);
      FitsOnTheWay(Child(t.children, p[0]).value, p[1..]);
    }
  }

  lemma {:induction false} SoundOnTheWay(t: Trie, p: string)
    requires Sound(t) && Walk(t, p).Some?
    ensures Sound(Walk(t, p).value)
    decreases p
  {
    if p != "" {
      ChildAt(t.children, p[0]);
      SoundOnTheWay(Child(t.children, p[0]).value, p[1..]);
    }
  }

  /** The keys of a node fit exactly if ... */
  lemma NodePlainByKeys(ks: string)
    requires Ascending(ks)
    ensures NodePlain(ks) <==>
              && (forall c: char :: c in ks ==> Plain(c) && c != '^')
              && ('-' in ks && (exists c: char :: c > '-' && c in ks) ==> ',' in ks && '.' in ks)
  {
    if '-' in ks {
      var j :| 0 <= j < |ks| && ks[j] == '-';
      var last := ks[|ks| - 1];
      assert last in ks && last >= '-';
      if c: char :| c > '-' && c in ks {
        var k :| 0 <= k < |ks| && ks[k] == c;
        assert last >= c;
      }
    }
  }

  /** All classes fit if and only if the names do. */
  lemma FitsIffNamesFit(strings: seq<string>)
    ensures Fits(TrieOf(strings)) <==> NamesFit(strings)
  {
    var t := TrieOf(strings);
    TrieHoldsNames(strings, "");
    FitsAtAllNodes(t);
    if NamesFit(strings) {
      forall p ensures NodeFits(t, p) {
        if Walk(t, p).Some? { NodeOfFittingNames(strings, p); }
      }
    }
    if Fits(t) {
      forall p, c | HyphenBelow(strings, p, c)
        ensures IsPrefixOfSome(p + ",", strings) && IsPrefixOfSome(p + ".", strings)
      {
        NodeAt(strings, p, '-');
        KeysOfNode(strings, p, c);
        KeysOfNode(strings, p, ',');
        KeysOfNode(strings, p, '.');
      }
      forall i, j | 0 <= i < |strings| && 0 <= j < |strings[i]| ensures Plain(strings[i][j]) && strings[i][j] != '^' {
        var p := strings[i][..j];
        assert p + [strings[i][j]] <= strings[i];
        NodeAt(strings, p, strings[i][j]);
      }
    }
  }

  /** Where some name goes on with `c` after `p`, in a trie that fits. */
  lemma NodeAt(strings: seq<string>, p: string, c: char)
    requires Fits(TrieOf(strings)) && IsPrefixOfSome(p + [c], strings)
    ensures Walk(TrieOf(strings), p).Some?
    ensures var ks := Keys(Walk(TrieOf(strings), p).value.children);
            && c in ks && (forall d: char :: d in ks ==> Plain(d) && d != '^')
            && ('-' in ks && (exists d: char :: d > '-' && d in ks) ==> ',' in ks && '.' in ks)
  {
    var i :| 0 <= i < |strings| && p + [c] <= strings[i];
    assert p <= strings[i];
    TrieHoldsNames(strings, p);
    KeysOfNode(strings, p, c);
    FitsOnTheWay(TrieOf(strings), p);
    SoundOnTheWay(TrieOf(strings), p);
    KeysAt(Walk(TrieOf(strings), p).value.children);
    NodePlainByKeys(Keys(Walk(TrieOf(strings), p).value.children));
  }

  lemma NodeOfFittingNames(strings: seq<string>, p: string)
    requires NamesFit(strings) && Walk(TrieOf(strings), p).Some?
    ensures NodeFits(TrieOf(strings), p)
  {
    var ks := Keys(Walk(TrieOf(strings), p).value.children);
    TrieHoldsNames(strings, p);
    SoundOnTheWay(TrieOf(strings), p);
    KeysAt(Walk(TrieOf(strings), p).value.children);
    forall c: char ensures c in ks <==> IsPrefixOfSome(p + [c], strings) { KeysOfNode(strings, p, c); }
    forall c: char | c in ks ensures Plain(c) && c != '^' {
      var i :| 0 <= i < |strings| && p + [c] <= strings[i];
      assert (p + [c])[|p|] == strings[i][|p|] == c;
    }
    if '-' in ks {
      forall c: char | c > '-' && c in ks ensures ',' in ks && '.' in ks {
        assert HyphenBelow(strings, p, c);
      }
    }
    NodePlainByKeys(ks);
  }

  /** For names as bytes: every class written is read as it is meant if and only if the names fit. */
  lemma NamesReadIffFit(strings: seq<string>)
    requires forall i, j :: 0 <= i < |strings| && 0 <= j < |strings[i]| ==> IsByte(strings[i][j])
    ensures ReadsRight(TrieOf(strings)) <==> NamesFit(strings)
  {
    TrieHoldsNames(strings, "");
    TrieOver(strings, IsByte);
    ReadsRightIffFits(TrieOf(strings));
    FitsIffNamesFit(strings);
  }

  /** The names "-" and "a" make a range; "content-type" by itself does no harm. */
  lemma HyphenMakesRange()
    ensures !NamesFit(["-", "a"]) && NamesFit(["content-type"])
  {
    var two, one := ["-", "a"], ["content-type"];
    assert "" + "-" == two[0] && "" + ['a'] == two[1] && "" + "," == ",";
    assert HyphenBelow(two, "", 'a');
    assert ","[0] != two[0][0] && ","[0] != two[1][0];
    forall p, c ensures !HyphenBelow(one, p, c) {
      if p + "-" <= one[0] && p + [c] <= one[0] {
        assert (p + "-")[|p|] == one[0][|p|] == (p + [c])[|p|];
      }
    }
  }

  /** The bytes of a character beyond ASCII become nodes of their own, whose classes are read as something else: the
      name made of an e with an acute accent does not fit. */
  lemma AccentIsSplit()
    ensures ByteReader.Encode('\U{E9}') == "\U{C3}\U{A9}" && !NamesFit(["\U{C3}\U{A9}"])
    ensures !ReadsAlone('\U{C3}') && !ReadsAlone('\U{A9}')
  {
    var n: nat := 0xE9;
    assert ByteReader.Groups(n / 0x40, 0) == "" && ByteReader.High(n / 0x40, 0) == 3;
    assert ByteReader.Groups(n, 1) == "" + "\U{A9}";
    AloneIffPlain('\U{C3}');
    AloneIffPlain('\U{A9}');
    assert !Plain(["\U{C3}\U{A9}"][0][0]);
  }

  lemma OuterText(env: Env, strings: seq<string>, inner: Body, x: Lang)
    requires var t := TrieOf(strings);
             if t.children == [] then inner == [] else forall w :: w in BodyLang(env, inner) <==> Written(t, x, w)
    ensures var t := TrieOf(strings);
            ItemLang(env, if t.isEnd then Group(inner) else Rep(Group(inner), 0, Upto(1))) == WrittenNames(strings, x)
  {
    hide TrieOf;
    OptLang(BodyLang(env, inner));
    var t := TrieOf(strings);
    var it := if t.isEnd then Group(inner) else Rep(Group(inner), 0, Upto(1));
    forall w ensures w in ItemLang(env, it) <==> IsWritten(strings, x, w) {}
  }

  /** `_not_strings`: a quoted word that is none of the names, if all classes fit. */
  method NotStrings(strings: seq<string>, charRule: string) returns (out: Body)
    ensures |out| == 4 && out == [Class("\""), out[1], Class("\""), Ref("space")] && !out[1].Bar?
    ensures forall env: Env :: ItemLang(env, out[1]) == WrittenNames(strings, AnyOf(env, charRule))
    ensures Fits(TrieOf(strings)) ==> forall env: Env ::
              ItemLang(env, out[1]) == OtherNames(strings, AnyOf(env, charRule))
  {
    hide Written, Leaves, Fits, TrieOf;
    var trie := BuildTrie(strings);
    TrieHoldsNames(strings, "");
    var inner := VisitTrie(trie, charRule);
    var body := if trie.isEnd then Group(inner) else Rep(Group(inner), 0, Upto(1));
    out := [Class("\""), body, Class("\""), Ref("space")];
    forall env: Env ensures ItemLang(env, body) == WrittenNames(strings, AnyOf(env, charRule)) {
      OuterText(env, strings, inner, AnyOf(env, charRule));
    }
    if Fits(trie) {
      forall env: Env { WrittenAreOthers(strings, AnyOf(env, charRule)); }
    }
  }
}
