/** Which characters can stand for themselves in the character classes of a grammar text: the classes `_not_strings`
    writes, as the grammar reader takes them in. */
module ClassText {
  import opened Gbnf
  import opened Literal
  import opened ByteReader

  /** A byte that is a character by itself and has no function in a class, wherever it stands. */
  predicate Plain(b: char) { '\0' < b < '\U{80}' && b != ']' && b != '\\' }

  predicate PlainText(t: string) { forall i :: 0 <= i < |t| ==> Plain(t[i]) }

  // ---------------------------------------------------------------- plain classes are read as `Gbnf` says

  function RangesOf(t: string): seq<(nat, nat)> {
    if t == "" then []
    else if |t| >= 3 && t[1] == '-' then [(t[0] as nat, t[2] as nat)] + RangesOf(t[3..])
    else [(t[0] as nat, t[0] as nat)] + RangesOf(t[1..])
  }

  lemma {:induction false} RangesAgree(t: string, c: char)
    ensures InClass(RangesOf(t), c as nat) <==> InRanges(t, c)
  {
    if t != "" {
      if |t| >= 3 && t[1] == '-' {
        RangesAgree(t[3..], c);
        InBefore((t[0] as nat, t[2] as nat), RangesOf(t[3..]), c as nat);
      } else {
        RangesAgree(t[1..], c);
        InBefore((t[0] as nat, t[0] as nat), RangesOf(t[1..]), c as nat);
      }
    }
  }

  lemma {:induction false} PlainMembers(t: string, rest: string)
    requires PlainText(t)
    ensures ReadMembers(t + "]" + rest) == Some((RangesOf(t), rest))
    decreases |t|
  {
    var s := t + "]" + rest;
    if t == "" {
      assert s == "]" + rest && s[1..] == rest;
    } else {
      var u := t[1..] + "]" + rest;
      assert s == [t[0]] + u;
      AsciiCode(t[0], u);
      if |t| >= 3 && t[1] == '-' {
        var v := t[3..] + "]" + rest;
        assert u[1..] == [t[2]] + v && u[1] == t[2];
        AsciiCode(t[2], v);
        PlainMembers(t[3..], rest);
      } else {
        assert |t| == 1 ==> u == "]" + rest;
        assert |t| == 2 ==> u == [t[1]] + "]" + rest;
        PlainMembers(t[1..], rest);
      }
    }
  }

  // ---------------------------------------------------------------- a class of one character

  /** `[b]` is read as the class of that character alone. */
  ghost predicate ReadsAlone(b: char) {
    forall rest :: ReadsAloneBefore(b, rest)
  }

  ghost predicate ReadsAloneBefore(b: char, rest: string) {
    ReadClass([b] + "] " + rest) == Some((CharClass(false, [(b as nat, b as nat)]), " " + rest))
  }

  /** ... if and only if it is plain and no caret. */
  lemma AloneIffPlain(b: char)
    requires b < '\U{100}'
    ensures ReadsAlone(b) <==> Plain(b) && b != '^'
  {
    if Plain(b) && b != '^' {
      forall rest ensures ReadsAloneBefore(b, rest) {
        PlainMembers([b], " " + rest);
        var t := [b] + "] " + rest;
        assert t == [b] + "]" + (" " + rest) && t[0] == b;
        assert [b][1..] == "" && RangesOf([b]) == [(b as nat, b as nat)];
      }
    } else {
      NotAlone(b, [b] + "] ");
      assert [b] + "] " + "" == [b] + "] " && " " + "" == " ";
      assert !ReadsAloneBefore(b, "");
    }
  }

  lemma NotAlone(b: char, t: string)
    requires b < '\U{100}' && !(Plain(b) && b != '^') && t == [b] + "] "
    ensures ReadClass(t) != Some((CharClass(false, [(b as nat, b as nat)]), " "))
  {
    assert t[1..] == "] ";
    if b == '\\' {
      assert ReadChar(t) == Some((']' as nat, " ")) by { assert t[2..] == " "; }
    } else if b >= '\U{80}' {
      NoByteAlone(b, t);
    }
    if ReadMembers(t).Some? && '\0' < b && b != ']' {
      FirstMember(t);
    }
  }

  lemma FirstMember(t: string)
    requires t != "" && t[0] != ']' && ReadMembers(t).Some?
    ensures ReadCode(t).Some? && ReadMembers(t).value.0 != []
    ensures ReadMembers(t).value.0[0].0 == ReadCode(t).value.0
  {
  }

  /** A byte of a longer character is read as something else. */
  lemma NoByteAlone(b: char, t: string)
    requires '\U{80}' <= b < '\U{100}' && t == [b] + "] "
    ensures ReadCode(t).value.0 != b as nat
  {
    var len := LengthBy(b);
    var v := b as nat % Payload(len);
    assert t[1..] == "] " && "] "[1..] == " " && " "[1..] == "";
    assert ReadTail("] ", 0, v) == (v, "] ");
    assert ReadTail(" ", 0, v * 0x40 + 0x1D) == (v * 0x40 + 0x1D, " ");
    assert ReadTail("] ", 1, v) == (v * 0x40 + 0x1D, " ");
    var w := (v * 0x40 + 0x1D) * 0x40 + 0x20;
    assert ReadTail("", 0, w) == ReadTail("", 1, w) == (w, "");
    assert ReadTail(" ", 1, v * 0x40 + 0x1D) == (w, "") && ReadTail(" ", 2, v * 0x40 + 0x1D) == (w, "");
    assert ReadTail("] ", 2, v) == (w, "") && ReadTail("] ", 3, v) == (w, "");
  }

  // ---------------------------------------------------------------- the class of the other characters

  predicate Ascending(ks: string) { forall i, j :: 0 <= i < j < |ks| ==> ks[i] < ks[j] }

  /** A hyphen among ascending characters makes no range, or one without other members. */
  predicate HyphenFits(ks: string) {
    '-' !in ks || ks[|ks| - 1] == '-' || (',' in ks && '.' in ks)
  }

  /** The members are the quote and `ks`. */
  ghost predicate OnlyThese(ks: string) {
    forall c: char :: TheseRight(ks, c)
  }

  predicate TheseRight(ks: string, c: char) {
    InRanges("\"" + ks, c) <==> c == '"' || c in ks
  }

  lemma {:induction false} RangesAfter(p: string, t: string, c: char)
    requires '-' !in p && (t == "" || t[0] != '-')
    ensures InRanges(p + t, c) <==> c in p || InRanges(t, c)
  {
    if p == "" {
      assert p + t == t;
    } else {
      assert (p + t)[1..] == p[1..] + t;
      RangesAfter(p[1..], t, c);
    }
  }

  lemma FirstRange(m: char, b: string, c: char)
    requires m != '-' && '-' !in b
    ensures InRanges([m] + "-" + b, c) <==>
              if b == "" then c == m || c == '-' else m <= c <= b[0] || c in b[1..]
  {
    var t := [m] + "-" + b;
    if b == "" {
      assert t[1..] == "-" && "-"[1..] == "";
      assert InRanges("-", c) <==> c == '-' || InRanges("", c);
    } else {
      assert t[3..] == b[1..];
      NoHyphenRanges(b[1..], c);
    }
  }

  /** What stands before the hyphen at `j`: the quote, or a child. */
  function BeforeHyphen(ks: string, j: nat): char
    requires j < |ks|
  {
    if j == 0 then '"' else ks[j - 1]
  }

  /** The members of the class with a hyphen at `j`: a range if something follows. */
  lemma HyphenAt(ks: string, j: nat, c: char)
    requires Ascending(ks) && j < |ks| && ks[j] == '-'
    ensures InRanges("\"" + ks, c) <==>
              c == '"' || c in ks || (j + 1 < |ks| && BeforeHyphen(ks, j) <= c <= ks[j + 1])
  {
    hide InRanges, Ascending;
    var m, b, p := BeforeHyphen(ks, j), ks[j + 1..], if j == 0 then "" else "\"" + ks[..j - 1];
    assert "\"" + ks == p + ([m] + "-" + b);
    NoOtherHyphen(ks, j);
    RangesAfter(p, [m] + "-" + b, c);
    FirstRange(m, b, c);
    MemberParts(ks, j, c);
  }

  lemma NoOtherHyphen(ks: string, j: nat)
    requires Ascending(ks) && j < |ks| && ks[j] == '-'
    ensures '-' !in ks[j + 1..] && BeforeHyphen(ks, j) < '-' && (j > 0 ==> '-' !in "\"" + ks[..j - 1])
    ensures j + 1 < |ks| ==> '-' < ks[j + 1]
  {
  }

  lemma MemberParts(ks: string, j: nat, c: char)
    requires j < |ks|
    ensures var p := if j == 0 then "" else "\"" + ks[..j - 1];
            c == '"' || c in ks <==>
            || c in p || c == BeforeHyphen(ks, j) || c == ks[j] || c in ks[j + 1..]
    ensures j + 1 < |ks| ==> (c in ks[j + 1..] <==> c == ks[j + 1] || c in ks[j + 1..][1..])
  {
    assert ks == ks[..j] + [ks[j]] + ks[j + 1..];
    if j > 0 { assert ks[..j] == ks[..j - 1] + [ks[j - 1]]; }
    if j + 1 < |ks| { assert ks[j + 1..] == [ks[j + 1]] + ks[j + 1..][1..]; }
  }

  /** In the class of the other characters a hyphen does no harm if and only if it comes last, or stands between the
      comma and the full stop. */
  lemma OnlyTheseIffFits(ks: string)
    requires Ascending(ks)
    ensures OnlyThese(ks) <==> HyphenFits(ks)
  {
    hide InRanges;
    if '-' !in ks {
      forall c: char ensures TheseRight(ks, c) { NoHyphenRanges("\"" + ks, c); }
    } else {
      var j :| 0 <= j < |ks| && ks[j] == '-';
      HyphenAt(ks, j, ',');
      HyphenAt(ks, j, '.');
      assert BeforeHyphen(ks, j) <= ',' && (j + 1 < |ks| ==> ks[j + 1] >= '.');
      if HyphenFits(ks) {
        Neighbours(ks, j);
        forall c: char ensures TheseRight(ks, c) { HyphenAt(ks, j, c); }
      } else {
        assert !TheseRight(ks, ',') || !TheseRight(ks, '.');
      }
    }
  }

  /** A misfitting hyphen takes the comma or the full stop along. */
  lemma TakenAlong(ks: string) returns (c: char)
    requires Ascending(ks) && !HyphenFits(ks)
    ensures (c == ',' || c == '.') && c !in ks && InRanges("\"" + ks, c)
  {
    hide InRanges;
    var j :| 0 <= j < |ks| && ks[j] == '-';
    c := if ',' in ks then '.' else ',';
    HyphenAt(ks, j, c);
    assert BeforeHyphen(ks, j) <= ',' && (j + 1 < |ks| ==> ks[j + 1] >= '.');
  }

  lemma Neighbours(ks: string, j: nat)
    requires Ascending(ks) && j < |ks| && ks[j] == '-' && HyphenFits(ks)
    ensures j + 1 < |ks| ==> BeforeHyphen(ks, j) == ',' && ks[j + 1] == '.'
  {
    if j + 1 < |ks| {
      assert ks[|ks| - 1] > '-' && '-' in ks;
      var x, y :| 0 <= x < |ks| && ks[x] == ',' && 0 <= y < |ks| && ks[y] == '.';
      assert x < j < y;
    }
  }

  /** `[^"...]` is read as the class of all characters but the quote and `ks`. */
  ghost predicate ReadsOthers(ks: string) {
    forall rest :: ReadsOthersBefore(ks, rest)
  }

  ghost predicate ReadsOthersBefore(ks: string, rest: string) {
    var r := ReadClass("^\"" + ks + "] " + rest);
    r.Some? && r.value.0.negated && r.value.1 == " " + rest && HasOnly(r.value.0.ranges, ks)
  }

  ghost predicate HasOnly(ranges: seq<(nat, nat)>, ks: string) {
    forall c: char :: MemberRight(ranges, ks, c)
  }

  predicate MemberRight(ranges: seq<(nat, nat)>, ks: string, c: char) {
    InClass(ranges, c as nat) <==> c == '"' || c in ks
  }

  lemma RangesHaveOnly(ks: string)
    ensures HasOnly(RangesOf("\"" + ks), ks) <==> OnlyThese(ks)
  {
    var t := "\"" + ks;
    forall c: char ensures MemberRight(RangesOf(t), ks, c) <==> TheseRight(ks, c) { RangesAgree(t, c); }
  }

  lemma OthersMembers(ks: string, rest: string)
    requires PlainText(ks)
    ensures ReadClass("^\"" + ks + "] " + rest) == Some((CharClass(true, RangesOf("\"" + ks)), " " + rest))
  {
    var t, s := "\"" + ks, "^\"" + ks + "] " + rest;
    assert s[0] == '^' && s[1..] == t + "]" + (" " + rest);
    PlainMembers(t, " " + rest);
  }

  lemma ReadsOthersIffFits(ks: string)
    requires Ascending(ks) && PlainText(ks)
    ensures ReadsOthers(ks) <==> HyphenFits(ks)
  {
    hide RangesOf, InRanges, ReadClass, InClass, HasOnly, OnlyThese, HyphenFits;
    OnlyTheseIffFits(ks);
    RangesHaveOnly(ks);
    forall rest ensures ReadsOthersBefore(ks, rest) <==> OnlyThese(ks) {
      OthersMembers(ks, rest);
    }
    assert ReadsOthers(ks) ==> ReadsOthersBefore(ks, "");
  }

  /** All the classes written for a node with children at `ks` are read as they are meant. */
  ghost predicate NodeReads(ks: string) {
    (forall i :: 0 <= i < |ks| ==> ReadsAlone(ks[i])) && ReadsOthers(ks)
  }

  predicate NodePlain(ks: string) {
    PlainText(ks) && '^' !in ks && HyphenFits(ks)
  }

  /** ... if and only if none of `ks` is a caret, a closing bracket, a backslash or beyond ASCII, and a hyphen among
      them comes last or stands between comma and full stop. */
  lemma NodeReadsIffPlain(ks: string)
    requires Ascending(ks) && forall i :: 0 <= i < |ks| ==> ks[i] < '\U{100}'
    ensures NodeReads(ks) <==> NodePlain(ks)
  {
    forall i | 0 <= i < |ks| ensures ReadsAlone(ks[i]) <==> Plain(ks[i]) && ks[i] != '^' { AloneIffPlain(ks[i]); }
    if PlainText(ks) { ReadsOthersIffFits(ks); }
  }
}
