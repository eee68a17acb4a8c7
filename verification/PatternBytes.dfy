/** Quantifiers in a pattern as `_visit_pattern` meets them, byte by byte: which characters can carry one. */
module PatternBytes {
  import R = Regex
  import opened ByteReader
  import opened Literal
  import opened Pattern

  predicate IsQuantifier(c: char) { c in {'*', '+', '?', '{'} }

  /** The bytes of a quantified character are gathered into one literal, which the grammar reader takes for that
      character. */
  ghost predicate CarriesQuantifier(c: char, q: char, rest: string) {
    var e := Encode(c);
    LiteralRun(e + [q] + rest, 0, "") == e && forall more :: ReadsBack(c, e, more)
  }

  ghost predicate ReadsBack(c: char, e: string, more: string) {
    ReadText(e + "\"" + more) == Some(([c as nat], more))
  }

  lemma {:induction false} RunOfBytes(p: string, e: string, q: char, rest: string, i: nat)
    requires p == e + [q] + rest && IsQuantifier(q) && i < |e| && (forall k :: 0 <= k < |e| ==> e[k] >= '\U{80}')
    requires |e| > 1
    ensures LiteralRun(p, i, e[..i]) == e[..|e| - 1]
    decreases |e| - i
  {
    if i < |e| - 1 {
      assert e[..i] + [p[i]] == e[..i + 1];
      RunOfBytes(p, e, q, rest, i + 1);
    } else {
      assert p[|e|] == q;
    }
  }

  lemma LastByteAlone(p: string, e: string, q: char, rest: string)
    requires p == e + [q] + rest && IsQuantifier(q) && e != "" && !R.NonLiteral(e[|e| - 1])
    ensures LiteralRun(p, |e| - 1, "") == [e[|e| - 1]]
  {
    assert p[|e|] == q && p[|e| - 1] == e[|e| - 1];
    assert "" + [p[|e| - 1]] == [e[|e| - 1]];
    assert LiteralRun(p, |e|, [e[|e| - 1]]) == [e[|e| - 1]];
  }

  /** The literal of the bytes but the last does not end at its closing quote. */
  predicate RunsOn(c: char, more: string) {
    var r := ReadText(Encode(c)[..|Encode(c)| - 1] + "\"" + more);
    r.Some? ==> |r.value.1| < |more|
  }

  /** Without its last byte, a character takes the closing quote along. */
  lemma QuoteSwallowed(c: char, more: string)
    requires c >= '\U{80}'
    ensures RunsOn(c, more)
  {
    hide ReadTail, Groups, High, Joined;
    var e := Encode(c);
    var n := |e| - 1;
    var t, bs := e[..n] + "\"" + more, e[1..n] + "\"";
    EncodedValue(c);
    assert forall i :: 0 <= i < |bs| ==> bs[i] != '\0' by {
      assert forall i :: 0 <= i < n - 1 ==> bs[i] == e[1..][i];
    }
    assert t[1..] == bs + more && t[0] == e[0];
    TailMore(bs, more, e[0] as nat % Payload(|e|));
    assert ReadCode(t).value.1 == more;
    if ReadText(more).Some? { TextShortens(more); }
  }

  /** A quantifier finds its character if and only if that is ASCII. Otherwise the code splits off the last byte: the
      literal of the bytes before it is read beyond its end. */
  lemma CarriesIffAscii(c: char, q: char, rest: string)
    requires R.PlainChar(c) && IsQuantifier(q)
    ensures CarriesQuantifier(c, q, rest) <==> c < '\U{80}'
    ensures var e := Encode(c);
            var p := e + [q] + rest;
            c >= '\U{80}' ==>
              && LiteralRun(p, 0, "") == e[..|e| - 1] && LiteralRun(p, |e| - 1, "") == [e[|e| - 1]]
              && forall more :: RunsOn(c, more)
  {
    var e := Encode(c);
    var p := e + [q] + rest;
    if c < '\U{80}' {
      OneByte(c);
      LastByteAlone(p, e, q, rest);
      forall more ensures ReadsBack(c, e, more) { AsciiText(c, more); }
    } else {
      EncodedBytes(c);
      RunOfBytes(p, e, q, rest, 0);
      assert e[..0] == "";
      LastByteAlone(p, e, q, rest);
      forall more ensures RunsOn(c, more) { QuoteSwallowed(c, more); }
    }
  }

  lemma OneByte(c: char)
    requires c < '\U{80}'
    ensures Encode(c) == [c]
  {
    assert Groups(c as nat, 0) == "" && High(c as nat, 0) == c as nat;
  }

  lemma EncodedBytes(c: char)
    requires c >= '\U{80}'
    ensures |Encode(c)| > 1 && forall k :: 0 <= k < |Encode(c)| ==> Encode(c)[k] >= '\U{80}'
  {
    var e := Encode(c);
    EncodedValue(c);
    forall k | 0 <= k < |e| ensures e[k] >= '\U{80}' {
      if k > 0 { assert e[k] == e[1..][k - 1]; }
    }
  }

  lemma AsciiText(c: char, more: string)
    requires '\0' < c < '\U{80}' && c != '"' && c != '\\'
    ensures ReadText([c] + "\"" + more) == Some(([c as nat], more))
  {
    var t, u := [c] + "\"" + more, "\"" + more;
    assert t == [c] + u && u[1..] == more;
    AsciiCode(c, u);
    assert ReadText(u) == Some(([], more));
    assert [c as nat] + [] == [c as nat];
  }
}
