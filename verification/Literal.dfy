/** Literals as grammar text: `format_literal` of json-schema-to-grammar.cpp writes them, the grammar reader
    (`parse_char` and `parse_sequence` of llama-grammar.cpp) reads them back. */
module Literal {
  datatype Option<T> = None | Some(value: T)

  predicate Special(c: char) { c == '\r' || c == '\n' || c == '"' }

  function EscapeOf(c: char): string
  {
    if c == '\r' then "\\r" else if c == '\n' then "\\n" else if c == '"' then "\\\"" else [c]
  }

  function Escaped(s: string): string {
    if s == "" then "" else EscapeOf(s[0]) + Escaped(s[1..])
  }

  /** `format_literal` */
  function FormatLiteral(s: string): string { "\"" + Escaped(s) + "\"" }

  // ---------------------------------------------------------------- the reader

  predicate IsHex(c: char) { '0' <= c <= '9' || 'a' <= c <= 'f' || 'A' <= c <= 'F' }

  function HexDigit(c: char): nat
    requires IsHex(c)
  {
    if '0' <= c <= '9' then c as int - '0' as int
    else if 'a' <= c <= 'f' then c as int - 'a' as int + 10
    else c as int - 'A' as int + 10
  }

  /** `parse_hex` */
  function ReadHex(t: string, size: nat, value: nat): Option<(nat, string)> {
    if size == 0 then Some((value, t))
    else if t == "" || !IsHex(t[0]) then None
    else ReadHex(t[1..], size - 1, 16 * value + HexDigit(t[0]))
  }

  function HexSize(c: char): nat { if c == 'x' then 2 else if c == 'u' then 4 else if c == 'U' then 8 else 0 }

  /** `parse_char`: the code of the character read, and the text after it. */
  function ReadChar(t: string): Option<(nat, string)> {
    if t == "" || t[0] == '\0' then None
    else if t[0] != '\\' then Some((t[0] as nat, t[1..]))
    else if |t| == 1 then None
    else if HexSize(t[1]) > 0 then ReadHex(t[2..], HexSize(t[1]), 0)
    else if t[1] == 't' then Some(('\t' as nat, t[2..]))
    else if t[1] == 'r' then Some(('\r' as nat, t[2..]))
    else if t[1] == 'n' then Some(('\n' as nat, t[2..]))
    else if t[1] in "\\\"[]" then Some((t[1] as nat, t[2..]))
    else None
  }

  lemma {:induction false} HexShortens(t: string, size: nat, value: nat)
    requires ReadHex(t, size, value).Some?
    ensures size <= |t| && ReadHex(t, size, value).value.1 == t[size..] && forall i :: 0 <= i < size ==> IsHex(t[i])
  {
    if size > 0 {
      HexShortens(t[1..], size - 1, 16 * value + HexDigit(t[0]));
      forall i | 0 <= i < size ensures IsHex(t[i]) {
        if i > 0 { assert t[i] == t[1..][i - 1]; }
      }
    }
  }

  lemma CharShortens(t: string)
    requires ReadChar(t).Some?
    ensures |ReadChar(t).value.1| < |t|
  {
    if t[0] == '\\' && HexSize(t[1]) > 0 { HexShortens(t[2..], HexSize(t[1]), 0); }
  }

  /** The literal whose text starts after an opening quote, as character codes, and what follows its closing quote. */
  function Read(t: string): Option<(seq<nat>, string)>
    decreases |t|
  {
    if t == "" then None
    else if t[0] == '"' then Some(([], t[1..]))
    else
      var c := ReadChar(t);
      if c.None? then None
      else
        CharShortens(t);
        var r := Read(c.value.1);
        if r.None? then None else Some(([c.value.0] + r.value.0, r.value.1))
  }

  function Codes(s: string): seq<nat> {
    if s == "" then [] else [s[0] as nat] + Codes(s[1..])
  }

  // ---------------------------------------------------------------- reading back what was written

  lemma {:induction false} ReadOfEscaped(s: string, rest: string)
    requires '\\' !in s && '\0' !in s
    ensures Read(Escaped(s) + "\"" + rest) == Some((Codes(s), rest))
  {
    var t := Escaped(s) + "\"" + rest;
    if s == "" {
      assert t == "\"" + rest && t[1..] == rest;
    } else {
      var u := Escaped(s[1..]) + "\"" + rest;
      assert t == EscapeOf(s[0]) + u;
      ReadOfEscaped(s[1..], rest);
      assert ReadChar(t) == Some((s[0] as nat, u)) by { ReadEscape(s[0], u); }
    }
  }

  lemma ReadEscape(c: char, u: string)
    requires c != '\\' && c != '\0'
    ensures ReadChar(EscapeOf(c) + u) == Some((c as nat, u))
    ensures (EscapeOf(c) + u)[0] != '"'
  {
    var t := EscapeOf(c) + u;
    if Special(c) {
      assert t[2..] == u && t[0] == '\\' && HexSize(t[1]) == 0;
    } else {
      assert t[1..] == u && t[0] == c;
    }
  }

  lemma {:induction false} CodesSize(s: string)
    ensures |Codes(s)| == |s|
  {
    if s != "" { CodesSize(s[1..]); }
  }

  /** Hexadecimal digits are written as they are. */
  lemma {:induction false} HexPrefix(w: string, k: nat)
    requires k <= |Escaped(w) + "\""| && forall i :: 0 <= i < k ==> IsHex((Escaped(w) + "\"")[i])
    ensures k <= |w| && (Escaped(w) + "\"")[k..] == Escaped(w[k..]) + "\""
  {
    var t := Escaped(w) + "\"";
    if k > 0 {
      assert IsHex(t[0]);
      if w != "" {
        var u := Escaped(w[1..]) + "\"";
        assert t == EscapeOf(w[0]) + u;
        assert !Special(w[0]) && t[1..] == u;
        assert forall i :: 0 <= i < k - 1 ==> u[i] == t[i + 1];
        HexPrefix(w[1..], k - 1);
        assert t[k..] == u[k - 1..] && w[1..][k - 1..] == w[k..];
      }
    }
  }

  /** No literal is read as longer than it was. */
  lemma {:induction false} ReadIsNoLonger(s: string)
    requires '\0' !in s && Read(Escaped(s) + "\"").Some?
    ensures |Read(Escaped(s) + "\"").value.0| <= |s|
    decreases |s|, 2
  {
    var t := Escaped(s) + "\"";
    if s != "" {
      var u := Escaped(s[1..]) + "\"";
      assert t == EscapeOf(s[0]) + u;
      if s[0] != '\\' {
        ReadEscape(s[0], u);
        ReadIsNoLonger(s[1..]);
      } else {
        BackslashShortens(s);
      }
    }
  }

  /** A backslash swallows what comes after it. */
  lemma {:induction false} BackslashShortens(s: string)
    requires s != "" && s[0] == '\\' && '\0' !in s && Read(Escaped(s) + "\"").Some?
    ensures var r := Read(Escaped(s) + "\"").value.0;
            |r| <= |s| && (|r| < |s| || (|s| > 1 && |r| > 1 && r[1] != s[1] as nat))
    decreases |s|, 1
  {
    var t, u := Escaped(s) + "\"", Escaped(s[1..]) + "\"";
    assert t == ['\\'] + u && t[1] == u[0] && t[2..] == u[1..];
    assert |s| == 1 ==> u == "\"";
    if |s| > 1 {
      var v, w := s[2..], Escaped(s[2..]) + "\"";
      assert s[1..][1..] == v && u == EscapeOf(s[1]) + w;
      if Special(s[1]) {
        AfterBackslash(s, t, u, w);
      } else {
        assert u[1..] == w && t[1] == s[1];
        if HexSize(s[1]) > 0 {
          var k := HexSize(s[1]);
          HexShortens(w, k, 0);
          HexPrefix(v, k);
          ReadIsNoLonger(v[k..]);
        } else {
          ReadIsNoLonger(v);
        }
      }
    }
  }

  /** Before a character that is itself written with a backslash. */
  lemma AfterBackslash(s: string, t: string, u: string, w: string)
    requires |s| > 1 && s[0] == '\\' && Special(s[1]) && '\0' !in s && Read(t).Some?
    requires w == Escaped(s[2..]) + "\"" && u == EscapeOf(s[1]) + w && t == ['\\'] + u
    ensures var r := Read(t).value.0;
            |r| <= |s| && (|r| < |s| || (|r| > 1 && r[1] != s[1] as nat))
    decreases |s|, 0
  {
    assert t[2..] == [u[1]] + w && ReadChar(t) == Some(('\\' as nat, [u[1]] + w));
    var x := [u[1]] + w;
    assert x[1..] == w;
    if s[1] != '"' {
      assert ReadChar(x) == Some((u[1] as nat, w));
      ReadIsNoLonger(s[2..]);
    }
  }

  /** A literal is read back as it was meant if and only if it contains no backslash: `format_literal` does not escape
      that. */
  lemma LiteralRoundTrip(s: string)
    requires '\0' !in s
    ensures FormatLiteral(s)[0] == '"'
    ensures Read(FormatLiteral(s)[1..]) == Some((Codes(s), "")) <==> '\\' !in s
  {
    var t := Escaped(s) + "\"";
    assert FormatLiteral(s)[1..] == t;
    if '\\' !in s {
      ReadOfEscaped(s, "");
      assert t + "" == t;
    } else {
      BackslashIsLost(s);
    }
  }

  lemma {:induction false} BackslashIsLost(s: string)
    requires '\\' in s && '\0' !in s
    ensures Read(Escaped(s) + "\"") != Some((Codes(s), ""))
  {
    var t, u := Escaped(s) + "\"", Escaped(s[1..]) + "\"";
    assert t == EscapeOf(s[0]) + u;
    CodesSize(s);
    if s[0] == '\\' {
      if Read(t).Some? {
        BackslashShortens(s);
        assert |s| > 1 ==> Codes(s)[1] == Codes(s[1..])[0] == s[1] as nat;
      }
    } else {
      ReadEscape(s[0], u);
      BackslashIsLost(s[1..]);
      if Read(u).Some? {
        assert ([s[0] as nat] + Read(u).value.0)[1..] == Read(u).value.0 && Codes(s)[1..] == Codes(s[1..]);
      }
    }
  }
}
