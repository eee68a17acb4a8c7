/** How the grammar reader takes in the bytes of a grammar text: `decode_utf8`, `parse_char`, character classes and
    literals of llama-grammar.cpp. Bytes are characters below 256; the text ends where it ends or at a NUL. */
module ByteReader {
  import opened Literal

  // ---------------------------------------------------------------- UTF-8

  /** The last `k` groups of six bits, each in a byte. */
  function Groups(n: nat, k: nat): (r: string)
    ensures |r| == k && forall i :: 0 <= i < k ==> '\U{80}' <= r[i] < '\U{C0}'
  {
    if k == 0 then "" else Groups(n / 0x40, k - 1) + [(0x80 + n % 0x40) as char]
  }

  /** What is left of `n` without them. */
  function High(n: nat, k: nat): nat {
    if k == 0 then n else High(n / 0x40, k - 1)
  }

  /** How many bytes follow the first one. */
  function Followers(c: char): nat {
    if c < '\U{80}' then 0 else if c < '\U{800}' then 1 else if c as int < 0x1_0000 then 2 else 3
  }

  function FirstByte(k: nat): nat { if k == 0 then 0 else if k == 1 then 0xC0 else if k == 2 then 0xE0 else 0xF0 }

  lemma HighFits(c: char)
    ensures var k := Followers(c);
            High(c as nat, k) < if k == 0 then 0x80 else if k == 1 then 0x20 else if k == 2 then 0x10 else 8
  {
    var n := c as nat;
    assert High(n / 0x40, 0) == n / 0x40 && High(n / 0x40 / 0x40, 0) == n / 0x40 / 0x40;
    assert High(n / 0x40 / 0x40 / 0x40, 0) == n / 0x40 / 0x40 / 0x40;
    assert High(n, 1) == n / 0x40;
    assert High(n / 0x40, 1) == n / 0x40 / 0x40 && High(n / 0x40 / 0x40, 1) == n / 0x40 / 0x40 / 0x40;
    assert High(n, 2) == n / 0x40 / 0x40;
    assert High(n / 0x40, 2) == n / 0x40 / 0x40 / 0x40;
    assert High(n, 3) == n / 0x40 / 0x40 / 0x40;
  }

  /** The UTF-8 encoding of a character. */
  function Encode(c: char): (r: string)
    ensures r != "" && (|r| == 1 <==> c < '\U{80}')
  {
    HighFits(c);
    var k := Followers(c);
    [(FirstByte(k) + High(c as nat, k)) as char] + Groups(c as nat, k)
  }

  /** The length announced by a first byte, and how many values its payload has. */
  function LengthBy(b: char): nat {
    if b < '\U{C0}' then 1 else if b < '\U{E0}' then 2 else if b < '\U{F0}' then 3 else 4
  }

  function Payload(len: nat): nat {
    if len == 1 then 0x80 else if len == 2 then 0x40 else if len == 3 then 0x20 else 0x10
  }

  /** Up to `n` more bytes, whatever they are. */
  function ReadTail(t: string, n: nat, value: nat): (nat, string) {
    if n == 0 || t == "" || t[0] == '\0' then (value, t)
    else ReadTail(t[1..], n - 1, value * 0x40 + t[0] as nat % 0x40)
  }

  /** `decode_utf8` */
  function ReadUtf8(t: string): (nat, string)
    requires t != ""
  {
    var len := LengthBy(t[0]);
    ReadTail(t[1..], len - 1, t[0] as nat % Payload(len))
  }

  lemma {:induction false} TailShortens(t: string, n: nat, value: nat)
    ensures |ReadTail(t, n, value).1| <= |t|
    ensures exists k :: 0 <= k <= |t| && k <= n && ReadTail(t, n, value).1 == t[k..]
  {
    if n == 0 || t == "" || t[0] == '\0' {
      assert t[0..] == t;
    } else {
      TailShortens(t[1..], n - 1, value * 0x40 + t[0] as nat % 0x40);
      var k :| 0 <= k <= |t[1..]| && k <= n - 1
        && ReadTail(t[1..], n - 1, value * 0x40 + t[0] as nat % 0x40).1 == t[1..][k..];
      assert t[1..][k..] == t[k + 1..];
    }
  }

  lemma {:induction false} TailMore(bs: string, rest: string, value: nat)
    requires forall i :: 0 <= i < |bs| ==> bs[i] != '\0'
    ensures ReadTail(bs + rest, |bs|, value) == (Joined(bs, value), rest)
  {
    if bs == "" {
      assert bs + rest == rest;
    } else {
      assert (bs + rest)[1..] == bs[1..] + rest;
      TailMore(bs[1..], rest, value * 0x40 + bs[0] as nat % 0x40);
    }
  }

  /** The value with the payload of more bytes joined on. */
  function Joined(bs: string, value: nat): nat {
    if bs == "" then value else Joined(bs[1..], value * 0x40 + bs[0] as nat % 0x40)
  }

  lemma {:induction false} JoinedAppend(bs: string, b: char, value: nat)
    ensures Joined(bs + [b], value) == Joined(bs, value) * 0x40 + b as nat % 0x40
  {
    if bs == "" {
      assert bs + [b] == [b] && [b][1..] == "";
    } else {
      assert (bs + [b])[1..] == bs[1..] + [b];
      JoinedAppend(bs[1..], b, value * 0x40 + bs[0] as nat % 0x40);
    }
  }

  lemma {:induction false} GroupsJoined(n: nat, k: nat)
    ensures Joined(Groups(n, k), High(n, k)) == n
  {
    if k > 0 {
      GroupsJoined(n / 0x40, k - 1);
      JoinedAppend(Groups(n / 0x40, k - 1), (0x80 + n % 0x40) as char, High(n, k));
    }
  }

  lemma EncodedValue(c: char)
    ensures var e := Encode(c);
            && LengthBy(e[0]) == |e| && e[1..] == Groups(c as nat, Followers(c))
            && e[0] as nat % Payload(|e|) == High(c as nat, Followers(c))
  {
    hide Groups, High;
    HighFits(c);
  }

  /** Encoded characters are read back. */
  lemma ReadEncoded(c: char, rest: string)
    requires c != '\0'
    ensures ReadUtf8(Encode(c) + rest) == (c as nat, rest)
  {
    hide Encode, Joined, ReadTail, Groups, High;
    var e := Encode(c);
    EncodedValue(c);
    GroupsJoined(c as nat, Followers(c));
    TailMore(e[1..], rest, e[0] as nat % Payload(|e|));
    assert (e + rest)[1..] == e[1..] + rest;
  }

  /** `parse_char` on bytes. */
  function ReadCode(t: string): Option<(nat, string)> {
    if t == "" || t[0] == '\0' then None
    else if t[0] == '\\' then ReadChar(t)
    else Some(ReadUtf8(t))
  }

  lemma CodeShortens(t: string)
    requires ReadCode(t).Some?
    ensures |ReadCode(t).value.1| < |t|
  {
    if t[0] == '\\' {
      CharShortens(t);
    } else {
      TailShortens(t[1..], LengthBy(t[0]) - 1, t[0] as nat % Payload(LengthBy(t[0])));
    }
  }

  lemma AsciiCode(c: char, rest: string)
    requires '\0' < c < '\U{80}' && c != '\\'
    ensures ReadCode([c] + rest) == Some((c as nat, rest))
  {
    ReadEncoded(c, rest);
  }

  // ---------------------------------------------------------------- character classes

  /** The members of a class up to its closing bracket, as ranges, and what follows. */
  function ReadMembers(t: string): Option<(seq<(nat, nat)>, string)>
    decreases |t|
  {
    if t == "" then None
    else if t[0] == ']' then Some(([], t[1..]))
    else
      var c := ReadCode(t);
      if c.None? then None
      else
        CodeShortens(t);
        var u := c.value.1;
        if u != "" && u[0] == '-' && !(|u| > 1 && u[1] == ']') then
          var d := ReadCode(u[1..]);
          if d.None? then None
          else
            CodeShortens(u[1..]);
            Before((c.value.0, d.value.0), ReadMembers(d.value.1))
        else Before((c.value.0, c.value.0), ReadMembers(u))
  }

  function Before(r: (nat, nat), rest: Option<(seq<(nat, nat)>, string)>): Option<(seq<(nat, nat)>, string)> {
    if rest.None? then None else Some(([r] + rest.value.0, rest.value.1))
  }

  datatype CharClass = CharClass(negated: bool, ranges: seq<(nat, nat)>)

  /** A class whose text starts after the opening bracket. */
  function ReadClass(t: string): Option<(CharClass, string)> {
    var negated := t != "" && t[0] == '^';
    var r := ReadMembers(if negated then t[1..] else t);
    if r.None? then None else Some((CharClass(negated, r.value.0), r.value.1))
  }

  predicate InClass(ranges: seq<(nat, nat)>, x: nat) {
    exists i :: 0 <= i < |ranges| && ranges[i].0 <= x <= ranges[i].1
  }

  lemma InBefore(r: (nat, nat), ranges: seq<(nat, nat)>, x: nat)
    ensures InClass([r] + ranges, x) <==> r.0 <= x <= r.1 || InClass(ranges, x)
  {
    var s := [r] + ranges;
    if r.0 <= x <= r.1 { assert s[0] == r; }
    if i :| 0 <= i < |ranges| && ranges[i].0 <= x <= ranges[i].1 { assert s[i + 1] == ranges[i]; }
    if i :| 0 <= i < |s| && s[i].0 <= x <= s[i].1 && i > 0 { assert s[i] == ranges[i - 1]; }
  }

  // ---------------------------------------------------------------- literals

  /** A literal whose text starts after the opening quote. */
  function ReadText(t: string): Option<(seq<nat>, string)>
    decreases |t|
  {
    if t == "" then None
    else if t[0] == '"' then Some(([], t[1..]))
    else
      var c := ReadCode(t);
      if c.None? then None
      else
        CodeShortens(t);
        var r := ReadText(c.value.1);
        if r.None? then None else Some(([c.value.0] + r.value.0, r.value.1))
  }

  lemma {:induction false} TextShortens(t: string)
    requires ReadText(t).Some?
    ensures |ReadText(t).value.1| < |t|
    decreases |t|
  {
    if t[0] != '"' {
      CodeShortens(t);
      TextShortens(ReadCode(t).value.1);
    }
  }
}
