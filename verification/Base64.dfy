/** Base64 as in base64.hpp: encoding, and decoding with a sliding window of bits, also in place. */
module Base64 {
  import opened Arith

  datatype Alphabet = Auto | Standard | UrlSafe

  datatype Result<T> = Ok(value: T) | Invalid

  type Byte = b: int | 0 <= b < 256

  const CAPITALS := "ABCDEFGHIJKLMNOPQRSTUVWXYZ"
  const SMALL := "abcdefghijklmnopqrstuvwxyz"
  const NUMERALS := "0123456789"
  const STANDARD := CAPITALS + SMALL + NUMERALS + "+/"
  const URL_SAFE := CAPITALS + SMALL + NUMERALS + "-_"

  // ---------------------------------------------------------------- numbers in big-endian digits

  function Num(base: nat, ds: seq<int>): int {
    if ds == [] then 0 else Num(base, ds[..|ds| - 1]) * base + ds[|ds| - 1]
  }

  predicate DigitsBelow(base: nat, ds: seq<int>) { forall i :: 0 <= i < |ds| ==> 0 <= ds[i] < base }

  /** The last `n` digits of `v`. */
  function Digits(base: nat, n: nat, v: int): (ds: seq<int>)
    requires base > 0
    ensures |ds| == n && DigitsBelow(base, ds)
  {
    if n == 0 then [] else Digits(base, n - 1, v / base) + [v % base]
  }

  lemma NumAppend(base: nat, ds: seq<int>, d: int)
    ensures Num(base, ds + [d]) == Num(base, ds) * base + d
  {
    assert (ds + [d])[..|ds|] == ds;
  }

  lemma {:induction false} DigitsOfNum(base: nat, ds: seq<int>)
    requires base > 0 && DigitsBelow(base, ds)
    ensures Digits(base, |ds|, Num(base, ds)) == ds
  {
    if ds != [] {
      var front, d := ds[..|ds| - 1], ds[|ds| - 1];
      DigitsOfNum(base, front);
      DivMod(Num(base, front), base, d);
    }
  }

  function Power(base: nat, n: nat): nat { if n == 0 then 1 else Power(base, n - 1) * base }

  lemma {:induction false} NumBelow(base: nat, ds: seq<int>)
    requires base > 0 && DigitsBelow(base, ds)
    ensures 0 <= Num(base, ds) < Power(base, |ds|)
  {
    if ds != [] {
      var front, d := ds[..|ds| - 1], ds[|ds| - 1];
      NumBelow(base, front);
      TimesMono(Num(base, front) + 1, Power(base, |front|), base);
      TimesMono(0, Num(base, front), base);
      assert Num(base, ds) < (Num(base, front) + 1) * base;
    }
  }

  lemma {:induction false} NumOfDigits(base: nat, n: nat, v: int)
    requires base > 0 && 0 <= v < Power(base, n)
    ensures Num(base, Digits(base, n, v)) == v
  {
    if n > 0 {
      assert v == v / base * base + v % base;
      assert v / base < Power(base, n - 1) by {
        if v / base >= Power(base, n - 1) { TimesMono(Power(base, n - 1), v / base, base); }
      }
      NumOfDigits(base, n - 1, v / base);
      NumAppend(base, Digits(base, n - 1, v / base), v % base);
    }
  }

  // ---------------------------------------------------------------- what encoding and decoding mean

  /** As a factor: the bits by which `n` bytes fall short of six-bit groups. */
  function Gap(bits: int): nat { if bits == 0 then 1 else if bits == 2 then 4 else if bits == 4 then 16 else 64 }

  /** How many groups of six bits `n` bytes take. */
  function Groups(n: nat): nat { (4 * n + 2) / 3 }

  function Letter(a: Alphabet, v: int): char
    requires 0 <= v < 64
  {
    if a == UrlSafe then URL_SAFE[v] else STANDARD[v]
  }

  function Letters(a: Alphabet, ds: seq<int>): (s: string)
    requires DigitsBelow(64, ds)
    ensures |s| == |ds|
  {
    seq(|ds|, i requires 0 <= i < |ds| => Letter(a, ds[i]))
  }

  function Padding(groups: nat): string { if groups % 4 == 2 then "==" else if groups % 4 == 3 then "=" else "" }

  /** The bits of `x`, zeros appended to fill the last group of six, then padding (section 4 of RFC 4648). */
  function Encoded(a: Alphabet, x: seq<Byte>): string {
    var m := Groups(|x|);
    Letters(a, Digits(64, m, Num(256, x) * Gap(6 * m - 8 * |x|))) + Padding(m)
  }

  predicate AlphaNumeric(c: char) { 'A' <= c <= 'Z' || 'a' <= c <= 'z' || '0' <= c <= '9' }

  /** The value of a character in the alphabets that have it. */
  function ValueOf(c: char): int {
    if 'A' <= c <= 'Z' then c as int - 'A' as int
    else if 'a' <= c <= 'z' then c as int - 'a' as int + 26
    else if '0' <= c <= '9' then c as int - '0' as int + 52
    else if c == '+' || c == '-' then 62
    else 63
  }

  predicate InStandard(s: string) { forall i :: 0 <= i < |s| ==> AlphaNumeric(s[i]) || s[i] == '+' || s[i] == '/' }

  predicate InUrlSafe(s: string) { forall i :: 0 <= i < |s| ==> AlphaNumeric(s[i]) || s[i] == '-' || s[i] == '_' }

  /** All of `s` belongs to the alphabet; of `Auto`, to one of the two. */
  predicate Fits(a: Alphabet, s: string) {
    match a
    case Standard => InStandard(s)
    case UrlSafe => InUrlSafe(s)
    case Auto => InStandard(s) || InUrlSafe(s)
  }

  /** What comes before the first `=`. */
  function Content(s: string): (r: string)
    ensures r <= s
  {
    if s == "" || s[0] == '=' then "" else [s[0]] + Content(s[1..])
  }

  function Values(s: string): (ds: seq<int>)
    ensures |ds| == |s|
  {
    seq(|s|, i requires 0 <= i < |s| => ValueOf(s[i]))
  }

  /** The bytes the groups of six bits fill, left-over bits dropped. */
  function Bytes(ds: seq<int>): seq<int> {
    var n := |ds| * 6 / 8;
    Digits(256, n, Num(64, ds) / Gap(|ds| * 6 - n * 8))
  }

  predicate OnlyPadding(s: string) { forall i :: 0 <= i < |s| ==> s[i] == '=' }

  function Decoded(a: Alphabet, loose: bool, s: string): Result<seq<int>> {
    var body := Content(s);
    if !Fits(a, body) || (!loose && !OnlyPadding(s[|body|..])) then Invalid else Ok(Bytes(Values(body)))
  }

  /** The first `n` characters are all that counts: they belong to the alphabet, and what follows is padding, or, if
      that is not looked at, begins with `=`. */
  predicate ContentEnds(a: Alphabet, loose: bool, s: string, n: int) {
    && 0 <= n <= |s| && Fits(a, s[..n])
    && if loose then n == |s| || s[n] == '=' else forall j :: n <= j < |s| ==> s[j] == '='
  }

  /** The digits of six bits begin with the bits of the bytes; fewer than eight bits are left over. */
  ghost predicate Carries(ds: seq<int>, out: seq<int>) {
    && |out| == 6 * |ds| / 8 && DigitsBelow(256, out)
    && exists rest :: LeftOver(ds, out, rest)
  }

  predicate LeftOver(ds: seq<int>, out: seq<int>, rest: int) {
    var gap := Gap(6 * |ds| - 8 * |out|);
    0 <= rest < gap && Num(64, ds) == Num(256, out) * gap + rest
  }

  // ---------------------------------------------------------------- encoding

  function RequiredEncodeSize(size: nat): nat { (size / 3 + if size % 3 != 0 then 1 else 0) * 4 }

  function MaxDecodeSize(size: nat): nat { (size / 4 + if size % 4 != 0 then 1 else 0) * 3 }

  /** The letters written stand for the digits `ds`. */
  ghost predicate Written(a: Alphabet, ds: seq<int>, out: string) {
    DigitsBelow(64, ds) && out == Letters(a, ds)
  }

  lemma Write(a: Alphabet, ds: seq<int>, out: string, d: int)
    requires Written(a, ds, out) && 0 <= d < 64
    ensures Written(a, ds + [d], out + [Letter(a, d)]) && Num(64, ds + [d]) == Num(64, ds) * 64 + d
  {
    NumAppend(64, ds, d);
  }

  lemma Read(x: seq<Byte>, i: nat)
    requires i < |x|
    ensures Num(256, x[..i + 1]) == Num(256, x[..i]) * 256 + x[i]
  {
    assert x[..i + 1] == x[..i] + [x[i]];
    NumAppend(256, x[..i], x[i]);
  }

  lemma EncodedSize(n: nat)
    ensures var m := Groups(n);
            m + |Padding(m)| == RequiredEncodeSize(n) && m == n / 3 * 4 + (if n % 3 == 0 then 0 else n % 3 + 1)
            && 6 * m - 8 * n == (if n % 3 == 0 then 0 else if n % 3 == 1 then 4 else 2)
  {
    var g, r := n / 3, n % 3;
    assert n == 3 * g + r;
    assert Groups(n) == 4 * g + (4 * r + 2) / 3;
  }

  lemma AllWritten(a: Alphabet, x: seq<Byte>, ds: seq<int>, out: string)
    requires Written(a, ds, out) && |ds| == Groups(|x|)
    requires Num(64, ds) == Num(256, x[..|x|]) * Gap(6 * |ds| - 8 * |x|)
    ensures out + Padding(|ds|) == Encoded(a, x) && |Encoded(a, x)| == RequiredEncodeSize(|x|)
  {
    hide Num, Digits, Groups, Padding, RequiredEncodeSize, Gap, Letters;
    assert x[..|x|] == x;
    DigitsOfNum(64, ds);
    EncodedSize(|x|);
  }

  // The four groups of six bits of three bytes.

  function Six0(i0: Byte): (d: int)
    ensures 0 <= d < 64
  {
    i0 / 4 % 64
  }

  function Six1(i0: Byte, i1: Byte): (d: int)
    ensures 0 <= d < 64
  {
    i0 % 4 * 16 + i1 / 16 % 16
  }

  function Six2(i1: Byte, i2: Byte): (d: int)
    ensures 0 <= d < 64
  {
    i1 % 16 * 4 + i2 / 64 % 4
  }

  function Six3(i2: Byte): (d: int)
    ensures 0 <= d < 64
  {
    i2 % 64
  }

  lemma SameBits(v: int, i0: Byte, i1: Byte, i2: Byte)
    ensures (v * 64 + Six0(i0)) * 64 + Six1(i0, 0) == (v * 256 + i0) * 16
    ensures ((v * 64 + Six0(i0)) * 64 + Six1(i0, i1)) * 64 + Six2(i1, 0) == ((v * 256 + i0) * 256 + i1) * 4
    ensures (((v * 64 + Six0(i0)) * 64 + Six1(i0, i1)) * 64 + Six2(i1,
            i2)) * 64 + Six3(i2) == ((v * 256 + i0) * 256 + i1) * 256 + i2
  {
  }

  lemma GroupsOf(g: nat, r: nat)
    requires r < 3
    ensures var m := Groups(3 * g + r);
            m == 4 * g + (if r == 0 then 0 else r + 1)
                && Padding(m) == (if r == 0 then "" else if r == 1 then "==" else "=")
            && Gap(6 * m - 8 * (3 * g + r)) == (if r == 0 then 1 else if r == 1 then 16 else 4)
  {
    EncodedSize(3 * g + r);
  }

  /** `encode`: shifts and masks are written as quotients and remainders. */
  method Encode(x: seq<Byte>, a: Alphabet) returns (out: string)
    ensures out == Encoded(a, x) && |out| == RequiredEncodeSize(|x|)
  {
    hide Num, Written, Encoded, Letter, RequiredEncodeSize, Groups, Padding, Gap, Six0, Six1, Six2, Six3;
    var i := 0;
    out := "";
    ghost var ds: seq<int>, g := [], 0;
    NothingWritten(a, x);
    while i < |x|
      invariant i == 3 * g <= |x| && |ds| == 4 * g
      invariant Written(a, ds, out) && Num(64, ds) == Num(256, x[..i])
    {
      ghost var v := Num(64, ds);
      var i0 := x[i];
      Read(x, i);
      i := i + 1;
      Write(a, ds, out, Six0(i0));
      out, ds := out + [Letter(a, Six0(i0))], ds + [Six0(i0)];
      if i == |x| {
        Write(a, ds, out, Six1(i0, 0));
        out, ds := out + [Letter(a, Six1(i0, 0))], ds + [Six1(i0, 0)];
        SameBits(v, i0, 0, 0);
        GroupsOf(g, 1);
        AllWritten(a, x, ds, out);
        out := out + "==";
        return;
      }
      var i1 := x[i];
      Read(x, i);
      i := i + 1;
      Write(a, ds, out, Six1(i0, i1));
      out, ds := out + [Letter(a, Six1(i0, i1))], ds + [Six1(i0, i1)];
      if i == |x| {
        Write(a, ds, out, Six2(i1, 0));
        out, ds := out + [Letter(a, Six2(i1, 0))], ds + [Six2(i1, 0)];
        SameBits(v, i0, i1, 0);
        GroupsOf(g, 2);
        AllWritten(a, x, ds, out);
        out := out + "=";
        return;
      }
      var i2 := x[i];
      Read(x, i);
      i := i + 1;
      Write(a, ds, out, Six2(i1, i2));
      out, ds := out + [Letter(a, Six2(i1, i2))], ds + [Six2(i1, i2)];
      Write(a, ds, out, Six3(i2));
      out, ds := out + [Letter(a, Six3(i2))], ds + [Six3(i2)];
      SameBits(v, i0, i1, i2);
      g := g + 1;
    }
    GroupsOf(g, 0);
    AllWritten(a, x, ds, out);
    assert out + "" == out;
  }

  lemma NothingWritten(a: Alphabet, x: seq<Byte>)
    ensures Written(a, [], "") && Num(64, []) == Num(256, x[..0])
  {
  }

  // ---------------------------------------------------------------- decoding

  predicate OnlyInStandard(c: char) { c == '+' || c == '/' }

  predicate OnlyInUrlSafe(c: char) { c == '-' || c == '_' }

  /** What the alphabet passed by reference has become after the characters `s`, all of which were accepted. */
  ghost predicate Settled(a: Alphabet, s: string, now: Alphabet) {
    && Fits(a, s)
    && now == if a != Auto then a
              else if exists i :: 0 <= i < |s| && OnlyInStandard(s[i]) then Standard
              else if exists i :: 0 <= i < |s| && OnlyInUrlSafe(s[i]) then UrlSafe else Auto
  }

  predicate Takes(now: Alphabet, c: char) {
    AlphaNumeric(c) || (now != UrlSafe && OnlyInStandard(c)) || (now != Standard && OnlyInUrlSafe(c))
  }

  function Next(now: Alphabet, c: char): Alphabet {
    if now == Auto && OnlyInStandard(c) then Standard else if now == Auto && OnlyInUrlSafe(c) then UrlSafe else now
  }

  /** `_base64_value`; `now` is the alphabet it leaves behind. */
  method Base64Value(a: Alphabet, c: char) returns (r: Result<int>, now: Alphabet)
    ensures r.Ok? <==> Takes(a, c)
    ensures r.Ok? ==> r.value == ValueOf(c) && 0 <= r.value < 64
    ensures now == Next(a, c)
  {
    now := a;
    if 'A' <= c <= 'Z' {
      return Ok(c as int - 'A' as int), now;
    } else if 'a' <= c <= 'z' {
      return Ok(c as int - 'a' as int + 26), now;
    } else if '0' <= c <= '9' {
      return Ok(c as int - '0' as int + 52), now;
    }
    if a == Standard {
      if c == '+' {
        return Ok(62), now;
      } else if c == '/' {
        return Ok(63), now;
      }
    } else if a == UrlSafe {
      if c == '-' {
        return Ok(62), now;
      } else if c == '_' {
        return Ok(63), now;
      }
    } else {
      if c == '+' {
        return Ok(62), Standard;
      } else if c == '/' {
        return Ok(63), Standard;
      } else if c == '-' {
        return Ok(62), UrlSafe;
      } else if c == '_' {
        return Ok(63), UrlSafe;
      }
    }
    r := Invalid;
  }

  /** The choice of alphabet is carried along: a character is accepted exactly if all so far fit together. */
  lemma SettledStep(a: Alphabet, s: string, now: Alphabet, c: char)
    requires Settled(a, s, now)
    ensures Fits(a, s + [c]) <==> Takes(now, c)
    ensures Takes(now, c) ==> Settled(a, s + [c], Next(now, c)) && 0 <= ValueOf(c) < 64
  {
    var t := s + [c];
    assert t[|s|] == c && forall i :: 0 <= i < |s| ==> t[i] == s[i];
    if InStandard(s) && (AlphaNumeric(c) || OnlyInStandard(c)) { assert InStandard(t); }
    if InUrlSafe(s) && (AlphaNumeric(c) || OnlyInUrlSafe(c)) { assert InUrlSafe(t); }
  }

  function Shl(n: int): int { if n == 0 then 1 else if n == 2 then 4 else if n == 4 then 16 else 64 }

  /** The byte completed by `part`, `bits` bits of `last` being left over: `last << (8 - bits) | part >> (bits - 2)`. */
  function Emitted(last: int, bits: int, part: int): int {
    last * Shl(8 - bits) % 256 + part / Shl(bits - 2)
  }

  /** The digits read, the bytes written, and the bits left over in the last digit. */
  ghost predicate Window(ds: seq<int>, out: seq<int>, last: int, bits: int) {
    && bits in {0, 2, 4, 6} && bits == 6 * |ds| - 8 * |out| && 0 <= last < 64 && DigitsBelow(256, out)
    && Num(64, ds) == Num(256, out) * Gap(bits) + last % Gap(bits)
  }

  lemma Shift(ds: seq<int>, out: seq<int>, last: int, bits: int, part: int)
    requires Window(ds, out, last, bits) && 0 <= part < 64
    ensures bits == 0 ==> Window(ds + [part], out, part, 6)
    ensures bits > 0 ==> 0 <= Emitted(last, bits, part) < 256
                         && Window(ds + [part], out + [Emitted(last, bits, part)], part, bits - 2)
  {
    assert bits in {0, 2, 4, 6};
    hide Window, Emitted;
    if bits == 0 {
      ShiftNone(ds, out, last, part);
    } else if bits == 2 {
      ShiftTwo(ds, out, last, part);
    } else if bits == 4 {
      ShiftFour(ds, out, last, part);
    } else {
      ShiftSix(ds, out, last, part);
    }
  }

  lemma ShiftNone(ds: seq<int>, out: seq<int>, last: int, part: int)
    requires Window(ds, out, last, 0) && 0 <= part < 64
    ensures Window(ds + [part], out, part, 6)
  {
    hide Num;
    NumAppend(64, ds, part);
  }

  lemma ShiftTwo(ds: seq<int>, out: seq<int>, last: int, part: int)
    requires Window(ds, out, last, 2) && 0 <= part < 64
    ensures var e := Emitted(last, 2, part);
            0 <= e < 256 && Window(ds + [part], out + [e], part, 0)
  {
    hide Num, Emitted;
    EmitTwo(last, part);
    NumAppend(64, ds, part);
    NumAppend(256, out, Emitted(last, 2, part));
    LinearTwo(Num(256, out), last % 4, part, Emitted(last, 2, part), part % 1);
  }

  lemma EmitTwo(last: int, part: int)
    requires 0 <= last < 64 && 0 <= part < 64
    ensures 0 <= Emitted(last, 2, part) < 256 && last % 4 * 64 + part == Emitted(last, 2, part) * 1 + part % 1
  {
    ShiftedOut(last);
  }

  lemma LinearTwo(v: int, left: int, part: int, e: int, rest: int)
    requires left * 64 + part == e * 1 + rest
    ensures (v * 4 + left) * 64 + part == (v * 256 + e) * 1 + rest
  {
  }

  lemma ShiftFour(ds: seq<int>, out: seq<int>, last: int, part: int)
    requires Window(ds, out, last, 4) && 0 <= part < 64
    ensures var e := Emitted(last, 4, part);
            0 <= e < 256 && Window(ds + [part], out + [e], part, 2)
  {
    hide Num, Emitted;
    EmitFour(last, part);
    NumAppend(64, ds, part);
    NumAppend(256, out, Emitted(last, 4, part));
    LinearFour(Num(256, out), last % 16, part, Emitted(last, 4, part), part % 4);
  }

  lemma EmitFour(last: int, part: int)
    requires 0 <= last < 64 && 0 <= part < 64
    ensures 0 <= Emitted(last, 4, part) < 256 && last % 16 * 64 + part == Emitted(last, 4, part) * 4 + part % 4
  {
    ShiftedOut(last);
  }

  lemma LinearFour(v: int, left: int, part: int, e: int, rest: int)
    requires left * 64 + part == e * 4 + rest
    ensures (v * 16 + left) * 64 + part == (v * 256 + e) * 4 + rest
  {
  }

  lemma ShiftSix(ds: seq<int>, out: seq<int>, last: int, part: int)
    requires Window(ds, out, last, 6) && 0 <= part < 64
    ensures var e := Emitted(last, 6, part);
            0 <= e < 256 && Window(ds + [part], out + [e], part, 4)
  {
    hide Num, Emitted;
    EmitSix(last, part);
    NumAppend(64, ds, part);
    NumAppend(256, out, Emitted(last, 6, part));
    LinearSix(Num(256, out), last % 64, part, Emitted(last, 6, part), part % 16);
  }

  lemma EmitSix(last: int, part: int)
    requires 0 <= last < 64 && 0 <= part < 64
    ensures 0 <= Emitted(last, 6, part) < 256 && last % 64 * 64 + part == Emitted(last, 6, part) * 16 + part % 16
  {
    ShiftedOut(last);
  }

  lemma LinearSix(v: int, left: int, part: int, e: int, rest: int)
    requires left * 64 + part == e * 16 + rest
    ensures (v * 64 + left) * 64 + part == (v * 256 + e) * 16 + rest
  {
  }

  /** A left shift in eight bits drops the bits already written. */
  lemma ShiftedOut(last: int)
    requires 0 <= last < 64
    ensures last * 64 % 256 == last % 4 * 64 && last * 16 % 256 == last % 16 * 16 && last * 4 % 256 == last * 4
  {
  }

  lemma WindowIsBytes(ds: seq<int>, out: seq<int>, last: int, bits: int)
    requires Window(ds, out, last, bits)
    ensures out == Bytes(ds)
  {
    hide Num, Digits;
    var n := |ds| * 6 / 8;
    assert n == |out|;
    DivMod(Num(256, out), Gap(bits), last % Gap(bits));
    DigitsOfNum(256, out);
  }

  /** Whatever the digits, the window ends with bytes that carry their bits. */
  lemma {:induction false} BytesCarry(ds: seq<int>) returns (last: int, bits: int)
    requires DigitsBelow(64, ds)
    ensures Window(ds, Bytes(ds), last, bits) && Carries(ds, Bytes(ds))
  {
    hide Window, Num, Bytes, Carries;
    if ds == [] {
      last, bits := 0, 0;
      NoDigits();
      WindowIsBytes([], [], 0, 0);
    } else {
      var front, part := ds[..|ds| - 1], ds[|ds| - 1];
      assert front + [part] == ds;
      var before, left := BytesCarry(front);
      Shift(front, Bytes(front), before, left, part);
      last := part;
      if left == 0 {
        bits := 6;
        WindowIsBytes(ds, Bytes(front), last, bits);
      } else {
        bits := left - 2;
        WindowBits(front, Bytes(front), before, left);
        WindowIsBytes(ds, Bytes(front) + [Emitted(before, left, part)], last, bits);
      }
    }
    WindowCarries(ds, Bytes(ds), last, bits);
  }

  lemma NoDigits()
    ensures Window([], [], 0, 0)
  {
  }

  lemma WindowBits(ds: seq<int>, out: seq<int>, last: int, bits: int)
    requires Window(ds, out, last, bits) && bits != 0
    ensures bits > 0
  {
  }

  lemma WindowCarries(ds: seq<int>, out: seq<int>, last: int, bits: int)
    requires Window(ds, out, last, bits)
    ensures Carries(ds, out)
  {
    hide Num;
    assert LeftOver(ds, out, last % Gap(bits));
  }

  function Codes(t: string): (ds: seq<int>)
    ensures |ds| == |t|
  {
    seq(|t|, i requires 0 <= i < |t| => t[i] as int)
  }

  lemma {:induction false} ContentStops(s: string, i: nat)
    requires i <= |s| && forall j :: 0 <= j < i ==> s[j] != '='
    ensures i <= |Content(s)| && Content(s)[..i] == s[..i] && (i == |s| || s[i] == '=' ==> Content(s) == s[..i])
  {
    if i > 0 { ContentStops(s[1..], i - 1); }
  }

  lemma {:induction false} FitsPrefix(a: Alphabet, s: string, i: nat)
    requires i <= |s| && Fits(a, s)
    ensures Fits(a, s[..i])
  {
  }

  lemma FitsHasNoPadding(a: Alphabet, s: string)
    requires Fits(a, s)
    ensures forall j :: 0 <= j < |s| ==> s[j] != '=' && 0 <= ValueOf(s[j]) < 64
  {
  }

  lemma {:induction false} ContentStopsAtPadding(s: string)
    ensures forall j :: 0 <= j < |Content(s)| ==> s[j] != '='
    ensures |Content(s)| == |s| || s[|Content(s)|] == '='
  {
    if s != "" && s[0] != '=' { ContentStopsAtPadding(s[1..]); }
  }

  /** Which texts decode, and to what: the content fits the alphabet and is followed by padding alone, or, loosely, just
      by `=`; and the bytes are those its bits fill. */
  lemma DecodesIff(a: Alphabet, loose: bool, s: string)
    ensures Decoded(a, loose, s).Ok? <==> exists n :: ContentEnds(a, loose, s, n)
    ensures forall n :: ContentEnds(a, loose, s, n) ==> Carries(Values(s[..n]), Decoded(a, loose, s).value)
  {
    hide Fits, Bytes, Carries, ValueOf;
    var body := Content(s);
    ContentStopsAtPadding(s);
    if Decoded(a, loose, s).Ok? {
      assert s[..|body|] == body;
      assert !loose ==> forall j :: |body| <= j < |s| ==> s[j] == s[|body|..][j - |body|];
      assert ContentEnds(a, loose, s, |body|);
    }
    forall n | ContentEnds(a, loose, s, n)
      ensures Decoded(a, loose, s).Ok? && Carries(Values(s[..n]), Decoded(a, loose, s).value)
    {
      FitsHasNoPadding(a, s[..n]);
      assert forall j :: 0 <= j < n ==> s[j] == s[..n][j];
      ContentStops(s, n);
      var _, _ := BytesCarry(Values(s[..n]));
    }
  }

  /** The state of the decoding loop: `i` characters read, `k` bytes written. */
  ghost predicate Decoding(a: Alphabet, s: string, i: nat, out: seq<int>, last: int, bits: int, now: Alphabet) {
    && i <= |s| && (forall j :: 0 <= j < i ==> s[j] != '=')
    && Settled(a, s[..i], now) && Window(Values(s[..i]), out, last, bits)
  }

  lemma DecodeStep(a: Alphabet, s: string, i: nat, out: seq<int>, last: int, bits: int, now: Alphabet)
    requires Decoding(a, s, i, out, last, bits, now) && i < |s| && s[i] != '=' && Takes(now, s[i])
    ensures bits == 0 ==> Decoding(a, s, i + 1, out, ValueOf(s[i]), 6, Next(now, s[i]))
    ensures bits > 0 ==> var e := Emitted(last, bits, ValueOf(s[i]));
                         0 <= e < 256 && Decoding(a, s, i + 1, out + [e], ValueOf(s[i]), bits - 2, Next(now, s[i]))
  {
    hide Window, Settled, Emitted, Takes, Next, ValueOf, Fits;
    var c := s[i];
    assert s[..i + 1] == s[..i] + [c] && Values(s[..i + 1]) == Values(s[..i]) + [ValueOf(c)];
    SettledStep(a, s[..i], now, c);
    Shift(Values(s[..i]), out, last, bits, ValueOf(c));
  }

  lemma DecodeFails(a: Alphabet, s: string, i: nat, out: seq<int>, last: int, bits: int, now: Alphabet)
    requires Decoding(a, s, i, out, last, bits, now) && i < |s| && s[i] != '=' && !Takes(now, s[i])
    ensures !Fits(a, Content(s))
  {
    hide Window, Settled, Takes, Fits;
    assert s[..i + 1] == s[..i] + [s[i]];
    SettledStep(a, s[..i], now, s[i]);
    ContentStops(s, i + 1);
    if Fits(a, Content(s)) { FitsPrefix(a, Content(s), i + 1); }
  }

  lemma DecodeDone(a: Alphabet, s: string, i: nat, out: seq<int>, last: int, bits: int, now: Alphabet)
    requires Decoding(a, s, i, out, last, bits, now) && (i == |s| || s[i] == '=')
    ensures Content(s) == s[..i] && Fits(a, Content(s)) && out == Bytes(Values(Content(s)))
  {
    ContentStops(s, i);
    WindowIsBytes(Values(s[..i]), out, last, bits);
  }

  lemma DecodeBegins(a: Alphabet, s: string)
    ensures Decoding(a, s, 0, [], 0, 0, a)
  {
  }

  /** There is room for the byte a character completes, and at that character or before it. */
  lemma WrittenBeforeRead(a: Alphabet, s: string, i: nat, out: seq<int>, last: int, bits: int, now: Alphabet)
    requires Decoding(a, s, i, out, last, bits, now)
    ensures bits in {0, 2, 4, 6} && |out| <= i && |out| <= MaxDecodeSize(|s|)
    ensures i < |s| && bits > 0 ==> |out| < MaxDecodeSize(|s|)
  {
    assert |s| == |s| / 4 * 4 + |s| % 4;
  }

  /** Whether only padding is left. */
  method CheckPadding(src: array<char>, from: nat, size: nat) returns (ok: bool)
    requires from <= size <= src.Length
    ensures ok <==> OnlyPadding(src[from..size])
  {
    var i := from;
    while i < size
      invariant from <= i <= size && forall j :: from <= j < i ==> src[j] == '='
    {
      if src[i] != '=' {
        assert src[from..size][i - from] != '=';
        return false;
      }
      i := i + 1;
    }
    ok := true;
  }

  /** One more byte in the buffer: those after it, and the characters not read yet, are as they were. */
  lemma Stored(d: string, k: nat, v: int, i: nat, size: nat)
    requires k < |d| && 0 <= v < 256
    ensures var d' := d[k := v as char];
            Codes(d'[..k + 1]) == Codes(d[..k]) + [v] && d'[k + 1..] == d[k..][1..]
            && (k < i <= size <= |d| ==> d'[i..size] == d[i..size])
  {
  }

  /** `decode` from a buffer into another or into itself (`decode_inplace`): nothing is written where there still are
      characters to be read, and nothing past the result is touched. */
  method DecodeInto(src: array<char>, size: nat, dst: array<char>, a: Alphabet, loose: bool) returns (r: Result<nat>)
    requires size <= src.Length && (dst == src || MaxDecodeSize(size) <= dst.Length)
    modifies dst
    ensures r.Ok? <==> exists n :: ContentEnds(a, loose, old(src[..size]), n)
    ensures r.Ok? ==> forall n :: ContentEnds(a, loose, old(src[..size]), n) ==>
                        r.value <= dst.Length && Carries(Values(old(src[..size])[..n]), Codes(dst[..r.value]))
    ensures r.Ok? <==> Decoded(a, loose, old(src[..size])).Ok?
    ensures r.Ok? ==> r.value <= dst.Length && r.value <= MaxDecodeSize(size)
                      && Codes(dst[..r.value]) == Decoded(a, loose, old(src[..size])).value
                      && dst[r.value..] == old(dst[r.value..])
  {
    hide Decoding, Content, Fits, Emitted, Bytes, OnlyPadding, Takes, Next, ValueOf, MaxDecodeSize, ContentEnds,
      Carries, Values;
    ghost var s, out: seq<int> := src[..size], [];
    DecodesIff(a, loose, s);
    var now, i, k, last, bits := a, 0, 0, 0, 0;
    DecodeBegins(a, s);
    while i < size
      invariant i <= size && k == |out| && k <= dst.Length && Decoding(a, s, i, out, last, bits, now)
      invariant src[i..size] == s[i..]
      invariant Codes(dst[..k]) == out && dst[k..] == old(dst[k..])
      decreases size - i
    {
      var c := src[i];
      assert c == s[i] by { assert src[i..size][0] == s[i..][0]; }
      if c == '=' {
        break;
      }
      WrittenBeforeRead(a, s, i, out, last, bits, now);
      var v;
      ghost var before := now;
      v, now := Base64Value(now, c);
      if v.Invalid? {
        DecodeFails(a, s, i, out, last, bits, before);
        return Invalid;
      }
      DecodeStep(a, s, i, out, last, bits, before);
      i := i + 1;
      if bits + 6 >= 8 {
        ghost var d := dst[..];
        dst[k] := Emitted(last, bits, v.value) as char;
        Stored(d, k, Emitted(last, bits, v.value), i, size);
        assert dst[..] == d[k := Emitted(last, bits, v.value) as char];
        out := out + [Emitted(last, bits, v.value)];
        k := k + 1;
        bits := bits - 2;
      } else {
        bits := bits + 6;
      }
      last := v.value;
    }
    WrittenBeforeRead(a, s, i, out, last, bits, now);
    DecodeDone(a, s, i, out, last, bits, now);
    assert src[i..size] == s[|Content(s)|..];
    var padded := true;
    if !loose {
      padded := CheckPadding(src, i, size);
    }
    r := if padded then Ok(k) else Invalid;
  }

  // ---------------------------------------------------------------- round trips

  /** The alphabet a text was written in; `Auto` writes the standard one. */
  function Writes(a: Alphabet): Alphabet { if a == UrlSafe then UrlSafe else Standard }

  predicate Accepts(a: Alphabet, c: char) {
    AlphaNumeric(c) || (a != UrlSafe && OnlyInStandard(c)) || (a == UrlSafe && OnlyInUrlSafe(c))
  }

  lemma TableEntries(v: int)
    ensures 0 <= v < 26 ==> CAPITALS[v] as int == v + 'A' as int && SMALL[v] as int == v + 'a' as int
    ensures 0 <= v < 10 ==> NUMERALS[v] as int == v + '0' as int
  {
  }

  lemma TableEntry(a: Alphabet, v: int)
    requires 0 <= v < 64
    ensures |CAPITALS| == |SMALL| == 26 && |NUMERALS| == 10
    ensures Letter(a, v) == if v < 26 then CAPITALS[v] else if v < 52 then SMALL[v - 26]
              else if v < 62 then NUMERALS[v - 52]
                            else if v == 62 then (if a == UrlSafe then '-' else '+') else (if a
                                == UrlSafe then '_' else '/')
  {
    Quarters(CAPITALS, SMALL, NUMERALS, if a == UrlSafe then "-_" else "+/", v);
  }

  lemma Quarters(p: string, q: string, r: string, t: string, v: int)
    requires |p| == 26 && |q| == 26 && |r| == 10 && |t| == 2 && 0 <= v < 64
    ensures (p + q + r + t)[v] == if v < 26 then p[v] else if v < 52 then q[v - 26]
              else if v < 62 then r[v - 52] else t[v - 62]
  {
  }

  lemma LetterValue(a: Alphabet, v: int)
    requires 0 <= v < 64
    ensures ValueOf(Letter(a, v)) == v && Accepts(a, Letter(a, v)) && Letter(a, v) != '='
  {
    hide Letter;
    TableEntry(a, v);
    TableEntries(if v < 26 then v else if v < 52 then v - 26 else v - 52);
  }

  lemma ValueLetter(a: Alphabet, c: char)
    requires Accepts(a, c)
    ensures 0 <= ValueOf(c) < 64 && Letter(a, ValueOf(c)) == c
  {
    hide Letter;
    var v := ValueOf(c);
    TableEntry(a, v);
    TableEntries(if v < 26 then v else if v < 52 then v - 26 else v - 52);
  }

  lemma LettersFit(a: Alphabet, ds: seq<int>)
    requires DigitsBelow(64, ds)
    ensures var s := Letters(a, ds);
            Fits(Auto, s) && Fits(Writes(a), s) && Values(s) == ds && forall i :: 0 <= i < |s| ==> s[i] != '='
  {
    hide Letter, ValueOf, AlphaNumeric, OnlyInStandard, OnlyInUrlSafe;
    var s := Letters(a, ds);
    forall i | 0 <= i < |s| ensures ValueOf(s[i]) == ds[i] && Accepts(a, s[i]) && s[i] != '=' {
      LetterValue(a, ds[i]);
    }
    AcceptedFits(a, s);
  }

  lemma AcceptedFits(a: Alphabet, s: string)
    ensures (forall i :: 0 <= i < |s| ==> Accepts(a, s[i])) <==> Fits(Writes(a), s)
    ensures Fits(Writes(a), s) ==> Fits(Auto, s)
  {
  }

  lemma ContentOfPadded(body: string, n: nat)
    requires forall i :: 0 <= i < |body| ==> body[i] != '='
    ensures var s := body + Padding(n);
            Content(s) == body && OnlyPadding(s[|body|..])
  {
    var s := body + Padding(n);
    ContentStops(s, |body|);
    assert s[..|body|] == body && s[|body|..] == Padding(n);
  }

  /** Six-bit groups have room for exactly the bytes and the gap. */
  lemma {:induction false} PowerGap(n: nat)
    ensures Power(256, n) * Gap(6 * Groups(n) - 8 * n) == Power(64, Groups(n))
  {
    if n < 3 {
      SmallPowers();
    } else {
      PowerGap(n - 3);
      assert Groups(n) == Groups(n - 3) + 4;
      PowerStep(256, n - 3);
      PowerStep(64, Groups(n - 3));
      assert Gap(6 * Groups(n) - 8 * n) == Gap(6 * Groups(n - 3) - 8 * (n - 3));
      Regroup(Power(256, n - 3), Gap(6 * Groups(n) - 8 * n), Power(64, Groups(n - 3)));
    }
  }

  lemma SmallPowers()
    ensures Power(256, 0) == 1 && Power(256, 1) == 256 && Power(256, 2) == 65536
    ensures Power(64, 0) == 1 && Power(64, 2) == 4096 && Power(64, 3) == 262144
  {
  }

  lemma PowerStep(base: nat, n: nat)
    ensures Power(base, n + 3) == Power(base, n) * base * base * base
    ensures Power(base, n + 4) == Power(base, n) * base * base * base * base
  {
    var p, q := Power(base, n + 1), Power(base, n + 2);
    assert p == Power(base, n) * base;
    assert q == p * base;
    assert Power(base, n + 3) == q * base;
    assert Power(base, n + 4) == Power(base, n + 3) * base;
  }

  lemma Regroup(p: nat, g: nat, q: nat)
    requires p * g == q
    ensures (p * 256 * 256 * 256) * g == q * 64 * 64 * 64 * 64
  {
    assert (p * 16777216) * g == (p * g) * 16777216;
  }

  lemma ValueFits(x: seq<Byte>, m: nat, g: nat)
    requires m == Groups(|x|) && g == Gap(6 * m - 8 * |x|)
    ensures 0 <= Num(256, x) * g < Power(64, m)
  {
    hide Num, Digits, Power, Groups, Gap;
    NumBelow(256, x);
    PowerGap(|x|);
    GapPositive(6 * m - 8 * |x|);
    Scaled(Num(256, x), Power(256, |x|), g);
  }

  /** The value of the groups, before they become letters. */
  lemma EncodedValue(x: seq<Byte>)
    ensures var m := Groups(|x|);
            var v := Num(256, x) * Gap(6 * m - 8 * |x|);
            0 <= v && Num(64, Digits(64, m, v)) == v
  {
    hide Num, Digits, Power, Groups, Gap;
    var m := Groups(|x|);
    ValueFits(x, m, Gap(6 * m - 8 * |x|));
    NumOfDigits(64, m, Num(256, x) * Gap(6 * m - 8 * |x|));
  }

  lemma Scaled(v: int, p: int, g: int)
    requires 0 <= v < p && 0 < g
    ensures 0 <= v * g < p * g
  {
    TimesMono(0, v, g);
    TimesMono(v + 1, p, g);
  }

  lemma GapPositive(bits: int)
    ensures Gap(bits) > 0
  {
  }

  /** Decoding what was encoded gives back the bytes: with the alphabet used, and with the alphabet left open. */
  lemma DecodeOfEncode(a: Alphabet, b: Alphabet, loose: bool, x: seq<Byte>)
    requires b == Auto || b == Writes(a)
    ensures Decoded(b, loose, Encoded(a, x)) == Ok(x)
  {
    hide Num, Digits, Groups, Letters, Padding, Fits, OnlyPadding, Content;
    var m, n := Groups(|x|), |x|;
    var g := Gap(6 * m - 8 * n);
    var ds := Digits(64, m, Num(256, x) * g);
    EncodedValue(x);
    LettersFit(a, ds);
    ContentOfPadded(Letters(a, ds), m);
    EncodedSize(n);
    assert m * 6 / 8 == n by { BytesOfGroups(n); }
    DivMod(Num(256, x), g, 0);
    DigitsOfNum(256, x);
    assert Encoded(a, x)[|Letters(a, ds)|..] == Padding(m);
  }

  lemma BytesOfGroups(n: nat)
    ensures Groups(n) * 6 / 8 == n
  {
    var g, r := n / 3, n % 3;
    assert n == 3 * g + r;
    assert Groups(n) == 4 * g + (4 * r + 2) / 3;
  }

  /** Padded text with no bits set beyond the last byte (sections 3.2 and 3.5 of RFC 4648). */
  predicate Canonical(a: Alphabet, s: string) {
    var body := Content(s);
    && Fits(Writes(a), body) && |body| % 4 != 1 && s == body + Padding(|body|)
    && Num(64, Values(body)) % Gap(|body| * 6 - |body| * 6 / 8 * 8) == 0
  }

  /** Encoding what was decoded gives back the text, if it is canonical; canonical texts are just the encoded ones. */
  lemma EncodeOfDecode(a: Alphabet, loose: bool, s: string)
    requires Canonical(a, s)
    ensures Decoded(a, loose, s).Ok? && Encoded(a, Decoded(a, loose, s).value) == s
  {
    hide Num, Digits, Groups, Letters, Padding, Fits, OnlyPadding, Content, Power;
    var body := Content(s);
    var ds, m, n := Values(body), |body|, |body| * 6 / 8;
    var g := Gap(m * 6 - n * 8);
    PaddedRest(s, body);
    AcceptedFits(a, body);
    ValuesBelow(a, body);
    GroupsOfBytes(m);
    NumBelow(64, ds);
    PowerGap(n);
    GapPositive(m * 6 - n * 8);
    var v := Num(64, ds);
    assert v == v / g * g;
    assert v / g < Power(256, n) by { if v / g >= Power(256, n) { TimesMono(Power(256, n), v / g, g); } }
    NumOfDigits(256, n, v / g);
    DigitsOfNum(64, ds);
    LettersOfValues(a, body);
  }

  lemma PaddedRest(s: string, body: string)
    requires s == body + Padding(|body|)
    ensures OnlyPadding(s[|body|..])
  {
    assert s[|body|..] == Padding(|body|);
  }

  lemma GroupsOfBytes(m: nat)
    requires m % 4 != 1
    ensures Groups(m * 6 / 8) == m
  {
    var g, r := m / 4, m % 4;
    assert m == 4 * g + r && m * 6 == 24 * g + 6 * r;
    assert m * 6 / 8 == 3 * g + 6 * r / 8;
  }

  lemma ValuesBelow(a: Alphabet, s: string)
    requires Fits(Writes(a), s)
    ensures DigitsBelow(64, Values(s))
  {
    AcceptedFits(a, s);
    forall i | 0 <= i < |s| ensures 0 <= ValueOf(s[i]) < 64 { ValueLetter(a, s[i]); }
  }

  lemma LettersOfValues(a: Alphabet, s: string)
    requires Fits(Writes(a), s)
    ensures DigitsBelow(64, Values(s)) && Letters(a, Values(s)) == s
  {
    hide ValueOf, Letter;
    AcceptedFits(a, s);
    ValuesBelow(a, s);
    forall i | 0 <= i < |s| ensures Letters(a, Values(s))[i] == s[i] { ValueLetter(a, s[i]); }
  }

  /** Encoded texts are canonical. */
  lemma EncodedIsCanonical(a: Alphabet, x: seq<Byte>)
    ensures Canonical(a, Encoded(a, x))
  {
    hide Num, Digits, Groups, Letters, Padding, Fits, OnlyPadding, Content;
    var m, n := Groups(|x|), |x|;
    var g := Gap(6 * m - 8 * n);
    var ds := Digits(64, m, Num(256, x) * g);
    EncodedValue(x);
    LettersFit(a, ds);
    ContentOfPadded(Letters(a, ds), m);
    EncodedSize(n);
    BytesOfGroups(n);
    assert m % 4 != 1 by { assert m == n / 3 * 4 + (if n % 3 == 0 then 0 else n % 3 + 1); }
    GapPositive(6 * m - 8 * n);
    DivMod(Num(256, x), g, 0);
  }

  /** With the alphabet left open a text decodes exactly if it does with one of the two, and then to the same bytes. */
  lemma AutoIsEither(loose: bool, s: string)
    ensures Decoded(Auto, loose, s).Ok? <==> Decoded(Standard, loose, s).Ok? || Decoded(UrlSafe, loose, s).Ok?
    ensures Decoded(Standard, loose, s).Ok? ==> Decoded(Auto, loose, s) == Decoded(Standard, loose, s)
    ensures Decoded(UrlSafe, loose, s).Ok? ==> Decoded(Auto, loose, s) == Decoded(UrlSafe, loose, s)
  {
  }
}
