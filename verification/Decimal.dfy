/** Decimal numerals as strings, and their order read off the text. */
module Decimal {
  predicate IsDigit(c: char) { '0' <= c <= '9' }

  predicate Digits(w: string) { forall i :: 0 <= i < |w| ==> IsDigit(w[i]) }

  function DigitChar(d: nat): (c: char)
    requires d < 10
    ensures IsDigit(c) && c as int == '0' as int + d
  {
    '0' + d as char
  }

  /** std::to_string of a nonnegative number. */
  function Dec(n: nat): string {
    if n < 10 then [DigitChar(n)] else Dec(n / 10) + [DigitChar(n % 10)]
  }

  /** No leading zero, except in "0" itself. */
  predicate Canonical(w: string) {
    w != "" && Digits(w) && (w[0] == '0' ==> |w| == 1)
  }

  function Value(w: string): nat
    requires Digits(w)
  {
    if w == "" then 0 else 10 * Value(w[..|w| - 1]) + (w[|w| - 1] as int - '0' as int)
  }

  /** Lexicographic order, meant for strings of equal length. */
  predicate LexLe(a: string, b: string)
    requires |a| == |b|
  {
    a == "" || a[0] < b[0] || (a[0] == b[0] && LexLe(a[1..], b[1..]))
  }

  /** Shorter first, then lexicographic. */
  predicate ShortLe(a: string, b: string) {
    |a| < |b| || (|a| == |b| && LexLe(a, b))
  }

  function Repeat(c: char, n: nat): (w: string)
    ensures |w| == n && forall i :: 0 <= i < n ==> w[i] == c
  {
    seq(n, _ => c)
  }

  function Zeros(n: nat): string { Repeat('0', n) }

  function Nines(n: nat): string { Repeat('9', n) }

  lemma {:induction false} LexRefl(a: string)
    ensures LexLe(a, a)
  {
    if a != "" { LexRefl(a[1..]); }
  }

  lemma {:induction false} LexZerosNines(w: string)
    requires Digits(w)
    ensures LexLe(Zeros(|w|), w) && LexLe(w, Nines(|w|))
  {
    if w != "" {
      assert Zeros(|w|)[1..] == Zeros(|w| - 1) && Nines(|w|)[1..] == Nines(|w| - 1);
      LexZerosNines(w[1..]);
    }
  }

  lemma {:induction false} LexAntisym(a: string, b: string)
    requires |a| == |b| && LexLe(a, b) && LexLe(b, a)
    ensures a == b
  {
    if a != "" {
      LexAntisym(a[1..], b[1..]);
      assert a == [a[0]] + a[1..] && b == [b[0]] + b[1..];
    }
  }

  /** The order seen from the last character. */
  lemma {:induction false} LexLast(a: string, x: char, b: string, y: char)
    requires |a| == |b|
    ensures LexLe(a + [x], b + [y]) <==> LexLe(a, b) && (a == b ==> x <= y)
  {
    if a == "" {
      assert a + [x] == [x] && b + [y] == [y];
      assert [x][1..] == "" && [y][1..] == "";
    } else {
      assert (a + [x])[1..] == a[1..] + [x] && (b + [y])[1..] == b[1..] + [y];
      LexLast(a[1..], x, b[1..], y);
      if a[0] == b[0] {
        assert a == [a[0]] + a[1..] && b == [b[0]] + b[1..];
      }
    }
  }

  lemma {:induction false} DecCanonical(n: nat)
    ensures Canonical(Dec(n)) && Value(Dec(n)) == n
    ensures n > 0 ==> Dec(n)[0] != '0'
  {
    if n >= 10 {
      DecCanonical(n / 10);
      assert Dec(n)[..|Dec(n)| - 1] == Dec(n / 10);
    } else {
      assert Dec(n)[..0] == "";
    }
  }

  lemma {:induction false} CanonicalIsDec(w: string)
    requires Canonical(w)
    ensures Dec(Value(w)) == w
    ensures w[0] != '0' ==> Value(w) > 0
  {
    var a, x := w[..|w| - 1], w[|w| - 1];
    assert w == a + [x];
    if a == "" {
      assert w == [x];
      assert Value(a) == 0;
      assert Value(w) == x as int - '0' as int;
    } else {
      CanonicalIsDec(a);
      var d := x as int - '0' as int;
      assert Value(w) == 10 * Value(a) + d;
      assert Value(w) / 10 == Value(a) && Value(w) % 10 == d;
    }
  }

  /** The numeric order is the order of the numerals: shorter first, then lexicographic. */
  lemma {:induction false} DecOrder(m: nat, n: nat)
    ensures m <= n <==> ShortLe(Dec(m), Dec(n))
    decreases m + n
  {
    if m >= 10 && n >= 10 {
      DecOrder(m / 10, n / 10);
      DecOrder(n / 10, m / 10);
      var a, b := Dec(m / 10), Dec(n / 10);
      if |a| == |b| {
        LexLast(a, DigitChar(m % 10), b, DigitChar(n % 10));
        if LexLe(a, b) && LexLe(b, a) { LexAntisym(a, b); }
        if a == b { LexRefl(a); }
      }
      assert m <= n <==> m / 10 < n / 10 || (m / 10 == n / 10 && m % 10 <= n % 10);
    } else if m < 10 && n < 10 {
      assert Dec(m)[1..] == "" && Dec(n)[1..] == "";
      assert m < n <==> DigitChar(m) < DigitChar(n);
      assert LexLe("", "");
    } else if m < 10 {
      DecCanonical(n / 10);
    } else {
      DecCanonical(m / 10);
    }
  }
}
