/** Decimal notation as Rust prints and parses it. */
module Decimals {
  import opened Orderings

  function DigitOf(d: nat): (c: char)
    requires d < 10
  {
    ('0' as int + d) as char
  }

  predicate IsDigit(c: char) {
    '0' <= c <= '9'
  }

  predicate AllDigits(s: string) {
    forall i :: 0 <= i < |s| ==> IsDigit(s[i])
  }

  function DigitValue(c: char): nat
    requires IsDigit(c)
  {
    c as int - '0' as int
  }

  /** `to_string` of an unsigned integer. */
  function Digits(n: nat): string {
    if n < 10 then [DigitOf(n)] else Digits(n / 10) + [DigitOf(n % 10)]
  }

  /** The number that a string of digits denotes, leading zeros allowed. */
  function ValueOf(s: string): nat
    requires AllDigits(s)
  {
    if s == "" then 0 else 10 * ValueOf(s[..|s| - 1]) + DigitValue(s[|s| - 1])
  }

  /** Printing and parsing are inverse. */
  lemma {:induction false} ValueOfDigits(n: nat)
    ensures AllDigits(Digits(n)) && Digits(n) != "" && ValueOf(Digits(n)) == n
    ensures n > 0 ==> Digits(n)[0] != '0'
  {
    if n >= 10 {
      ValueOfDigits(n / 10);
      var s := Digits(n);
      assert s[..|s| - 1] == Digits(n / 10);
    }
  }

  /** `s` without the zeros it starts with. */
  function StripZeros(s: string): string {
    if s != "" && s[0] == '0' then StripZeros(s[1..]) else s
  }

  lemma DigitsStep(v: nat, c: char)
    requires IsDigit(c)
    ensures Digits(10 * v + DigitValue(c)) == if v > 0 then Digits(v) + [c] else [c]
  {
    var n := 10 * v + DigitValue(c);
    assert n / 10 == v && n % 10 == DigitValue(c);
  }

  /** Every digit string denotes the number whose printed form is that string up to leading zeros. */
  lemma {:induction false} DigitsOfValue(s: string)
    requires AllDigits(s)
    ensures StripZeros(Digits(ValueOf(s))) == StripZeros(s)
  {
    if s == "" {
      assert StripZeros("0") == StripZeros("0"[1..]);
    } else {
      var t, c := s[..|s| - 1], s[|s| - 1];
      DigitsOfValue(t);
      assert s == t + [c];
      DigitsStep(ValueOf(t), c);
      StripExtends(t, c);
      StripExtends(Digits(ValueOf(t)), c);
      if ValueOf(t) == 0 {
        assert StripZeros("0") == StripZeros("0"[1..]);
      }
    }
  }

  lemma {:induction false} StripExtends(t: string, c: char)
    ensures StripZeros(t + [c]) == if StripZeros(t) == "" then StripZeros([c]) else StripZeros(t) + [c]
  {
    if t == "" {
      assert t + [c] == [c];
    } else if t[0] == '0' {
      StripExtends(t[1..], c);
      assert (t + [c])[1..] == t[1..] + [c];
    }
  }

  // ----- Fixed width -----

  function Zeros(k: nat): string {
    if k == 0 then "" else "0" + Zeros(k - 1)
  }

  /** `{:0w}`: zeros in front up to width `w`. */
  function Padded(n: nat, w: nat): string {
    var digits := Digits(n);
    if |digits| < w then Zeros(w - |digits|) + digits else digits
  }

  function Pow10(w: nat): nat {
    if w == 0 then 1 else 10 * Pow10(w - 1)
  }

  lemma {:induction false} ZerosEnd(k: nat)
    ensures |Zeros(k)| == k && Zeros(k) + "0" == "0" + Zeros(k)
  {
    if k > 0 {
      ZerosEnd(k - 1);
      assert Zeros(k) + "0" == "0" + (Zeros(k - 1) + "0");
    }
  }

  /** The last digit of a padded number is its units; the rest is the padded tens. */
  lemma {:induction false} PaddedStep(n: nat, w: nat)
    requires w >= 2
    ensures Padded(n, w) == Padded(n / 10, w - 1) + [DigitOf(n % 10)]
  {
    if n < 10 {
      ZerosEnd(w - 1);
      ZerosEnd(w - 2);
      assert Zeros(w - 1) == "0" + Zeros(w - 2) == Zeros(w - 2) + "0";
    }
  }

  /** Numbers that fit the width take exactly the width. */
  lemma {:induction false} PaddedWidth(n: nat, w: nat)
    requires w >= 1 && n < Pow10(w)
    ensures |Padded(n, w)| == w && AllDigits(Padded(n, w))
  {
    if w == 1 {
      assert Pow10(1) == 10 * Pow10(0);
    } else {
      PaddedStep(n, w);
      PaddedWidth(n / 10, w - 1);
    }
  }

  /** Of two texts of one width, the one with the lesser first part is the lesser. */
  lemma {:induction false} LessBefore(a: string, b: string, c: string, d: string)
    requires |a| == |b| && StrLess(a, b)
    ensures StrLess(a + c, b + d)
  {
    var x, y := a + c, b + d;
    if a[0] == b[0] {
      assert a == [a[0]] + a[1..] && b == [b[0]] + b[1..];
      LessBefore(a[1..], b[1..], c, d);
      assert x[1..] == a[1..] + c && y[1..] == b[1..] + d;
    }
  }

  lemma {:induction false} LessAfter(a: string, c: string, d: string)
    requires StrLess(c, d)
    ensures StrLess(a + c, a + d)
  {
    if a == "" {
      assert a + c == c && a + d == d;
    } else {
      LessAfter(a[1..], c, d);
      assert (a + c)[1..] == a[1..] + c && (a + d)[1..] == a[1..] + d;
    }
  }

  lemma DigitOrder(d: nat, e: nat)
    requires d < e < 10
    ensures StrLess([DigitOf(d)], [DigitOf(e)])
  {
  }

  /** At one width, text order is number order. */
  lemma {:induction false} PaddedOrder(n: nat, m: nat, w: nat)
    requires w >= 1 && n < m < Pow10(w)
    ensures StrLess(Padded(n, w), Padded(m, w))
    decreases w, 1
  {
    if w == 1 {
      assert Pow10(1) == 10 * Pow10(0);
      DigitOrder(n, m);
    } else {
      TensFit(n, w);
      TensFit(m, w);
      PaddedOrderStep(n, m, w);
    }
  }

  lemma TensFit(n: nat, w: nat)
    requires w >= 2 && n < Pow10(w)
    ensures n / 10 < Pow10(w - 1)
  {
  }

  lemma {:induction false} PaddedOrderStep(n: nat, m: nat, w: nat)
    requires w >= 2 && n < m < Pow10(w) && n / 10 < Pow10(w - 1) && m / 10 < Pow10(w - 1)
    ensures StrLess(Padded(n, w), Padded(m, w))
    decreases w - 1, 2
  {
    hide *;
    PaddedStep(n, w);
    PaddedStep(m, w);
    PaddedWidth(n / 10, w - 1);
    PaddedWidth(m / 10, w - 1);
    if n / 10 < m / 10 {
      PaddedOrder(n / 10, m / 10, w - 1);
      LessBefore(Padded(n / 10, w - 1), Padded(m / 10, w - 1), [DigitOf(n % 10)], [DigitOf(m % 10)]);
    } else {
      DigitOrder(n % 10, m % 10);
      LessAfter(Padded(n / 10, w - 1), [DigitOf(n % 10)], [DigitOf(m % 10)]);
    }
  }

  lemma {:induction false} ValueAfterZero(s: string)
    requires AllDigits(s)
    ensures AllDigits("0" + s) && ValueOf("0" + s) == ValueOf(s)
    decreases |s|
  {
    var t := "0" + s;
    if s == "" {
      assert t[..0] == "";
    } else {
      ValueAfterZero(s[..|s| - 1]);
      assert t[..|t| - 1] == "0" + s[..|s| - 1];
    }
  }

  lemma {:induction false} ValueAfterZeros(k: nat, s: string)
    requires AllDigits(s)
    ensures AllDigits(Zeros(k) + s) && ValueOf(Zeros(k) + s) == ValueOf(s)
  {
    if k == 0 {
      assert Zeros(0) + s == s;
    } else {
      ValueAfterZeros(k - 1, s);
      assert Zeros(k) + s == "0" + (Zeros(k - 1) + s);
      hide *;
      ValueAfterZero(Zeros(k - 1) + s);
    }
  }

  /** A padded number is at least as wide as asked for, and denotes the number. */
  lemma PaddedReads(n: nat, w: nat)
    ensures |Padded(n, w)| >= w && AllDigits(Padded(n, w)) && ValueOf(Padded(n, w)) == n
  {
    ValueOfDigits(n);
    if |Digits(n)| < w {
      ZerosEnd(w - |Digits(n)|);
      ValueAfterZeros(w - |Digits(n)|, Digits(n));
    }
  }
}
