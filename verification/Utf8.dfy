/** UTF-8 (section 3 of RFC 3629), and decoding bytes that may not be UTF-8 as Rust's standard library does. */
module Utf8 {
  import opened Base64

  // ----- Encoding -----

  function EncodeChar(c: char): seq<Byte> {
    var n := c as int;
    if n < 0x80 then [n]
    else if n < 0x800 then [0xC0 + n / 0x40, 0x80 + n % 0x40]
    else if n < 0x10000 then [0xE0 + n / 0x1000, 0x80 + n / 0x40 % 0x40, 0x80 + n % 0x40]
    else [0xF0 + n / 0x40000, 0x80 + n / 0x1000 % 0x40, 0x80 + n / 0x40 % 0x40, 0x80 + n % 0x40]
  }

  function Encode(text: string): seq<Byte> {
    if text == "" then [] else EncodeChar(text[0]) + Encode(text[1..])
  }

  // ----- Lossy decoding -----

  /** How many bytes a character has whose first byte is `first`; 0 if none starts so. */
  function Width(first: Byte): nat {
    if first < 0x80 then 1
    else if 0xC2 <= first < 0xE0 then 2
    else if 0xE0 <= first < 0xF0 then 3
    else if 0xF0 <= first < 0xF5 then 4
    else 0
  }

  /** Whether `b` may be the byte at index `k` of a character that starts with `first`. */
  predicate Continues(first: Byte, k: nat, b: Byte) {
    if k == 1 && first == 0xE0 then 0xA0 <= b < 0xC0
    else if k == 1 && first == 0xED then 0x80 <= b < 0xA0
    else if k == 1 && first == 0xF0 then 0x90 <= b < 0xC0
    else if k == 1 && first == 0xF4 then 0x80 <= b < 0x90
    else 0x80 <= b < 0xC0
  }

  /** How far the character begun with the first `k` bytes goes on: up to its width, the end, or a byte that does not fit. */
  function Extent(s: seq<Byte>, k: nat): (n: nat)
    requires 0 < k <= |s|
    ensures k <= n <= |s|
    ensures n <= Width(s[0]) || n == k
    ensures forall i :: k <= i < n ==> Continues(s[0], i, s[i])
    ensures n < Width(s[0]) && n < |s| ==> !Continues(s[0], n, s[n])
    decreases |s| - k
  {
    if k < Width(s[0]) && k < |s| && Continues(s[0], k, s[k]) then Extent(s, k + 1) else k
  }

  predicate Whole(s: seq<Byte>)
    requires s != []
  {
    Extent(s, 1) == Width(s[0])
  }

  function Tail(b: Byte): (r: nat)
    requires 0x80 <= b < 0xC0
    ensures r < 0x40
  {
    b - 0x80
  }

  /** The character `s` begins with. */
  function FirstChar(s: seq<Byte>): char
    requires s != [] && Whole(s)
  {
    match Width(s[0])
    case 1 => s[0] as char
    case 2 => (0x40 * (s[0] - 0xC0) + Tail(s[1])) as char
    case 3 => (0x1000 * (s[0] - 0xE0) + 0x40 * Tail(s[1]) + Tail(s[2])) as char
    case _ => (0x40000 * (s[0] - 0xF0) + 0x1000 * Tail(s[1]) + 0x40 * Tail(s[2]) + Tail(s[3])) as char
  }

  const REPLACEMENT := '\U{FFFD}'

  /** `String::from_utf8_lossy`: each longest piece that no character could start with is one replacement character. */
  function Lossy(s: seq<Byte>): string {
    if s == [] then ""
    else [if Whole(s) then FirstChar(s) else REPLACEMENT] + Lossy(s[Extent(s, 1)..])
  }

  /** Nothing had to be replaced. */
  predicate IsUtf8(s: seq<Byte>) {
    s == [] || (Whole(s) && IsUtf8(s[Extent(s, 1)..]))
  }

  // ----- The two are inverse -----

  lemma WholePair(a: nat, b: nat, rest: seq<Byte>)
    requires 2 <= a < 0x20 && b < 0x40
    ensures var s := [0xC0 + a, 0x80 + b] + rest;
            Whole(s) && Extent(s, 1) == 2 && FirstChar(s) as int == 0x40 * a + b && s[2..] == rest
  {
    var s := [0xC0 + a, 0x80 + b] + rest;
    assert Width(s[0]) == 2 && Continues(s[0], 1, s[1]);
    assert Extent(s, 1) == Extent(s, 2);
  }

  lemma WholeTriple(a: nat, b: nat, c: nat, rest: seq<Byte>)
    requires a < 0x10 && b < 0x40 && c < 0x40
    requires (a == 0 ==> 0x20 <= b) && (a == 0xD ==> b < 0x20)
    ensures var s := [0xE0 + a, 0x80 + b, 0x80 + c] + rest;
            Whole(s) && Extent(s, 1) == 3 && FirstChar(s) as int == 0x1000 * a + 0x40 * b + c && s[3..] == rest
  {
    var s := [0xE0 + a, 0x80 + b, 0x80 + c] + rest;
    assert Width(s[0]) == 3 && Continues(s[0], 1, s[1]) && Continues(s[0], 2, s[2]);
    assert Extent(s, 1) == Extent(s, 2) == Extent(s, 3);
  }

  lemma WholeQuadruple(a: nat, b: nat, c: nat, d: nat, rest: seq<Byte>)
    requires a < 5 && b < 0x40 && c < 0x40 && d < 0x40
    requires (a == 0 ==> 0x10 <= b) && (a == 4 ==> b < 0x10)
    ensures var s := [0xF0 + a, 0x80 + b, 0x80 + c, 0x80 + d] + rest;
            Whole(s) && Extent(s, 1) == 4 &&
            FirstChar(s) as int == 0x40000 * a + 0x1000 * b + 0x40 * c + d && s[4..] == rest
  {
    var s := [0xF0 + a, 0x80 + b, 0x80 + c, 0x80 + d] + rest;
    assert Width(s[0]) == 4;
    assert Continues(s[0], 1, s[1]) && Continues(s[0], 2, s[2]) && Continues(s[0], 3, s[3]);
    assert Extent(s, 1) == Extent(s, 2) == Extent(s, 3) == Extent(s, 4);
  }

  lemma EncodedIsWhole(c: char, rest: seq<Byte>)
    ensures var s := EncodeChar(c) + rest;
            Whole(s) && FirstChar(s) == c && s[Extent(s, 1)..] == rest
  {
    var n := c as int;
    if n < 0x80 {
      assert Extent([n] + rest, 1) == 1;
    } else {
      assert n / 0x40 / 0x40 == n / 0x1000 && n / 0x1000 / 0x40 == n / 0x40000;
      hide Extent, FirstChar, Width, Continues;
      if n < 0x800 {
        WholePair(n / 0x40, n % 0x40, rest);
      } else if n < 0x10000 {
        WholeTriple(n / 0x1000, n / 0x40 % 0x40, n % 0x40, rest);
      } else {
        WholeQuadruple(n / 0x40000, n / 0x1000 % 0x40, n / 0x40 % 0x40, n % 0x40, rest);
      }
    }
  }

  /** Every text survives being encoded and decoded, and its encoding is UTF-8. */
  lemma {:induction false} DecodesEncoded(text: string)
    ensures Lossy(Encode(text)) == text && IsUtf8(Encode(text))
  {
    if text != "" {
      EncodedIsWhole(text[0], Encode(text[1..]));
      DecodesEncoded(text[1..]);
      assert text == [text[0]] + text[1..];
    }
  }

  lemma Digits(a: nat, b: nat)
    requires b < 0x40
    ensures (0x40 * a + b) / 0x40 == a && (0x40 * a + b) % 0x40 == b
  {
  }

  lemma TripleEncodes(a: nat, b: nat, c: nat)
    requires a < 0x10 && b < 0x40 && c < 0x40
    requires (a == 0 ==> 0x20 <= b) && (a == 0xD ==> b < 0x20)
    ensures EncodeChar((0x1000 * a + 0x40 * b + c) as char) == [0xE0 + a, 0x80 + b, 0x80 + c]
  {
    var n := 0x1000 * a + 0x40 * b + c;
    assert n == 0x40 * (0x40 * a + b) + c;
    Digits(0x40 * a + b, c);
    Digits(a, b);
    assert n / 0x1000 == n / 0x40 / 0x40;
  }

  lemma QuadrupleEncodes(a: nat, b: nat, c: nat, d: nat)
    requires a < 5 && b < 0x40 && c < 0x40 && d < 0x40
    requires (a == 0 ==> 0x10 <= b) && (a == 4 ==> b < 0x10)
    ensures EncodeChar((0x40000 * a + 0x1000 * b + 0x40 * c + d) as char) ==
            [0xF0 + a, 0x80 + b, 0x80 + c, 0x80 + d]
  {
    var n := 0x40000 * a + 0x1000 * b + 0x40 * c + d;
    assert n == 0x40 * (0x1000 * a + 0x40 * b + c) + d;
    Digits(0x1000 * a + 0x40 * b + c, d);
    Digits(0x40 * a + b, c);
    Digits(a, b);
    assert n / 0x1000 == n / 0x40 / 0x40 && n / 0x40000 == n / 0x1000 / 0x40;
  }

  lemma FirstCharEncodes(s: seq<Byte>)
    requires s != [] && Whole(s)
    ensures EncodeChar(FirstChar(s)) == s[..Extent(s, 1)]
  {
    var n := Extent(s, 1);
    assert n == Width(s[0]);
    assert forall i :: 0 < i < n ==> Continues(s[0], i, s[i]);
    hide Extent, Whole;
    match n
    case 1 => assert s[..1] == [s[0]];
    case 2 =>
      assert Continues(s[0], 1, s[1]) && s[..2] == [s[0], s[1]];
      Digits(s[0] - 0xC0, s[1] - 0x80);
    case 3 => TripleEncodesFirst(s);
    case _ => QuadrupleEncodesFirst(s);
  }

  lemma TripleEncodesFirst(s: seq<Byte>)
    requires s != [] && Whole(s) && Width(s[0]) == 3
    ensures EncodeChar(FirstChar(s)) == s[..3]
  {
    assert Extent(s, 1) == 3;
    assert Continues(s[0], 1, s[1]) && Continues(s[0], 2, s[2]) && s[..3] == [s[0], s[1], s[2]];
    hide Extent, Whole, EncodeChar;
    TripleEncodes(s[0] - 0xE0, s[1] - 0x80, s[2] - 0x80);
  }

  lemma QuadrupleEncodesFirst(s: seq<Byte>)
    requires s != [] && Whole(s) && Width(s[0]) == 4
    ensures EncodeChar(FirstChar(s)) == s[..4]
  {
    assert Extent(s, 1) == 4;
    assert Continues(s[0], 1, s[1]) && Continues(s[0], 2, s[2]) && Continues(s[0], 3, s[3]);
    assert s[..4] == [s[0], s[1], s[2], s[3]];
    hide Extent, Whole, EncodeChar;
    QuadrupleEncodes(s[0] - 0xF0, s[1] - 0x80, s[2] - 0x80, s[3] - 0x80);
  }

  /** Decoding and encoding gives back exactly the byte strings that are UTF-8. */
  lemma {:induction false} EncodesDecoded(s: seq<Byte>)
    ensures Encode(Lossy(s)) == s <==> IsUtf8(s)
  {
    if IsUtf8(s) {
      EncodesClean(s);
    } else {
      DecodesEncoded(Lossy(s));
    }
  }

  lemma EncodeCons(c: char, text: string)
    ensures Encode([c] + text) == EncodeChar(c) + Encode(text)
  {
    hide EncodeChar;
    assert ([c] + text)[0] == c && ([c] + text)[1..] == text;
  }

  lemma LossyUnfolds(s: seq<Byte>)
    requires s != [] && IsUtf8(s)
    ensures var n := Extent(s, 1);
            0 < n <= |s| && Whole(s) && IsUtf8(s[n..]) && Lossy(s) == [FirstChar(s)] + Lossy(s[n..])
  {
    hide Extent, FirstChar;
  }

  lemma {:induction false} EncodesClean(s: seq<Byte>)
    requires IsUtf8(s)
    ensures Encode(Lossy(s)) == s
  {
    hide Extent, FirstChar, EncodeChar, Whole;
    if s == [] {
      assert Lossy(s) == "";
    } else {
      hide *;
      var n := Extent(s, 1);
      LossyUnfolds(s);
      FirstCharEncodes(s);
      EncodesClean(s[n..]);
      EncodeCons(FirstChar(s), Lossy(s[n..]));
      assert s == s[..n] + s[n..];
    }
  }
}
