/** The base64 codecs: standard alphabet, padded (section 4 of RFC 4648). */
module Base64 {
  import opened Wrappers

  type Byte = b: int | 0 <= b < 256

  // ----- Encoding -----

  /** The standard alphabet: `A` to `Z`, `a` to `z`, `0` to `9`, `+` and `/`. */
  function Letter(sextet: nat): char
    requires sextet < 64
  {
    if sextet < 26 then ('A' as int + sextet) as char
    else if sextet < 52 then ('a' as int + (sextet - 26)) as char
    else if sextet < 62 then ('0' as int + (sextet - 52)) as char
    else if sextet == 62 then '+'
    else '/'
  }

  /** Four characters for up to three bytes; shifts and masks are written as divisions by powers of two. */
  function EncodeChunk(chunk: seq<Byte>): (text: string)
    requires 1 <= |chunk| <= 3
    ensures |text| == 4
  {
    var b0 := chunk[0];
    var b1 := if |chunk| > 1 then chunk[1] else 0;
    var b2 := if |chunk| > 2 then chunk[2] else 0;
    [Letter(b0 / 4),
     Letter(b0 % 4 * 16 + b1 / 16),
     if |chunk| > 1 then Letter(b1 % 16 * 4 + b2 / 64) else '=',
     if |chunk| > 2 then Letter(b2 % 64) else '=']
  }

  function Encode(bytes: seq<Byte>): string {
    if |bytes| == 0 then ""
    else if |bytes| <= 3 then EncodeChunk(bytes)
    else EncodeChunk(bytes[..3]) + Encode(bytes[3..])
  }

  /** The characters of a chunk, with the bytes it may not have. */
  lemma ChunkChars(chunk: seq<Byte>, b1: Option<Byte>, b2: Option<Byte>)
    requires 1 <= |chunk| <= 3
    requires b1 == (if |chunk| > 1 then Some(chunk[1]) else None) && b2 == (if |chunk| > 2 then Some(chunk[2]) else None)
    ensures EncodeChunk(chunk) ==
            [Letter(chunk[0] / 4)] + [Letter(chunk[0] % 4 * 16 + (if b1.Some? then b1.value else 0) / 16)] +
            [match b1
             case Some(b) => Letter(b % 16 * 4 + (if b2.Some? then b2.value else 0) / 64)
             case None => '='] +
            [match b2 case Some(b) => Letter(b % 64) case None => '=']
  {
    hide Letter;
  }

  /** The artifact store's encoder. */
  method EncodePayload(bytes: seq<Byte>) returns (out: string)
    ensures out == Encode(bytes)
  {
    hide Letter, Encode, EncodeChunk;
    out := "";
    var i := 0;
    assert out + Encode(bytes[0..]) == Encode(bytes) by { assert bytes[0..] == bytes; }
    assert Encode(bytes[|bytes|..]) == "" by { NothingLeft(bytes); }
    while i < |bytes|
      invariant 0 <= i <= |bytes| && out + Encode(bytes[i..]) == Encode(bytes)
    {
      var chunk := if i + 3 <= |bytes| then bytes[i..i + 3] else bytes[i..];
      ghost var before := out;
      var b1 := if |chunk| > 1 then Some(chunk[1]) else None;
      var b2 := if |chunk| > 2 then Some(chunk[2]) else None;
      out := out + [Letter(chunk[0] / 4)];
      out := out + [Letter(chunk[0] % 4 * 16 + (if b1.Some? then b1.value else 0) / 16)];
      out := out + [match b1
                    case Some(b) => Letter(b % 16 * 4 + (if b2.Some? then b2.value else 0) / 64)
                    case None => '='];
      out := out + [match b2 case Some(b) => Letter(b % 64) case None => '='];
      assert out == before + EncodeChunk(chunk) by { ChunkChars(chunk, b1, b2); }
      ChunkStep(bytes, i, chunk, before, out);
      i := i + |chunk|;
    }
  }

  /** The request headers' encoder. */
  method EncodeHeader(bytes: seq<Byte>) returns (out: string)
    ensures out == Encode(bytes)
  {
    hide Letter, Encode;
    out := "";
    var i := 0;
    assert out + Encode(bytes[0..]) == Encode(bytes) by { assert bytes[0..] == bytes; }
    assert Encode(bytes[|bytes|..]) == "" by { NothingLeft(bytes); }
    while i < |bytes|
      invariant 0 <= i <= |bytes| && out + Encode(bytes[i..]) == Encode(bytes)
    {
      var chunk := if i + 3 <= |bytes| then bytes[i..i + 3] else bytes[i..];
      ghost var before := out;
      out := out + [Letter(chunk[0] / 4)];
      out := out + [Letter(chunk[0] % 4 * 16 + (if |chunk| > 1 then chunk[1] else 0) / 16)];
      if |chunk| > 1 {
        out := out + [Letter(chunk[1] % 16 * 4 + (if |chunk| > 2 then chunk[2] else 0) / 64)];
      } else {
        out := out + ['='];
      }
      if |chunk| > 2 {
        out := out + [Letter(chunk[2] % 64)];
      } else {
        out := out + ['='];
      }
      assert out == before + EncodeChunk(chunk);
      ChunkStep(bytes, i, chunk, before, out);
      i := i + |chunk|;
    }
  }

  lemma EncodeStep(bytes: seq<Byte>)
    requires bytes != []
    ensures var n := if |bytes| < 3 then |bytes| else 3;
            Encode(bytes) == EncodeChunk(bytes[..n]) + Encode(bytes[n..])
  {
    hide EncodeChunk;
    if |bytes| <= 3 {
      assert bytes[..|bytes|] == bytes && bytes[|bytes|..] == [];
      assert EncodeChunk(bytes) + "" == EncodeChunk(bytes);
    }
  }

  lemma NothingLeft(bytes: seq<Byte>)
    ensures Encode(bytes[|bytes|..]) == ""
  {
  }

  /** Adding the text of the next chunk moves the encoders' invariant on. */
  lemma ChunkStep(bytes: seq<Byte>, i: nat, chunk: seq<Byte>, before: string, after: string)
    requires i < |bytes| && chunk == if i + 3 <= |bytes| then bytes[i..i + 3] else bytes[i..]
    requires before + Encode(bytes[i..]) == Encode(bytes) && after == before + EncodeChunk(chunk)
    ensures after + Encode(bytes[i + |chunk|..]) == Encode(bytes)
  {
    hide *;
    var left := bytes[i..];
    EncodeStep(left);
    assert left[..|chunk|] == chunk && left[|chunk|..] == bytes[i + |chunk|..];
    Regroup(before, EncodeChunk(chunk), Encode(bytes[i + |chunk|..]));
  }

  lemma Regroup(a: string, b: string, c: string)
    ensures a + (b + c) == a + b + c
  {
  }

  // ----- Decoding -----

  function DecodeValue(c: char): Option<nat> {
    if 'A' <= c <= 'Z' then Some(c as int - 'A' as int)
    else if 'a' <= c <= 'z' then Some(c as int - 'a' as int + 26)
    else if '0' <= c <= '9' then Some(c as int - '0' as int + 52)
    else if c == '+' then Some(62)
    else if c == '/' then Some(63)
    else None
  }

  /** One past the greatest `u32`. */
  const U32_LIMIT := 0x1_0000_0000

  /** The pending bits come in pairs, since six are added and eight taken at a time. */
  type Pending = k: int | k == 0 || k == 2 || k == 4 || k == 6

  /** `x >> bits`. */
  function ShiftRight(x: nat, bits: Pending): nat {
    if bits == 0 then x else if bits == 2 then x / 4 else if bits == 4 then x / 16 else x / 64
  }

  /** The lowest `bits` bits of `x`. */
  function Low(x: nat, bits: Pending): nat {
    if bits == 0 then 0 else if bits == 2 then x % 4 else if bits == 4 then x % 16 else x % 64
  }

  /** `(buffer << 6) | value` in 32 bits: what is shifted out at the top is lost. */
  function Shift(buffer: nat, value: nat): nat {
    (64 * buffer + value) % U32_LIMIT
  }

  /** `(buffer >> bits) as u8`. */
  function Take(buffer: nat, bits: Pending): Byte {
    ShiftRight(buffer, bits) % 256
  }

  /** What the decoder adds to its output for `s` when `bits` bits of `buffer` are still pending. */
  function DecodeFrom(s: string, buffer: nat, bits: Pending): Option<seq<Byte>> {
    if s == "" || s[0] == '=' then Some([])
    else
      match DecodeValue(s[0])
      case None => None
      case Some(value) =>
        var buffer' := Shift(buffer, value);
        if bits == 0 then DecodeFrom(s[1..], buffer', 6)
        else
          match DecodeFrom(s[1..], buffer', bits - 2)
          case None => None
          case Some(rest) => Some([Take(buffer', bits - 2)] + rest)
  }

  function Prepend(bytes: seq<Byte>, rest: Option<seq<Byte>>): Option<seq<Byte>> {
    match rest case None => None case Some(more) => Some(bytes + more)
  }

  lemma PrependTwice(a: seq<Byte>, b: seq<Byte>, rest: Option<seq<Byte>>)
    ensures Prepend(a, Prepend(b, rest)) == Prepend(a + b, rest)
  {
    assert rest.Some? ==> a + (b + rest.value) == a + b + rest.value;
  }

  lemma PrependNone(rest: Option<seq<Byte>>)
    ensures Prepend([], rest) == rest
  {
    assert rest.Some? ==> [] + rest.value == rest.value;
  }

  /** What a step of the loop leaves to do. */
  lemma DecodeMore(bytes: seq<Byte>, data: string, i: nat, buffer: nat, bits: Pending)
    requires i < |data| && data[i] != '='
    ensures var now := Prepend(bytes, DecodeFrom(data[i..], buffer, bits));
            match DecodeValue(data[i])
            case None => now == None
            case Some(value) =>
              var buffer' := Shift(buffer, value);
              now == if bits == 0 then Prepend(bytes, DecodeFrom(data[i + 1..], buffer', 6))
                     else Prepend(bytes + [Take(buffer', bits - 2)], DecodeFrom(data[i + 1..], buffer', bits - 2))
  {
    hide Shift, Take;
    assert data[i..][1..] == data[i + 1..];
    if DecodeValue(data[i]).Some? && bits != 0 {
      var buffer' := Shift(buffer, DecodeValue(data[i]).value);
      PrependTwice(bytes, [Take(buffer', bits - 2)], DecodeFrom(data[i + 1..], buffer', bits - 2));
    }
  }

  lemma DecodeDone(bytes: seq<Byte>, data: string, i: nat, buffer: nat, bits: Pending)
    requires i == |data| || (i < |data| && data[i] == '=')
    ensures Prepend(bytes, DecodeFrom(data[i..], buffer, bits)) == Some(bytes)
  {
    assert bytes + [] == bytes;
  }

  method Decode(data: string) returns (r: Option<seq<Byte>>)
    ensures r == DecodeFrom(data, 0, 0)
  {
    hide DecodeFrom, Shift, Take, DecodeValue;
    var bytes: seq<Byte> := [];
    var buffer, bits := 0, 0;
    var i := 0;
    assert data[0..] == data;
    PrependNone(DecodeFrom(data, 0, 0));
    while i < |data|
      invariant 0 <= i <= |data| && (bits == 0 || bits == 2 || bits == 4 || bits == 6)
      invariant DecodeFrom(data, 0, 0) == Prepend(bytes, DecodeFrom(data[i..], buffer, bits))
    {
      if data[i] == '=' {
        DecodeDone(bytes, data, i, buffer, bits);
        return Some(bytes);
      }
      DecodeMore(bytes, data, i, buffer, bits);
      var value := DecodeValue(data[i]);
      if value.None? {
        return None;
      }
      buffer := Shift(buffer, value.value);
      bits := bits + 6;
      if bits >= 8 {
        bits := bits - 8;
        bytes := bytes + [Take(buffer, bits)];
      }
      i := i + 1;
    }
    DecodeDone(bytes, data, i, buffer, bits);
    return Some(bytes);
  }

  // ----- The alphabet -----

  /** The alphabet's letters are the ones that decode, each to its own position. */
  lemma AlphabetDecodes(sextet: nat, c: char)
    requires sextet < 64
    ensures DecodeValue(c) == Some(sextet) <==> c == Letter(sextet)
    ensures Letter(sextet) != '='
  {
  }

  // ----- Encoding keeps the bits -----

  function ByteAt(chunk: seq<Byte>, i: nat): int {
    if i < |chunk| then chunk[i] else 0
  }

  /** Four sextets that spell 24 bits. */
  predicate Spell(x: nat, y: nat, z: nat, w: nat, bits: int) {
    x < 64 && y < 64 && z < 64 && w < 64 && 262_144 * x + 4096 * y + 64 * z + w == bits
  }

  /** A chunk's characters spell its 24 bits, six at a time; bytes that are missing count as zero. */
  lemma ChunkBits(chunk: seq<Byte>) returns (x: nat, y: nat, z: nat, w: nat)
    requires 1 <= |chunk| <= 3
    ensures Spell(x, y, z, w, 65_536 * ByteAt(chunk, 0) + 256 * ByteAt(chunk, 1) + ByteAt(chunk, 2))
    ensures EncodeChunk(chunk) ==
            [Letter(x), Letter(y), if |chunk| > 1 then Letter(z) else '=', if |chunk| > 2 then Letter(w) else '=']
  {
    hide Letter;
    var b0, b1, b2 := ByteAt(chunk, 0), ByteAt(chunk, 1), ByteAt(chunk, 2);
    x, y, z, w := b0 / 4, b0 % 4 * 16 + b1 / 16, b1 % 16 * 4 + b2 / 64, b2 % 64;
  }

  /** Four characters for every three bytes begun. */
  lemma {:induction false} EncodedLength(bytes: seq<Byte>)
    ensures |Encode(bytes)| == 4 * ((|bytes| + 2) / 3)
  {
    hide EncodeChunk;
    if |bytes| > 3 {
      EncodedLength(bytes[3..]);
    }
  }

  // ----- The shift register -----

  /** The decoder with an unbounded register that holds the pending bits and nothing else. */
  function DecodePending(s: string, low: nat, bits: Pending): Option<seq<Byte>>
    decreases s, 0
  {
    if s == "" || s[0] == '=' then Some([])
    else
      match DecodeValue(s[0])
      case None => None
      case Some(value) => DecodeStep(s[1..], 64 * low + value, bits)
  }

  /** What becomes of the pending bits once six more have arrived. */
  function DecodeStep(rest: string, all: nat, bits: Pending): Option<seq<Byte>>
    decreases rest, 1
  {
    if bits == 0 then DecodePending(rest, all, 6)
    else Prepend([Take(all, bits - 2)], DecodePending(rest, Low(all, bits - 2), bits - 2))
  }

  lemma Multiples(n: nat, r: nat)
    ensures (64 * n + r) % 64 == r % 64
    ensures (256 * n + r) % 256 == r % 256
  {
    assert 64 * n + r == 64 * (n + r / 64) + r % 64;
    assert 256 * n + r == 256 * (n + r / 256) + r % 256;
  }

  lemma BigMultiples(n: nat, r: nat)
    ensures (1024 * n + r) % 1024 == r % 1024
    ensures (4096 * n + r) % 4096 == r % 4096
  {
    assert 1024 * n + r == 1024 * (n + r / 1024) + r % 1024;
    assert 4096 * n + r == 4096 * (n + r / 4096) + r % 4096;
  }

  /** 2^32 is a multiple of every power of two that matters. */
  lemma WrapsEvenly(x: nat)
    ensures x % U32_LIMIT % 64 == x % 64 && x % U32_LIMIT % 256 == x % 256
    ensures x % U32_LIMIT % 1024 == x % 1024 && x % U32_LIMIT % 4096 == x % 4096
  {
    var k, r := x / U32_LIMIT, x % U32_LIMIT;
    assert x == 0x1_0000_0000 * k + r;
    Multiples(0x400_0000 * k, r);
    Multiples(0x100_0000 * k, r);
    BigMultiples(0x40_0000 * k, r);
    BigMultiples(0x10_0000 * k, r);
    assert x == 64 * (0x400_0000 * k) + r && x == 256 * (0x100_0000 * k) + r;
    assert x == 1024 * (0x40_0000 * k) + r && x == 4096 * (0x10_0000 * k) + r;
  }

  lemma ShiftFrom0(buffer: nat, value: nat)
    requires value < 64
    ensures Shift(buffer, value) % 64 == value
  {
    WrapsEvenly(64 * buffer + value);
    Multiples(buffer, value);
  }

  lemma Remainder256(buffer: nat, value: nat)
    requires value < 64
    ensures (64 * buffer + value) % 256 == 64 * (buffer % 4) + value
  {
    var q, r := buffer / 4, buffer % 4;
    assert 64 * buffer + value == 256 * q + (64 * r + value);
  }

  lemma Remainder1024(buffer: nat, value: nat)
    requires value < 64
    ensures (64 * buffer + value) % 1024 == 64 * (buffer % 16) + value
  {
    var q, r := buffer / 16, buffer % 16;
    assert 64 * buffer + value == 1024 * q + (64 * r + value);
  }

  lemma Remainder4096(buffer: nat, value: nat)
    requires value < 64
    ensures (64 * buffer + value) % 4096 == 64 * (buffer % 64) + value
  {
    var q, r := buffer / 64, buffer % 64;
    assert 64 * buffer + value == 4096 * q + (64 * r + value);
  }

  lemma TopOf256(all: nat)
    requires all < 256
    ensures all % 256 == all
  {
  }

  lemma TopOf1024(x: nat)
    ensures x / 4 % 256 == x % 1024 / 4 && x % 4 == x % 1024 % 4
  {
    var q, r := x / 1024, x % 1024;
    assert x == 4 * (256 * q) + r;
    assert x / 4 == 256 * q + r / 4;
  }

  lemma TopOf4096(x: nat)
    ensures x / 16 % 256 == x % 4096 / 16 && x % 16 == x % 4096 % 16
  {
    var q, r := x / 4096, x % 4096;
    assert x == 16 * (256 * q) + r;
    assert x / 16 == 256 * q + r / 16;
  }

  lemma Shift2(buffer: nat, value: nat)
    requires value < 64
    ensures Shift(buffer, value) % 256 == 64 * (buffer % 4) + value
  {
    WrapsEvenly(64 * buffer + value);
    Remainder256(buffer, value);
  }

  lemma Shift4(buffer: nat, value: nat)
    requires value < 64
    ensures Shift(buffer, value) % 1024 == 64 * (buffer % 16) + value
  {
    WrapsEvenly(64 * buffer + value);
    Remainder1024(buffer, value);
  }

  lemma Shift6(buffer: nat, value: nat)
    requires value < 64
    ensures Shift(buffer, value) % 4096 == 64 * (buffer % 64) + value
  {
    WrapsEvenly(64 * buffer + value);
    Remainder4096(buffer, value);
  }

  /** The byte on top of the `bits + 6` lowest bits, and the bits below it. */
  lemma TopByte(x: nat, all: nat, bits: Pending)
    requires bits == 2 ==> x % 256 == all < 256
    requires bits == 4 ==> x % 1024 == all < 1024
    requires bits == 6 ==> x % 4096 == all < 4096
    requires bits != 0
    ensures Take(x, bits - 2) == Take(all, bits - 2) && Low(x, bits - 2) == Low(all, bits - 2)
  {
    if bits == 2 {
      TopOf256(all);
    } else if bits == 4 {
      TopOf1024(x);
      TopOf1024(all);
    } else {
      TopOf4096(x);
      TopOf4096(all);
    }
  }

  /** After a shift, the byte taken and the bits left depend on the bits that were pending alone. */
  lemma ShiftKeeps(buffer: nat, value: nat, bits: Pending)
    requires value < 64
    ensures bits == 0 ==> Low(Shift(buffer, value), 6) == 64 * Low(buffer, 0) + value
    ensures bits != 0 ==>
              var all := 64 * Low(buffer, bits) + value;
              Take(Shift(buffer, value), bits - 2) == Take(all, bits - 2) &&
              Low(Shift(buffer, value), bits - 2) == Low(all, bits - 2)
  {
    if bits == 0 {
      ShiftFrom0(buffer, value);
    } else {
      Shift2(buffer, value);
      Shift4(buffer, value);
      Shift6(buffer, value);
      hide Shift, Take;
      TopByte(Shift(buffer, value), 64 * Low(buffer, bits) + value, bits);
    }
  }

  /** Wrapping at 32 bits changes nothing: the register only has to hold the pending bits. */
  lemma {:induction false} WrappingIsHarmless(s: string, buffer: nat, bits: Pending)
    ensures DecodeFrom(s, buffer, bits) == DecodePending(s, Low(buffer, bits), bits)
  {
    if s != "" && s[0] != '=' && DecodeValue(s[0]).Some? {
      var value := DecodeValue(s[0]).value;
      var buffer' := Shift(buffer, value);
      ShiftKeeps(buffer, value, bits);
      if bits == 0 {
        WrappingIsHarmless(s[1..], buffer', 6);
      } else {
        WrappingIsHarmless(s[1..], buffer', bits - 2);
      }
    }
  }

  // ----- Round trip -----

  lemma DecodeLetter(value: nat, s: string, low: nat, bits: Pending)
    requires value < 64
    ensures DecodePending([Letter(value)] + s, low, bits) == DecodeStep(s, 64 * low + value, bits)
  {
    AlphabetDecodes(value, Letter(value));
    assert ([Letter(value)] + s)[1..] == s;
  }

  lemma FirstByte(b0: Byte, next: nat)
    requires next < 16
    ensures var all := 64 * (b0 / 4) + (b0 % 4 * 16 + next);
            Take(all, 4) == b0 && Low(all, 4) == next
  {
    var all := 64 * (b0 / 4) + (b0 % 4 * 16 + next);
    assert all == 16 * b0 + next;
    assert all / 16 == b0;
  }

  lemma SecondByte(b1: Byte, next: nat)
    requires next < 4
    ensures var all := 64 * (b1 / 16) + (b1 % 16 * 4 + next);
            Take(all, 2) == b1 && Low(all, 2) == next
  {
    var all := 64 * (b1 / 16) + (b1 % 16 * 4 + next);
    assert all == 4 * b1 + next;
    assert all / 4 == b1;
  }

  lemma ThirdByte(b2: Byte)
    ensures Take(64 * (b2 / 64) + b2 % 64, 0) == b2
  {
  }

  /** The first two characters of a chunk give its first byte, and leave the rest of the second character. */
  lemma DecodeFirst(b0: Byte, next: nat, rest: string)
    requires next < 16
    ensures DecodePending([Letter(b0 / 4)] + ([Letter(b0 % 4 * 16 + next)] + rest), 0, 0) ==
            Prepend([b0], DecodePending(rest, next, 4))
  {
    hide Letter, Take, Low, DecodePending;
    var x, y := b0 / 4, b0 % 4 * 16 + next;
    DecodeLetter(x, [Letter(y)] + rest, 0, 0);
    DecodeLetter(y, rest, x, 6);
    FirstByte(b0, next);
  }

  lemma DecodeSecond(b1: Byte, next: nat, rest: string)
    requires next < 4
    ensures DecodePending([Letter(b1 % 16 * 4 + next)] + rest, b1 / 16, 4) ==
            Prepend([b1], DecodePending(rest, next, 2))
  {
    hide Letter, Take, Low, DecodePending;
    DecodeLetter(b1 % 16 * 4 + next, rest, b1 / 16, 4);
    SecondByte(b1, next);
  }

  lemma DecodeThird(b2: Byte, rest: string)
    ensures DecodePending([Letter(b2 % 64)] + rest, b2 / 64, 2) == Prepend([b2], DecodePending(rest, 0, 0))
  {
    hide Letter, Take, DecodePending;
    DecodeLetter(b2 % 64, rest, b2 / 64, 2);
    ThirdByte(b2);
  }

  lemma PaddingStops(rest: string, low: nat, bits: Pending)
    ensures DecodePending(['='] + rest, low, bits) == Some([])
  {
  }

  lemma DecodeFull(b0: Byte, b1: Byte, b2: Byte, rest: string)
    ensures DecodePending(EncodeChunk([b0, b1, b2]) + rest, 0, 0) ==
            Prepend([b0, b1, b2], DecodePending(rest, 0, 0))
  {
    var text := EncodeChunk([b0, b1, b2]);
    var r3 := [text[3]] + rest;
    var r2 := [text[2]] + r3;
    assert text + rest == [text[0]] + ([text[1]] + r2);
    hide Letter, DecodePending;
    DecodeFirst(b0, b1 / 16, r2);
    DecodeSecond(b1, b2 / 64, r3);
    DecodeThird(b2, rest);
    PrependTwice([b1], [b2], DecodePending(rest, 0, 0));
    PrependTwice([b0], [b1] + [b2], DecodePending(rest, 0, 0));
    assert [b0, b1, b2] == [b0] + ([b1] + [b2]);
  }

  lemma DecodePair(b0: Byte, b1: Byte, rest: string)
    ensures DecodePending(EncodeChunk([b0, b1]) + rest, 0, 0) == Some([b0, b1])
  {
    var text := EncodeChunk([b0, b1]);
    var r3 := ['='] + rest;
    var r2 := [text[2]] + r3;
    assert text + rest == [text[0]] + ([text[1]] + r2);
    hide Letter, DecodePending;
    DecodeFirst(b0, b1 / 16, r2);
    DecodeSecond(b1, 0, r3);
    PaddingStops(rest, 0, 2);
    assert [b0, b1] == [b0] + ([b1] + []);
  }

  lemma DecodeSingle(b0: Byte, rest: string)
    ensures DecodePending(EncodeChunk([b0]) + rest, 0, 0) == Some([b0])
  {
    var text := EncodeChunk([b0]);
    var r2 := ['='] + (['='] + rest);
    assert text + rest == [text[0]] + ([text[1]] + r2);
    hide Letter, DecodePending;
    DecodeFirst(b0, 0, r2);
    PaddingStops(['='] + rest, 0, 4);
    assert [b0] == [b0] + [];
  }

  /** A chunk decodes to its bytes; the text after it matters only if the chunk is full. */
  lemma DecodeChunk(chunk: seq<Byte>, rest: string)
    requires 1 <= |chunk| <= 3
    ensures DecodePending(EncodeChunk(chunk) + rest, 0, 0) ==
            if |chunk| == 3 then Prepend(chunk, DecodePending(rest, 0, 0)) else Some(chunk)
  {
    hide *;
    if |chunk| == 1 {
      assert chunk == [chunk[0]];
      DecodeSingle(chunk[0], rest);
    } else if |chunk| == 2 {
      assert chunk == [chunk[0], chunk[1]];
      DecodePair(chunk[0], chunk[1], rest);
    } else {
      assert chunk == [chunk[0], chunk[1], chunk[2]];
      DecodeFull(chunk[0], chunk[1], chunk[2], rest);
    }
  }

  lemma {:induction false} EncodedDecodes(bytes: seq<Byte>)
    ensures DecodePending(Encode(bytes), 0, 0) == Some(bytes)
  {
    if |bytes| == 0 {
    } else if |bytes| <= 3 {
      DecodeChunk(bytes, "");
      assert EncodeChunk(bytes) + "" == EncodeChunk(bytes);
      assert bytes + [] == bytes;
    } else {
      EncodedDecodes(bytes[3..]);
      DecodeChunk(bytes[..3], Encode(bytes[3..]));
      assert bytes == bytes[..3] + bytes[3..];
    }
  }

  /** Decoding an encoding gives the bytes back, for every sequence of bytes. */
  lemma RoundTrip(bytes: seq<Byte>)
    ensures DecodeFrom(Encode(bytes), 0, 0) == Some(bytes)
  {
    WrappingIsHarmless(Encode(bytes), 0, 0);
    EncodedDecodes(bytes);
  }

  /** The characters before the padding. */
  function Body(s: string): string {
    if s == "" || s[0] == '=' then "" else [s[0]] + Body(s[1..])
  }

  /** They are all the characters up to the first `=`, or to the end. */
  lemma {:induction false} BodyExact(s: string)
    ensures Body(s) <= s && '=' !in Body(s) && (|Body(s)| < |s| ==> s[|Body(s)|] == '=')
  {
    if s != "" && s[0] != '=' {
      BodyExact(s[1..]);
    }
  }

  /**
   * The decoder accepts a text exactly when everything before its first `=` is in the alphabet, and
   * gives one byte for every eight bits of it.
   */
  lemma {:induction false} DecodesWhat(s: string, buffer: nat, bits: Pending)
    ensures var r := DecodeFrom(s, buffer, bits);
            (r.Some? <==> forall i :: 0 <= i < |Body(s)| ==> DecodeValue(Body(s)[i]).Some?) &&
            (r.Some? ==> |r.value| == (bits + 6 * |Body(s)|) / 8)
  {
    if s != "" && s[0] != '=' {
      var body := Body(s);
      assert body[1..] == Body(s[1..]) && body[0] == s[0];
      if DecodeValue(s[0]).Some? {
        var buffer' := Shift(buffer, DecodeValue(s[0]).value);
        DecodesWhat(s[1..], buffer', if bits == 0 then 6 else bits - 2);
        assert forall i :: 0 <= i < |Body(s[1..])| ==> Body(s[1..])[i] == body[i + 1];
        var rest := Body(s[1..]);
        assert (forall i :: 0 <= i < |rest| ==> DecodeValue(rest[i]).Some?) ==>
               forall i :: 0 <= i < |body| ==> DecodeValue(body[i]).Some? by {
          assert forall i :: 0 < i < |body| ==> body[i] == rest[i - 1];
        }
      }
    }
  }

  lemma UpperLetter(i: nat)
    requires i < 26
    ensures Letter(i) == "ABCDEFGHIJKLMNOPQRSTUVWXYZ"[i]
  {
  }

  lemma LowerLetter(i: nat)
    requires i < 26
    ensures Letter(26 + i) == "abcdefghijklmnopqrstuvwxyz"[i]
  {
  }

  lemma OtherLetter(i: nat)
    requires i < 12
    ensures Letter(52 + i) == "0123456789+/"[i]
  {
  }

  /** The letters are those of table 1 in section 4 of RFC 4648, in its order. */
  lemma TheAlphabet(sextet: nat)
    requires sextet < 64
    ensures var table := "ABCDEFGHIJKLMNOPQRSTUVWXYZ" + ("abcdefghijklmnopqrstuvwxyz" + "0123456789+/");
            |table| == 64 && Letter(sextet) == table[sextet]
  {
    if sextet < 26 {
      UpperLetter(sextet);
    } else if sextet < 52 {
      LowerLetter(sextet - 26);
    } else {
      OtherLetter(sextet - 52);
    }
  }

  // ----- What any accepted text decodes to -----

  /** The position in the alphabet of the `i`-th character before the padding. */
  function SextetAt(s: string, i: nat): nat {
    if i < |Body(s)| && DecodeValue(Body(s)[i]).Some? then DecodeValue(Body(s)[i]).value else 0
  }

  /** The eight bits that begin at bit `8 * j` of the sextets. */
  function OctetAt(s: string, j: nat): nat {
    var q := j / 3 * 4;
    if j % 3 == 0 then 4 * SextetAt(s, q) + SextetAt(s, q + 1) / 16
    else if j % 3 == 1 then SextetAt(s, q + 1) % 16 * 16 + SextetAt(s, q + 2) / 4
    else SextetAt(s, q + 2) % 4 * 64 + SextetAt(s, q + 3)
  }

  lemma BodyShifts(s: string, i: nat)
    requires s != "" && s[0] != '='
    ensures SextetAt(s, i + 1) == SextetAt(s[1..], i)
    ensures DecodeValue(s[0]).Some? ==> SextetAt(s, 0) == DecodeValue(s[0]).value
  {
    assert Body(s) == [s[0]] + Body(s[1..]);
  }

  lemma SmallSextet(s: string, i: nat)
    ensures SextetAt(s, i) < 64
  {
    hide Body;
  }

  /** One character more: the register takes it in, and gives a byte off if it has one. */
  lemma PendingStep(s: string, low: nat, bits: Pending)
    requires DecodePending(s, low, bits).Some? && DecodePending(s, low, bits).value != []
    ensures s != "" && s[0] != '='
    ensures var all := 64 * low + SextetAt(s, 0);
            if bits == 0 then DecodePending(s, low, bits) == DecodePending(s[1..], all, 6)
            else
              DecodePending(s[1..], Low(all, bits - 2), bits - 2).Some? &&
              DecodePending(s, low, bits).value ==
              [Take(all, bits - 2)] + DecodePending(s[1..], Low(all, bits - 2), bits - 2).value
  {
    BodyShifts(s, 0);
    hide Take, Low, Body, SextetAt;
  }

  lemma FirstOctet(x: nat, y: nat)
    requires x < 64 && y < 64
    ensures Take(64 * x + y, 4) == 4 * x + y / 16 && Low(64 * x + y, 4) == y % 16
  {
    assert 64 * x + y == 16 * (4 * x + y / 16) + y % 16;
    assert (64 * x + y) / 16 == 4 * x + y / 16;
  }

  lemma SecondOctet(y: nat, z: nat)
    requires y < 16 && z < 64
    ensures Take(64 * y + z, 2) == 16 * y + z / 4 && Low(64 * y + z, 2) == z % 4
  {
    assert 64 * y + z == 4 * (16 * y + z / 4) + z % 4;
    assert (64 * y + z) / 4 == 16 * y + z / 4;
  }

  /** Where the bytes of a text come from: the first three from its first four characters. */
  lemma DecodeThree(s: string, j: nat)
    requires DecodePending(s, 0, 0).Some? && j < |DecodePending(s, 0, 0).value|
    ensures if j < 3 then DecodePending(s, 0, 0).value[j] == OctetAt(s, j)
            else
              |s| >= 4 && '=' !in s[..4] && DecodePending(s[4..], 0, 0).Some? &&
              j - 3 < |DecodePending(s[4..], 0, 0).value| &&
              DecodePending(s, 0, 0).value[j] == DecodePending(s[4..], 0, 0).value[j - 3]
  {
    hide DecodePending, Body, SextetAt, Take, Low, DecodeValue;
    PendingStep(s, 0, 0);
    var s1, x := s[1..], SextetAt(s, 0);
    PendingStep(s1, x, 6);
    BodyShifts(s, 0);
    var s2, y := s1[1..], SextetAt(s, 1);
    SmallSextet(s, 0);
    SmallSextet(s, 1);
    FirstOctet(x, y);
    if j >= 1 {
      PendingStep(s2, y % 16, 4);
      BodyShifts(s, 1);
      BodyShifts(s1, 0);
      var s3, z := s2[1..], SextetAt(s, 2);
      SmallSextet(s, 2);
      SecondOctet(y % 16, z);
      if j >= 2 {
        PendingStep(s3, z % 4, 2);
        BodyShifts(s, 2);
        BodyShifts(s1, 1);
        BodyShifts(s2, 0);
        SmallSextet(s, 3);
        ThirdOctet(z % 4, SextetAt(s, 3));
        assert s3[1..] == s[4..] && s[..4] == [s[0], s1[0], s2[0], s3[0]];
      }
    }
  }

  lemma ThirdOctet(z: nat, w: nat)
    requires z < 4 && w < 64
    ensures Take(64 * z + w, 0) == 64 * z + w && Low(64 * z + w, 0) == 0
  {
  }

  lemma OctetShifts(s: string, j: nat)
    requires |s| >= 4 && '=' !in s[..4] && j >= 3
    ensures OctetAt(s, j) == OctetAt(s[4..], j - 3)
  {
    hide SextetAt;
    forall i: nat ensures SextetAt(s, i + 4) == SextetAt(s[4..], i) {
      assert s[..4][0] == s[0] && s[..4][1] == s[1] && s[..4][2] == s[2] && s[..4][3] == s[3];
      BodyShifts(s, i + 3);
      BodyShifts(s[1..], i + 2);
      BodyShifts(s[2..], i + 1);
      BodyShifts(s[3..], i);
      assert s[1..][1..] == s[2..] && s[2..][1..] == s[3..] && s[3..][1..] == s[4..];
    }
    assert j / 3 * 4 == (j - 3) / 3 * 4 + 4 && j % 3 == (j - 3) % 3;
  }

  /** Byte `j` of what a text decodes to, padded or not: the eight bits of its characters from bit `8 * j` on. */
  lemma {:induction false} DecodedBytes(s: string, j: nat)
    requires DecodeFrom(s, 0, 0).Some? && j < |DecodeFrom(s, 0, 0).value|
    ensures DecodeFrom(s, 0, 0).value[j] == OctetAt(s, j)
  {
    WrappingIsHarmless(s, 0, 0);
    PendingBytes(s, j);
  }

  lemma {:induction false} PendingBytes(s: string, j: nat)
    requires DecodePending(s, 0, 0).Some? && j < |DecodePending(s, 0, 0).value|
    ensures DecodePending(s, 0, 0).value[j] == OctetAt(s, j)
    decreases |s|
  {
    hide DecodePending, OctetAt;
    DecodeThree(s, j);
    if j >= 3 {
      PendingBytes(s[4..], j - 3);
      OctetShifts(s, j);
    }
  }
}
