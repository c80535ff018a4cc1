/** Hex text as a byte stream and SCALE compact integers: src/scale.cpp. */
module Scale {
  import opened Common
  import opened Numerals

  datatype Result<+T> = Success(value: T) | Failure {
    predicate IsFailure() { Failure? }
    function PropagateFailure<U>(): Result<U>
      requires Failure?
    {
      Failure
    }
    function Extract(): T
      requires Success?
    {
      value
    }
  }

  // ---------------------------------------------------------------- hex text

  predicate IsHexDigit(c: char) { '0' <= c <= '9' || 'a' <= c <= 'f' || 'A' <= c <= 'F' }

  function HexValue(c: char): (v: nat)
    requires IsHexDigit(c)
    ensures v < 16
  {
    if '0' <= c <= '9' then c as int - '0' as int
    else if 'a' <= c <= 'f' then c as int - 'a' as int + 10
    else c as int - 'A' as int + 10
  }

  predicate IsSpace(c: char) { c in {' ', '\t', '\n', '\r', 11 as char, 12 as char} }

  /** stoul(text, nullptr, 16) on two characters, cut down to a byte: white space and a sign may come first,
      and what follows the digits is ignored. */
  function StoulByte(a: char, b: char): Result<byte> {
    if IsHexDigit(a) then
      if IsHexDigit(b) then Success(16 * HexValue(a) + HexValue(b)) else Success(HexValue(a))
    else if !IsHexDigit(b) then Failure
    else if a == '-' then Success((256 - HexValue(b)) % 256)
    else if IsSpace(a) || a == '+' then Success(HexValue(b))
    else Failure
  }

  /** Two digits are a byte. One digit counts alone if something else follows it, or white space or a sign comes
      first, and after a minus sign it is negated. Anything else throws. */
  lemma {:induction false} StoulByteCases(a: char, b: char)
    ensures IsHexDigit(a) && IsHexDigit(b) ==> StoulByte(a, b) == Success(16 * HexValue(a) + HexValue(b))
    ensures IsHexDigit(a) && !IsHexDigit(b) ==> StoulByte(a, b) == Success(HexValue(a))
    ensures IsHexDigit(b) && a in {' ', '\t', '\n', '\r', '+'} ==> StoulByte(a, b) == Success(HexValue(b))
    ensures IsHexDigit(b) && a == '-' ==>
              StoulByte(a, b).Success? && (StoulByte(a, b).value + HexValue(b)) % 256 == 0
    ensures !IsHexDigit(a) && !IsHexDigit(b) ==> StoulByte(a, b).Failure?
    ensures StoulByte(a, b).Success? && !IsHexDigit(a) ==>
              a in {' ', '\t', '\n', '\r', 11 as char, 12 as char, '+', '-'}
  {
  }

  /** nextByte: the byte and what is left of the stream. A stream of fewer than two characters throws. */
  function NextByte(s: string): Result<(byte, string)> {
    if |s| < 2 then Failure
    else
      var b :- StoulByte(s[0], s[1]);
      Success((b, s[2..]))
  }

  /** The next n bytes. */
  function NextBytes(s: string, n: nat): (r: Result<(seq<byte>, string)>)
    ensures r.Success? ==> |r.value.0| == n
    decreases n
  {
    if n == 0 then Success(([], s))
    else
      var (b, rest) :- NextByte(s);
      var (bs, rest') :- NextBytes(rest, n - 1);
      Success(([b] + bs, rest'))
  }

  function HexDigit(v: nat, upper: bool): (c: char)
    requires v < 16
    ensures IsHexDigit(c) && HexValue(c) == v
  {
    if v < 10 then (v + '0' as int) as char
    else if upper then (v - 10 + 'A' as int) as char
    else (v - 10 + 'a' as int) as char
  }

  lemma {:induction false} HexDigitIs(v: nat, upper: bool)
    requires v < 16
    ensures HexDigit(v, upper)
         == if v < 10 then "0123456789"[v] else if upper then "ABCDEF"[v - 10] else "abcdef"[v - 10]
  {
  }

  /** Two hex digits per byte, in either case. */
  function Hex(bytes: seq<byte>, upper: bool): (s: string)
    ensures |s| == 2 * |bytes|
  {
    if bytes == [] then ""
    else [HexDigit(bytes[0] / 16, upper), HexDigit(bytes[0] % 16, upper)] + Hex(bytes[1..], upper)
  }

  lemma {:induction false} HexCons(b: byte, rest: seq<byte>, upper: bool)
    ensures Hex([b] + rest, upper) == Hex([b], upper) + Hex(rest, upper)
  {
    assert ([b] + rest)[1..] == rest && [b][1..] == [];
  }

  lemma {:induction false} HexAppend(a: seq<byte>, b: seq<byte>, upper: bool)
    ensures Hex(a + b, upper) == Hex(a, upper) + Hex(b, upper)
  {
    if a == [] {
      assert a + b == b;
    } else {
      var first, more := a[0], a[1..];
      HexAppend(more, b, upper);
      HexCons(first, more + b, upper);
      HexCons(first, more, upper);
      assert a == [first] + more && a + b == [first] + (more + b);
      var x, y, z := Hex([first], upper), Hex(more, upper), Hex(b, upper);
      assert x + (y + z) == (x + y) + z;
    }
  }

  predicate SpellsByte(a: char, b: char, x: byte) {
    IsHexDigit(a) && IsHexDigit(b) && 16 * HexValue(a) + HexValue(b) == x
  }

  /** The text gives the bytes in hex, each digit in either case. */
  ghost predicate Spells(text: string, bytes: seq<byte>) {
    |text| == 2 * |bytes| && forall i :: 0 <= i < |bytes| ==> SpellsByte(text[2 * i], text[2 * i + 1], bytes[i])
  }

  lemma {:induction false} SpellsSplit(text: string, a: seq<byte>, b: seq<byte>) returns (x: string, y: string)
    requires Spells(text, a + b)
    ensures text == x + y && Spells(x, a) && Spells(y, b)
  {
    x, y := text[..2 * |a|], text[2 * |a|..];
    forall i | 0 <= i < |a| ensures SpellsByte(x[2 * i], x[2 * i + 1], a[i]) {
      assert (a + b)[i] == a[i];
    }
    forall i | 0 <= i < |b| ensures SpellsByte(y[2 * i], y[2 * i + 1], b[i]) {
      var j := |a| + i;
      assert (a + b)[j] == b[i] && y[2 * i] == text[2 * j] && y[2 * i + 1] == text[2 * j + 1];
    }
  }

  lemma {:induction false} HexSpells(bytes: seq<byte>, upper: bool)
    ensures Spells(Hex(bytes, upper), bytes)
  {
    if bytes != [] {
      var text := Hex(bytes, upper);
      HexSpells(bytes[1..], upper);
      forall i | 0 <= i < |bytes| ensures SpellsByte(text[2 * i], text[2 * i + 1], bytes[i]) {
        if i > 0 {
          var rest := Hex(bytes[1..], upper);
          assert text[2 * i] == rest[2 * (i - 1)] && text[2 * i + 1] == rest[2 * (i - 1) + 1];
          assert bytes[i] == bytes[1..][i - 1];
        }
      }
    }
  }

  lemma {:induction false} NextByteSpelled(text: string, b: byte, rest: string)
    requires Spells(text, [b])
    ensures NextByte(text + rest) == Success((b, rest))
  {
    assert SpellsByte(text[2 * 0], text[2 * 0 + 1], [b][0]);
    assert (text + rest)[2..] == rest;
  }

  /** Bytes in hex are read back, whatever the case of the digits, and the rest of the stream stays. */
  lemma {:induction false} NextBytesSpelled(text: string, bytes: seq<byte>, rest: string)
    requires Spells(text, bytes)
    ensures NextBytes(text + rest, |bytes|) == Success((bytes, rest))
    decreases |bytes|
  {
    if bytes == [] {
      assert text + rest == rest;
    } else {
      var b, more := bytes[0], bytes[1..];
      assert bytes == [b] + more;
      var x, y := SpellsSplit(text, [b], more);
      assert text + rest == x + (y + rest);
      NextByteSpelled(x, b, y + rest);
      NextBytesSpelled(y, more, rest);
    }
  }

  lemma {:induction false} NextByteOfHex(b: byte, rest: string, upper: bool)
    ensures NextByte(Hex([b], upper) + rest) == Success((b, rest))
  {
    HexSpells([b], upper);
    NextByteSpelled(Hex([b], upper), b, rest);
  }

  lemma {:induction false} NextBytesOfHex(bytes: seq<byte>, rest: string, upper: bool)
    ensures NextBytes(Hex(bytes, upper) + rest, |bytes|) == Success((bytes, rest))
  {
    HexSpells(bytes, upper);
    NextBytesSpelled(Hex(bytes, upper), bytes, rest);
  }

  /** `rest` is what is left of `s` after a whole number of bytes, at least `min` of them. */
  ghost predicate Consumed(s: string, rest: string, min: nat) {
    |rest| + 2 * min <= |s| && (|s| - |rest|) % 2 == 0 && rest == s[|s| - |rest|..]
  }

  lemma {:induction false} ConsumedTwice(s: string, mid: string, rest: string, m: nat, n: nat)
    requires Consumed(s, mid, m) && Consumed(mid, rest, n)
    ensures Consumed(s, rest, m + n)
  {
  }

  /** Reading m bytes and then n more. */
  lemma {:induction false} NextBytesSplit(s: string, m: nat, n: nat)
    ensures NextBytes(s, m + n).Success? <==>
              NextBytes(s, m).Success? && NextBytes(NextBytes(s, m).value.1, n).Success?
    ensures NextBytes(s, m + n).Success? ==>
              var (a, rest) := NextBytes(s, m).value;
              var (b, rest') := NextBytes(rest, n).value;
              NextBytes(s, m + n) == Success((a + b, rest'))
    decreases m
  {
    if m == 0 {
      if NextBytes(s, n).Success? { assert [] + NextBytes(s, n).value.0 == NextBytes(s, n).value.0; }
    } else if NextByte(s).Success? {
      var (x, rest) := NextByte(s).value;
      NextBytesSplit(rest, m - 1, n);
      if NextBytes(s, m + n).Success? {
        var (a, rest') := NextBytes(rest, m - 1).value;
        var b := NextBytes(rest', n).value.0;
        assert [x] + (a + b) == [x] + a + b;
      }
    }
  }

  lemma {:induction false} OneByte(s: string)
    ensures NextBytes(s, 1).Success? <==> NextByte(s).Success?
    ensures NextByte(s).Success? ==> NextBytes(s, 1) == Success(([NextByte(s).value.0], NextByte(s).value.1))
  {
    if NextByte(s).Success? {
      var (b, rest) := NextByte(s).value;
      assert NextBytes(rest, 0) == Success(([], rest));
      assert [b] + [] == [b];
    }
  }

  lemma {:induction false} NextBytesConsumes(s: string, n: nat)
    ensures NextBytes(s, n).Success? ==> Consumed(s, NextBytes(s, n).value.1, n)
  {
    if n > 0 && NextBytes(s, n).Success? {
      var rest := NextByte(s).value.1;
      NextBytesConsumes(rest, n - 1);
      ConsumedTwice(s, rest, NextBytes(s, n).value.1, 1, n - 1);
    }
  }

  // ---------------------------------------------------------------- compact integers: decoding

  /** A 64-bit pattern read as a signed long. */
  function ToLong(x: nat): int { if x < U64 / 2 then x else x - U64 }

  /** How many bytes follow the first one: its two low bits are the mode. */
  function TailLength(first: byte): nat {
    match first % 4 case 0 => 0 case 1 => 1 case 2 => 3 case _ => first / 4 + 4
  }

  /** The number the bytes stand for. Big integers are summed up in a long, modulo 2^64. */
  function CompactValue(first: byte, tail: seq<byte>): int
    requires |tail| == TailLength(first)
  {
    match first % 4
    case 0 => first / 4
    case 1 => (first as int - first as int % 4 + 256 * tail[0] as int) / 4
    case 2 => (first as int + 256 * Value(tail, Base256)) / 4
    case _ => ToLong(Value(tail, Base256) % U64)
  }

  /** decodeCompactInteger: the number and what is left of the stream. */
  function DecodeCompact(s: string): Result<(int, string)> {
    var (first, rest) :- NextByte(s);
    var (tail, rest') :- NextBytes(rest, TailLength(first));
    Success((CompactValue(first, tail), rest'))
  }

  lemma {:induction false} DecodeCompactConsumes(s: string)
    ensures DecodeCompact(s).Success? ==> Consumed(s, DecodeCompact(s).value.1, 1)
  {
    var r := DecodeCompact(s);
    if r.Success? {
      var (first, rest) := NextByte(s).value;
      NextBytesConsumes(rest, TailLength(first));
      ConsumedTwice(s, rest, r.value.1, 1, TailLength(first));
    }
  }

  lemma {:induction false} DecodeCompactSpelled(text: string, first: byte, tail: seq<byte>, rest: string)
    requires |tail| == TailLength(first) && Spells(text, [first] + tail)
    ensures DecodeCompact(text + rest) == Success((CompactValue(first, tail), rest))
  {
    var x, y := SpellsSplit(text, [first], tail);
    assert text + rest == x + (y + rest);
    NextByteSpelled(x, first, y + rest);
    NextBytesSpelled(y, tail, rest);
  }

  // ---------------------------------------------------------------- the SCALE encoding

  /** The little-endian bytes of n, as few as possible. */
  function MinimalBytes(n: nat): seq<byte> {
    if n == 0 then [] else [n % 256] + MinimalBytes(n / 256)
  }

  /** The compact encoding of the SCALE codec, for numbers of at most 67 bytes. */
  function Compact(n: nat): seq<byte>
    requires |MinimalBytes(n)| <= 67
  {
    if n < 0x40 then [4 * n]
    else if n < 0x4000 then [4 * (n % 64) + 1, n / 64]
    else if n < 0x4000_0000 then [4 * (n % 64) + 2, n / 64 % 256, n / 0x4000 % 256, n / 0x40_0000]
    else
      AtLeastFour(n);
      [4 * (|MinimalBytes(n)| - 4) + 3] + MinimalBytes(n)
  }

  lemma {:induction false} AtLeastFour(n: nat)
    requires n >= 0x4000_0000
    ensures |MinimalBytes(n)| >= 4
  {
    assert |MinimalBytes(n / 0x100_0000)| >= 1;
    assert |MinimalBytes(n / 0x1_0000)| >= 2;
    assert |MinimalBytes(n / 0x100)| >= 3;
  }

  lemma {:induction false} MinimalBytesValue(n: nat)
    ensures Value(MinimalBytes(n), Base256) == n
  {
    if n > 0 {
      MinimalBytesValue(n / 256);
      ValueCons(n % 256, MinimalBytes(n / 256), Base256);
    }
  }

  lemma {:induction false} MinimalBytesLength(n: nat, k: nat)
    ensures |MinimalBytes(n)| <= k <==> n < Base256.Power(k)
  {
    if n > 0 && k > 0 { MinimalBytesLength(n / 256, k - 1); }
  }

  lemma {:induction false} ValueOfThree(a: byte, b: byte, c: byte)
    ensures Value([a, b, c], Base256) == a + 256 * b + 0x1_0000 * c
  {
    assert [a, b, c][1..] == [b, c] && [b, c][1..] == [c];
    assert Value([c], Base256) == c;
  }

  lemma {:induction false} FourByteValue(n: nat)
    requires n < 0x4000_0000
    ensures CompactValue(4 * (n % 64) + 2, [n / 64 % 256, n / 0x4000 % 256, n / 0x40_0000]) == n
  {
    var m := n / 64;
    assert n / 0x4000 == m / 256 && n / 0x40_0000 == m / 0x1_0000;
    ValueOfThree(m % 256, m / 256 % 256, m / 0x1_0000);
    assert m == m % 256 + 256 * (m / 256 % 256) + 0x1_0000 * (m / 0x1_0000);
  }

  lemma {:induction false} TwoByteValue(n: nat, high: byte)
    ensures CompactValue(4 * (n % 64) + 1, [high]) == n % 64 + 64 * high
  {
  }

  /** First byte and tail, with the value the decoder gives them. */
  ghost predicate Denotes(c: seq<byte>, n: int) {
    c != [] && |c[1..]| == TailLength(c[0]) && CompactValue(c[0], c[1..]) == n
  }

  lemma {:induction false} DenotesByParts(first: byte, tail: seq<byte>, n: int)
    requires |tail| == TailLength(first) && CompactValue(first, tail) == n
    ensures Denotes([first] + tail, n)
  {
    assert ([first] + tail)[1..] == tail;
  }

  lemma {:induction false} SmallLong(n: nat)
    requires n < U64 / 2
    ensures ToLong(n % U64) == n
  {
  }

  lemma {:induction false} TwoByteDenotes(n: nat)
    requires 0x40 <= n < 0x4000 && |MinimalBytes(n)| <= 67
    ensures Denotes(Compact(n), n)
  {
    TwoByteValue(n, n / 64);
    DenotesByParts(4 * (n % 64) + 1, [n / 64], n);
    assert Compact(n) == [4 * (n % 64) + 1] + [n / 64];
  }

  lemma {:induction false} FourByteDenotes(n: nat)
    requires 0x4000 <= n < 0x4000_0000 && |MinimalBytes(n)| <= 67
    ensures Denotes(Compact(n), n)
  {
    FourByteValue(n);
    var tail: seq<byte> := [n / 64 % 256, n / 0x4000 % 256, n / 0x40_0000];
    DenotesByParts(4 * (n % 64) + 2, tail, n);
    assert Compact(n) == [4 * (n % 64) + 2] + tail;
  }

  lemma {:induction false} ValueOfCompact(n: nat)
    requires |MinimalBytes(n)| <= 67
    ensures Denotes(Compact(n), ToLong(n % U64))
  {
    if n >= 0x4000_0000 {
      BigValue(n);
    } else {
      SmallLong(n);
      if n >= 0x4000 {
        FourByteDenotes(n);
      } else if n >= 0x40 {
        TwoByteDenotes(n);
      } else {
        DenotesByParts(4 * n, [], n);
      }
    }
  }

  lemma {:induction false} BigValue(n: nat)
    requires n >= 0x4000_0000 && |MinimalBytes(n)| <= 67
    ensures Denotes(Compact(n), ToLong(n % U64))
  {
    AtLeastFour(n);
    MinimalBytesValue(n);
    DenotesByParts(4 * (|MinimalBytes(n)| - 4) + 3, MinimalBytes(n), ToLong(n % U64));
  }

  lemma {:induction false} DecodeSpelled(text: string, c: seq<byte>, n: int, rest: string)
    requires Denotes(c, n) && Spells(text, c)
    ensures DecodeCompact(text + rest) == Success((n, rest))
  {
    assert c == [c[0]] + c[1..];
    DecodeCompactSpelled(text, c[0], c[1..], rest);
  }

  lemma {:induction false} DecodeDenoted(c: seq<byte>, n: int, rest: string, upper: bool)
    requires Denotes(c, n)
    ensures DecodeCompact(Hex(c, upper) + rest) == Success((n, rest))
  {
    HexSpells(c, upper);
    DecodeSpelled(Hex(c, upper), c, n, rest);
  }

  /** The decoder reads every compact encoding and leaves the rest of the stream alone; the number is right
      modulo 2^64, so exactly right for everything a long can hold. */
  lemma {:induction false} DecodeCompactOfCompact(n: nat, rest: string, upper: bool)
    requires |MinimalBytes(n)| <= 67
    ensures DecodeCompact(Hex(Compact(n), upper) + rest) == Success((ToLong(n % U64), rest))
  {
    ValueOfCompact(n);
    DecodeDenoted(Compact(n), ToLong(n % U64), rest, upper);
  }

  // ---------------------------------------------------------------- compact integers: encoding

  /** The eight-byte array of CompactIntegerLEBytes ran over. */
  datatype Encoded = Bytes(bytes: seq<byte>) | Overrun

  /** encodeCompactInteger. The two-byte mode keeps only bits 6 to 11 above the low six. */
  function Encode(n: nat): Encoded
    requires n < U128
  {
    if n <= 63 then Bytes([4 * n])
    else if n <= 0x3FFF then Bytes([4 * (n % 64) + 1, n / 64 % 64])
    else if n <= 0x3FFF_FFFF then Bytes([4 * (n % 64) + 2, n / 64 % 256, n / 0x4000 % 256, n / 0x40_0000 % 256])
    else if |MinimalBytes(n)| > 7 then Overrun
    else
      AtLeastFour(n);
      Bytes([4 * (|MinimalBytes(n)| - 4) + 3] + MinimalBytes(n))
  }

  predicate Encodable(n: nat) { n <= 0xFFF || 0x4000 <= n < 0x100_0000_0000_0000 }

  lemma {:induction false} SevenBytes(n: nat)
    ensures |MinimalBytes(n)| <= 7 <==> n < 0x100_0000_0000_0000
  {
    MinimalBytesLength(n, 7);
    assert Base256.Power(2) == 0x1_0000;
    assert Base256.Power(4) == 0x1_0000_0000;
    assert Base256.Power(6) == 0x1_0000_0000_0000;
  }

  lemma {:induction false} SixteenBytes(n: nat)
    requires n < U128
    ensures |MinimalBytes(n)| <= 16
  {
    MinimalBytesLength(n, 16);
    assert Base256.Power(2) == 0x1_0000;
    assert Base256.Power(4) == 0x1_0000_0000;
    PowerAdd(Base256, 4, 4);
    PowerAdd(Base256, 8, 8);
  }

  lemma {:induction false} TwoBytesAgree(n: nat)
    requires 0x40 <= n < 0x4000 && |MinimalBytes(n)| <= 67
    ensures Encode(n) == Bytes(Compact(n)) <==> n <= 0xFFF
  {
    var kept: seq<byte>, full: seq<byte> := [4 * (n % 64) + 1, n / 64 % 64], [4 * (n % 64) + 1, n / 64];
    assert Encode(n) == Bytes(kept) && Compact(n) == full;
    assert kept[1] == full[1] <==> n <= 0xFFF;
    if n <= 0xFFF {
      assert kept == full;
    }
  }

  lemma {:induction false} FourBytesAgree(n: nat)
    requires 0x4000 <= n < 0x4000_0000 && |MinimalBytes(n)| <= 67
    ensures Encode(n) == Bytes(Compact(n))
  {
    TopByte(n / 0x40_0000);
    var low: seq<byte> := [4 * (n % 64) + 2, n / 64 % 256, n / 0x4000 % 256];
    assert Encode(n) == Bytes(low + [n / 0x40_0000 % 256]) && Compact(n) == low + [n / 0x40_0000];
  }

  lemma {:induction false} TopByte(x: nat)
    requires x < 256
    ensures x % 256 == x
  {
  }

  /** The encoder follows the SCALE codec exactly on these numbers. */
  lemma {:induction false} EncodeIsCompact(n: nat)
    requires n < U128
    ensures |MinimalBytes(n)| <= 16
    ensures Encode(n) == Bytes(Compact(n)) <==> Encodable(n)
  {
    SixteenBytes(n);
    if 0x40 <= n < 0x4000 {
      TwoBytesAgree(n);
    } else if 0x4000 <= n < 0x4000_0000 {
      FourBytesAgree(n);
    } else {
      SevenBytes(n);
    }
  }

  /** In the gap between them it writes a two-byte form of the number modulo 0x1000. */
  lemma {:induction false} EncodeInTheGap(n: nat, rest: string, upper: bool)
    requires 0x40 <= n < 0x4000
    ensures Encode(n).Bytes? && DecodeCompact(Hex(Encode(n).bytes, upper) + rest) == Success((n % 0x1000, rest))
  {
    GapValue(n);
    DecodeDenoted(Encode(n).bytes, n % 0x1000, rest, upper);
  }

  lemma {:induction false} GapValue(n: nat)
    requires 0x40 <= n < 0x4000
    ensures Encode(n).Bytes? && Denotes(Encode(n).bytes, n % 0x1000)
  {
    var first, high := 4 * (n % 64) + 1, n / 64 % 64;
    TwoByteValue(n, high);
    LowTwelveBits(n);
    DenotesByParts(first, [high], n % 0x1000);
    assert Encode(n).bytes == [first] + [high];
  }

  lemma LowTwelveBits(n: nat)
    ensures n % 0x1000 == n % 64 + 64 * (n / 64 % 64)
  {
    var q, low := n / 64, n % 64;
    var high, k := q % 64, q / 64;
    assert n == 64 * q + low && q == 64 * k + high;
    assert n == 0x1000 * k + (64 * high + low) && 64 * high + low < 0x1000;
  }

  /** Encoding and decoding gives the number back, with the rest of the stream, on exactly these numbers. */
  lemma {:induction false} CompactRoundTrip(n: nat, rest: string, upper: bool)
    requires n < U128
    ensures (Encode(n).Bytes? && DecodeCompact(Hex(Encode(n).bytes, upper) + rest) == Success((n, rest)))
       <==> Encodable(n)
  {
    if Encodable(n) {
      EncodableValue(n);
      DecodeDenoted(Encode(n).bytes, n, rest, upper);
    } else if n < 0x4000 {
      EncodeInTheGap(n, rest, upper);
    } else {
      SevenBytes(n);
    }
  }

  lemma {:induction false} EncodableValue(n: nat)
    requires Encodable(n)
    ensures Encode(n).Bytes? && Denotes(Encode(n).bytes, n)
  {
    EncodeIsCompact(n);
    ValueOfCompact(n);
    SmallLong(n);
    var c := Encode(n).bytes;
    assert Denotes(c, ToLong(n % U64));
  }

  // ---------------------------------------------------------------- the operations

  /** The stream: a string that the readers consume in place. */
  class Stream {
    var text: string

    constructor (text: string)
      ensures this.text == text
    {
      this.text := text;
    }

    method Next() returns (r: Result<byte>)
      modifies this
      ensures r.Success? <==> NextByte(old(text)).Success?
      ensures r.Success? ==> NextByte(old(text)) == Success((r.value, text))
    {
      if |text| < 2 {
        return Failure;
      }
      r := StoulByte(text[0], text[1]);
      text := text[2..];
    }

    /** The loops that read a fixed number of bytes. */
    method NextMany(n: nat) returns (r: Result<seq<byte>>)
      modifies this
      ensures r.Success? <==> NextBytes(old(text), n).Success?
      ensures r.Success? ==> NextBytes(old(text), n) == Success((r.value, text))
    {
      var bytes: seq<byte> := [];
      for i := 0 to n
        invariant NextBytes(old(text), i) == Success((bytes, text))
      {
        NextBytesSplit(old(text), i, 1);
        NextBytesSplit(old(text), i + 1, n - i - 1);
        OneByte(text);
        var b :- Next();
        bytes := bytes + [b];
      }
      r := Success(bytes);
    }

    method DecodeCompactInteger() returns (r: Result<int>)
      modifies this
      ensures r.Success? <==> DecodeCompact(old(text)).Success?
      ensures r.Success? ==> DecodeCompact(old(text)) == Success((r.value, text))
    {
      var b :- Next();
      var first: nat := b;
      if first % 4 == 0 {
        r := Success(first / 4);
      } else if first % 4 == 1 {
        var tail :- NextMany(1);
        r := Success((first - first % 4 + 256 * tail[0] as int) / 4);
      } else if first % 4 == 2 {
        var tail :- NextMany(3);
        var number := SumThree(first, tail);
        r := Success(number / 4);
      } else {
        var tail :- NextMany(first / 4 + 4);
        var value := SumBytes(tail);
        r := Success(ToLong(value));
      }
    }
  }

  /** number += byte * multiplier, three times, from a multiplier of 256. */
  method SumThree(first: nat, tail: seq<byte>) returns (number: nat)
    requires |tail| == 3
    ensures number == first + 256 * Value(tail, Base256)
  {
    number := first;
    var multiplier: nat := 256;
    for i := 0 to 3
      invariant multiplier == match i case 0 => 256 case 1 => 0x1_0000 case 2 => 0x100_0000 case _ => 0x1_0000_0000
      invariant number == first + (if i > 0 then 256 * tail[0] as int else 0)
                          + (if i > 1 then 0x1_0000 * tail[1] as int else 0)
                          + (if i > 2 then 0x100_0000 * tail[2] as int else 0)
    {
      number := number + tail[i] as int * multiplier;
      multiplier := multiplier * 256;
    }
    ValueOfThree(tail[0], tail[1], tail[2]);
    assert tail == [tail[0], tail[1], tail[2]];
  }

  /** value += byte * multiplier, multiplier *= 256, in 64-bit arithmetic. */
  method SumBytes(bytes: seq<byte>) returns (value: nat)
    ensures value == Value(bytes, Base256) % U64
  {
    value := 0;
    var multiplier := 1;
    for i := 0 to |bytes|
      invariant multiplier == Base256.Power(i) % U64
      invariant value == Value(bytes[..i], Base256) % U64
    {
      SumStep(bytes, i, value, multiplier);
      value := (value + bytes[i] * multiplier) % U64;
      multiplier := multiplier * 256 % U64;
    }
    assert bytes[..|bytes|] == bytes;
  }

  lemma {:induction false} SumStep(bytes: seq<byte>, i: nat, value: nat, multiplier: nat)
    requires i < |bytes| && multiplier == Base256.Power(i) % U64 && value == Value(bytes[..i], Base256) % U64
    ensures (value + bytes[i] * multiplier) % U64 == Value(bytes[..i + 1], Base256) % U64
    ensures multiplier * 256 % U64 == Base256.Power(i + 1) % U64
  {
    assert bytes[..i + 1] == bytes[..i] + [bytes[i]];
    ValueSnoc(bytes[..i], bytes[i]);
    ModularStep(Value(bytes[..i], Base256), bytes[i], Base256.Power(i));
    NextMultiplier(Base256.Power(i));
  }

  lemma NextMultiplier(p: nat)
    ensures p % U64 * 256 % U64 == Base256.Times(p) % U64
  {
    Cancel(0, 256 * (p % U64), 256 * (p / U64));
  }

  lemma {:induction false} ModularStep(v: nat, b: nat, p: nat)
    ensures (v % U64 + b * (p % U64)) % U64 == (v + b * p) % U64
  {
    var q, m := p / U64, p % U64;
    Spread(b, q, m);
    Cancel(v, b * m, b * q);
  }

  lemma Spread(b: nat, q: nat, m: nat)
    ensures b * (U64 * q + m) == U64 * (b * q) + b * m
  {
  }

  lemma Cancel(v: nat, x: nat, k: nat)
    ensures (v % U64 + x) % U64 == (v + (U64 * k + x)) % U64
  {
  }

  lemma {:induction false} ValueSnoc(ds: seq<nat>, d: nat)
    ensures Value(ds + [d], Base256) == Value(ds, Base256) + d * Base256.Power(|ds|)
  {
    if ds == [] {
      assert [] + [d] == [d] && [d][1..] == [];
    } else {
      ValueSnoc(ds[1..], d);
      assert (ds + [d])[1..] == ds[1..] + [d];
      assert 256 * (d * Base256.Power(|ds| - 1)) == d * (256 * Base256.Power(|ds| - 1));
    }
  }

  /** The four-byte mode. */
  method EncodeFour(n0: nat) returns (r: seq<byte>)
    requires 0x4000 <= n0 <= 0x3FFF_FFFF
    ensures r == [4 * (n0 % 64) + 2, n0 / 64 % 256, n0 / 0x4000 % 256, n0 / 0x40_0000 % 256]
  {
    var bytes := new byte[8](_ => 0);
    bytes[0] := 4 * (n0 % 64) + 2;
    var n := n0 / 64;
    for i := 1 to 4
      invariant n == match i case 1 => n0 / 64 case 2 => n0 / 0x4000 case 3 => n0 / 0x40_0000 case _ => n0 / 0x4000_0000
      invariant bytes[0] == 4 * (n0 % 64) + 2
      invariant i > 1 ==> bytes[1] == n0 / 64 % 256
      invariant i > 2 ==> bytes[2] == n0 / 0x4000 % 256
      invariant i > 3 ==> bytes[3] == n0 / 0x40_0000 % 256
    {
      bytes[i] := n % 256;
      n := n / 256;
    }
    r := bytes[..4];
  }

  lemma {:induction false} OneByteMore(all: seq<byte>, done: seq<byte>, n: nat)
    requires n > 0 && all == done + MinimalBytes(n)
    ensures all == (done + [n % 256]) + MinimalBytes(n / 256)
  {
  }

  /** The byte loop of the big-integer mode, on the eight-byte array; false when it runs over. */
  method FillBytes(n0: nat, bytes: array<byte>) returns (fits: bool, byteNum: nat)
    requires bytes.Length == 8
    modifies bytes
    ensures fits <==> |MinimalBytes(n0)| <= 7
    ensures fits ==> byteNum == 1 + |MinimalBytes(n0)| && bytes[1..byteNum] == MinimalBytes(n0)
  {
    var n := n0;
    byteNum := 1;
    ghost var all: seq<byte>, done: seq<byte> := MinimalBytes(n0), [];
    while n > 0
      invariant 1 <= byteNum <= 8 && |done| == byteNum - 1
      invariant forall k :: 0 <= k < |done| ==> bytes[k + 1] == done[k]
      invariant all == done + MinimalBytes(n)
      decreases n
    {
      if byteNum == 8 {
        return false, byteNum;
      }
      OneByteMore(all, done, n);
      bytes[byteNum] := n % 256;
      done := done + [n % 256];
      byteNum, n := byteNum + 1, n / 256;
    }
    fits := true;
  }

  /** The big-integer mode. */
  method EncodeBig(n: nat) returns (r: Encoded)
    requires 0x4000_0000 <= n < U128
    ensures r == Encode(n)
  {
    AtLeastFour(n);
    var bytes := new byte[8](_ => 0);
    var fits, byteNum := FillBytes(n, bytes);
    if !fits {
      return Overrun;
    }
    ghost var tail := bytes[1..byteNum];
    bytes[0] := 4 * (byteNum - 5) + 3;
    assert bytes[..byteNum] == [bytes[0]] + tail;
    r := Bytes(bytes[..byteNum]);
  }

  /** (n & 0xFC0) >> 6. */
  lemma MaskAndShift(n: nat)
    ensures n % 0x1000 / 64 == n / 64 % 64
  {
  }

  /** encodeCompactInteger. */
  method EncodeCompactInteger(n: nat) returns (r: Encoded)
    requires n < U128
    ensures r == Encode(n)
  {
    if n <= 63 {
      r := Bytes([4 * n]);
    } else if n <= 0x3FFF {
      MaskAndShift(n);
      r := Bytes([4 * (n % 64) + 1, n % 0x1000 / 64]);
    } else if n <= 0x3FFF_FFFF {
      var bytes := EncodeFour(n);
      r := Bytes(bytes);
    } else {
      r := EncodeBig(n);
    }
  }
}
