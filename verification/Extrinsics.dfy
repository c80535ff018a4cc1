/** Signed extrinsics: TransferExtrinsic of src/structs/transfer.h, SignaturePayload of
    src/structs/signaturepayload.h, the byte layout of the submit operations and the parser in
    pendingExtrinsics of src/application.cpp. */
module Extrinsics {
  import opened Common
  import opened Numerals
  import opened Scale
  import Ss58

  const ADDRESS_SEPARATOR: byte := 0xFF
  const SIGNATURE_VERSION: byte := 0x81
  const PUBLIC_SIZE := 32
  const SIGNATURE_SIZE := 64
  const BLOCK_HASH_SIZE := 32
  const MAX_METHOD_BYTES := 2048

  datatype Signature = Signature(version: byte, signer: seq<byte>, signature: seq<byte>, nonce: nat, era: byte) {
    /** The sizes of the fields. */
    ghost predicate Sized() { |signer| == PUBLIC_SIZE && |signature| == SIGNATURE_SIZE && nonce < U128 }

    /** The nonce does not overrun its compact form either. */
    ghost predicate Valid() { Sized() && Fits(nonce) }
  }

  datatype TransferMethod = TransferMethod(moduleIndex: byte, methodIndex: byte, receiver: seq<byte>, amount: nat) {
    ghost predicate Sized() { |receiver| == PUBLIC_SIZE && amount < U128 }

    ghost predicate Valid() { Sized() && Fits(amount) }
  }

  /** What the eight-byte CompactIntegerLEBytes can hold. */
  predicate Fits(n: nat) { n < 0x100_0000_0000_0000 }

  function CompactBytes(n: nat): (b: seq<byte>)
    requires Fits(n)
    ensures 1 <= |b| <= 8
  {
    SevenBytes(n);
    Encode(n).bytes
  }

  // ---------------------------------------------------------------- layouts

  /** serializeMethodBinary. */
  function MethodBytes(m: TransferMethod): seq<byte>
    requires m.Valid()
  {
    [m.moduleIndex, m.methodIndex, ADDRESS_SEPARATOR] + m.receiver + CompactBytes(m.amount)
  }

  function SignaturePart(s: Signature): (b: seq<byte>)
    requires s.Valid()
    ensures |b| == 99 + |CompactBytes(s.nonce)|
  {
    [s.version, ADDRESS_SEPARATOR] + s.signer + s.signature + CompactBytes(s.nonce) + [s.era]
  }

  /** Everything after the length prefix. */
  function Body(s: Signature, message: seq<byte>): seq<byte>
    requires s.Valid()
  {
    SignaturePart(s) + message
  }

  /** The sent bytes, with the length the sender puts in front. */
  function Sent(length: nat, s: Signature, message: seq<byte>): seq<byte>
    requires Fits(length) && s.Valid()
  {
    CompactBytes(length) + Body(s, message)
  }

  /** A number overruns the compact form exactly if it does not fit. */
  lemma {:induction false} OverrunIff(n: nat)
    requires n < U128
    ensures Encode(n).Overrun? <==> !Fits(n)
  {
    SevenBytes(n);
  }

  /** What serializeBinary leaves for a transfer of any amount and nonce. */
  function TransferBytes(s: Signature, m: TransferMethod): Encoded
    requires s.Sized() && m.Sized()
  {
    OverrunIff(m.amount);
    OverrunIff(s.nonce);
    if Encode(m.amount).Overrun? || Encode(s.nonce).Overrun? then Overrun
    else Bytes(Sent(TransferLength(s, m), s, MethodBytes(m)))
  }

  /** The length computations of the three senders. */
  function TransferLength(s: Signature, m: TransferMethod): nat
    requires s.Valid() && m.Valid()
  {
    134 + |CompactBytes(m.amount)| + |CompactBytes(s.nonce)|
  }

  function SubmitLength(s: Signature, encoded: seq<byte>): nat
    requires s.Valid()
  {
    103 + |encoded| + |CompactBytes(s.nonce)| - 1
  }

  function SubmitAndSubscribeLength(encoded: seq<byte>): nat { 103 + |encoded| }

  function Message(moduleIndex: byte, methodIndex: byte, encoded: seq<byte>): seq<byte> {
    [moduleIndex, methodIndex, ADDRESS_SEPARATOR] + encoded
  }

  lemma {:induction false} TransferLengthIsRight(s: Signature, m: TransferMethod)
    requires s.Valid() && m.Valid()
    ensures TransferLength(s, m) == |Body(s, MethodBytes(m))|
  {
  }

  lemma {:induction false} SubmitLengthIsRight(s: Signature, moduleIndex: byte, methodIndex: byte, encoded: seq<byte>)
    requires s.Valid()
    ensures SubmitLength(s, encoded) == |Body(s, Message(moduleIndex, methodIndex, encoded))|
  {
  }

  /** The length of submitAndSubcribeExtrinsic leaves the nonce out, so it is right exactly for nonces that
      take one byte. */
  lemma {:induction false} SubmitAndSubscribeLengthIsRight(
    s: Signature, moduleIndex: byte, methodIndex: byte, encoded: seq<byte>)
    requires s.Valid()
    ensures SubmitAndSubscribeLength(encoded) == |Body(s, Message(moduleIndex, methodIndex, encoded))|
       <==> s.nonce <= 63
  {
    SevenBytes(s.nonce);
    if s.nonce >= 0x4000_0000 { AtLeastFour(s.nonce); }
  }

  // ---------------------------------------------------------------- the signed payload

  /** SignaturePayload::serializeBinary. The method length is an 8-bit field. */
  function Payload(nonce: nat, message: seq<byte>, era: byte, blockHash: seq<byte>): seq<byte>
    requires Fits(nonce) && |blockHash| == BLOCK_HASH_SIZE
  {
    CompactBytes(nonce) + message[..|message| % 256] + [era] + blockHash
  }

  /** What is signed holds the whole method exactly if the method has at most 255 bytes. */
  lemma {:induction false} PayloadHoldsTheMethod(nonce: nat, message: seq<byte>, era: byte, blockHash: seq<byte>)
    requires Fits(nonce) && |blockHash| == BLOCK_HASH_SIZE
    ensures Payload(nonce, message, era, blockHash) == CompactBytes(nonce) + message + [era] + blockHash
       <==> |message| <= 255
  {
    if |message| <= 255 {
      assert message[..|message|] == message;
    } else {
      assert |Payload(nonce, message, era, blockHash)| < |CompactBytes(nonce) + message + [era] + blockHash|;
    }
  }

  // ---------------------------------------------------------------- hex fields

  /** The value fromHexByte gives a character: its own code if it is no hex digit. */
  function Nibble(c: char): nat {
    if IsHexDigit(c) then HexValue(c) else c as int % 256
  }

  /** fromHexByte. */
  function FromHexByte(a: char, b: char): byte { JoinNibbles(Nibble(a), Nibble(b)) }

  function JoinNibbles(high: nat, low: nat): byte { BitOr(16 * high, low) % 256 }

  lemma {:induction false} JoinedNibbles(high: nat, low: nat)
    requires high < 16 && low < 16
    ensures JoinNibbles(high, low) == 16 * high + low
  {
    OrFour(high, low);
    SmallByte(BitOr(16 * high, low), 16 * high + low);
  }

  lemma {:induction false} SmallByte(x: nat, y: nat)
    requires x == y < 256
    ensures x % 256 == y
  {
  }

  /** Two hex digits, in either case, give their byte. */
  lemma {:induction false} FromHexByteSpelled(a: char, b: char, x: byte)
    requires SpellsByte(a, b, x)
    ensures FromHexByte(a, b) == x
  {
    JoinedNibbles(HexValue(a), HexValue(b));
  }

  lemma {:induction false} OrBit(a: nat, b: nat, bit: nat, r: nat)
    requires bit < 2 && BitOr(a, b) == r
    ensures BitOr(2 * a, 2 * b + bit) == 2 * r + bit
  {
    assert (2 * b + bit) / 2 == b && (2 * b + bit) % 2 == bit;
  }

  lemma {:induction false} OrTwo(a: nat, b: nat)
    requires b < 4
    ensures BitOr(4 * a, b) == 4 * a + b
  {
    BitOrZero(a);
    OrBit(a, 0, b / 2, a);
    OrBit(2 * a, b / 2, b % 2, 2 * a + b / 2);
  }

  lemma {:induction false} OrThree(a: nat, b: nat)
    requires b < 8
    ensures BitOr(8 * a, b) == 8 * a + b
  {
    OrTwo(a, b / 2);
    OrBit(4 * a, b / 2, b % 2, 4 * a + b / 2);
  }

  /** With no bit in common, or is addition. */
  lemma {:induction false} OrFour(a: nat, b: nat)
    requires b < 16
    ensures BitOr(16 * a, b) == 16 * a + b
  {
    OrThree(a, b / 2);
    OrBit(8 * a, b / 2, b % 2, 8 * a + b / 2);
  }

  /** fromHex to a vector, most significant byte first, of text without a prefix. */
  function FromHex(s: string): seq<byte>
    requires |s| % 2 == 0
  {
    if s == "" then [] else [FromHexByte(s[0], s[1])] + FromHex(s[2..])
  }

  lemma {:induction false} FromHexSpelled(text: string, bytes: seq<byte>)
    requires Spells(text, bytes)
    ensures FromHex(text) == bytes
  {
    if bytes != [] {
      assert SpellsByte(text[2 * 0], text[2 * 0 + 1], bytes[0]);
      FromHexByteSpelled(text[0], text[1], bytes[0]);
      assert bytes == [bytes[0]] + bytes[1..];
      var x, y := SpellsSplit(text, [bytes[0]], bytes[1..]);
      assert text[2..] == y;
      FromHexSpelled(y, bytes[1..]);
    }
  }

  // ---------------------------------------------------------------- the parser of pendingExtrinsics

  /** A GenericExtrinsic. The method bytes stay hex text; any era byte but zero counts as mortal. */
  datatype Parsed = Parsed(
    length: int, version: byte, signer: seq<byte>, signature: seq<byte>, nonce: int, mortal: bool,
    moduleIndex: byte, methodIndex: byte, methodBytes: string, address: string)

  /** A one-byte field: fromHex of the next two characters. */
  function ByteField(s: string): Result<(byte, string)> {
    if |s| < 2 then Failure
    else Success((if s[..2] == "0x" then 0 else FromHexByte(s[0], s[1]), s[2..]))
  }

  /** A field of n bytes. A field that itself starts with 0x comes out too short for the copy that follows;
      the model stops there. */
  function VectorField(s: string, n: nat): Result<(seq<byte>, string)>
    requires n > 0
  {
    if |s| < 2 * n || s[..2] == "0x" then Failure else Success((FromHex(s[..2 * n]), s[2 * n..]))
  }

  function ParseSignature(s: string): Result<(Signature, int, string)> {
    var (version, s1) :- ByteField(s);
    if |s1| < 2 then Failure
    else
      var (signer, s2) :- VectorField(s1[2..], PUBLIC_SIZE);
      var (signature, s3) :- VectorField(s2, SIGNATURE_SIZE);
      var (nonce, s4) :- DecodeCompact(s3);
      var (era, s5) :- ByteField(s4);
      Success((Signature(version, signer, signature, 0, era), nonce, s5))
  }

  /** One element of the response: 0x, length, signature, method. */
  function Parse(text: string, hash: Ss58.Hash): Result<Parsed> {
    if |text| < 2 then Failure
    else
      var (length, s1) :- DecodeCompact(text[2..]);
      var (sig, nonce, s2) :- ParseSignature(s1);
      var (moduleIndex, s3) :- ByteField(s2);
      var (methodIndex, s4) :- ByteField(s3);
      Success(Parsed(length, sig.version, sig.signer, sig.signature, nonce, sig.era != 0,
                     moduleIndex, methodIndex, s4, Ss58.Address(sig.signer, hash)))
  }

  /** The loop of pendingExtrinsics over any parser: every element is counted, the first `bufferSize` are parsed. */
  method ParseFirst(
    texts: seq<string>, bufferSize: nat, parse: string -> Result<Parsed>) returns (r: Result<(seq<Parsed>, nat)>)
    ensures r.Success? <==> forall i :: 0 <= i < |texts| && i < bufferSize ==> parse(texts[i]).Success?
    ensures r.Success? ==> r.value.1 == |texts|
    ensures r.Success? ==> |r.value.0| == if |texts| < bufferSize then |texts| else bufferSize
    ensures r.Success? ==> forall i :: 0 <= i < |r.value.0| ==> parse(texts[i]) == Success(r.value.0[i])
  {
    var parsed: seq<Parsed> := [];
    for count := 0 to |texts|
      invariant |parsed| == if count < bufferSize then count else bufferSize
      invariant forall i :: 0 <= i < |parsed| ==> parse(texts[i]) == Success(parsed[i])
    {
      if count < bufferSize {
        var p :- parse(texts[count]);
        parsed := parsed + [p];
      }
    }
    r := Success((parsed, |texts|));
  }

  method PendingExtrinsics(texts: seq<string>, bufferSize: nat, hash: Ss58.Hash) returns (r: Result<(seq<Parsed>, nat)>)
    ensures r.Success? <==> forall i :: 0 <= i < |texts| && i < bufferSize ==> Parse(texts[i], hash).Success?
    ensures r.Success? ==> r.value.1 == |texts|
    ensures r.Success? ==> |r.value.0| == if |texts| < bufferSize then |texts| else bufferSize
    ensures r.Success? ==> forall i :: 0 <= i < |r.value.0| ==> Parse(texts[i], hash) == Success(r.value.0[i])
  {
    r := ParseFirst(texts, bufferSize, text => Parse(text, hash));
  }

  lemma {:induction false} ByteFieldSpelled(text: string, b: byte, rest: string)
    requires Spells(text, [b])
    ensures ByteField(text + rest) == Success((b, rest))
  {
    var s := text + rest;
    assert SpellsByte(text[2 * 0], text[2 * 0 + 1], [b][0]);
    FromHexByteSpelled(s[0], s[1], b);
    assert s[..2][1] != 'x' && s[2..] == rest;
  }

  lemma {:induction false} VectorFieldSpelled(text: string, bytes: seq<byte>, rest: string)
    requires bytes != [] && Spells(text, bytes)
    ensures VectorField(text + rest, |bytes|) == Success((bytes, rest))
  {
    var s := text + rest;
    assert SpellsByte(text[2 * 0], text[2 * 0 + 1], bytes[0]);
    assert s[..2 * |bytes|] == text && s[2 * |bytes|..] == rest;
    assert s[..2][1] != 'x';
    FromHexSpelled(text, bytes);
  }

  /** What a reader gets for a compact number: the number itself, unless it lies where the encoder loses bits. */
  function CompactRead(n: nat): nat { if Encodable(n) then n else n % 0x1000 }

  lemma {:induction false} CompactFieldSpelled(text: string, n: nat, rest: string)
    requires Fits(n) && Spells(text, CompactBytes(n))
    ensures DecodeCompact(text + rest) == Success((CompactRead(n), rest))
  {
    if Encodable(n) {
      EncodableValue(n);
    } else {
      GapValue(n);
    }
    DecodeSpelled(text, CompactBytes(n), CompactRead(n), rest);
  }

  /** The five fields of a signature, in the text of its bytes. */
  lemma {:induction false} SignatureFields(text: string, s: Signature)
    returns (version: string, separator: string, signer: string, signature: string, nonce: string, era: string)
    requires s.Valid() && Spells(text, SignaturePart(s))
    ensures text == version + (separator + (signer + (signature + (nonce + era))))
    ensures Spells(version, [s.version]) && |separator| == 2 && Spells(signer, s.signer)
    ensures Spells(signature, s.signature) && Spells(nonce, CompactBytes(s.nonce)) && Spells(era, [s.era])
  {
    var head: seq<byte> := [s.version, ADDRESS_SEPARATOR];
    var t4, t3, t2, t1: string;
    t4, era := SpellsSplit(text, head + s.signer + s.signature + CompactBytes(s.nonce), [s.era]);
    t3, nonce := SpellsSplit(t4, head + s.signer + s.signature, CompactBytes(s.nonce));
    t2, signature := SpellsSplit(t3, head + s.signer, s.signature);
    t1, signer := SpellsSplit(t2, head, s.signer);
    assert head == [s.version] + [ADDRESS_SEPARATOR];
    version, separator := SpellsSplit(t1, [s.version], [ADDRESS_SEPARATOR]);
  }

  lemma {:induction false} ParseSignatureText(text: string, s: Signature, rest: string)
    requires s.Valid() && Spells(text, SignaturePart(s))
    ensures ParseSignature(text + rest) == Success((s.(nonce := 0), CompactRead(s.nonce), rest))
  {
    var version, separator, signer, signature, nonce, era := SignatureFields(text, s);
    var s4 := era + rest;
    var s3 := nonce + s4;
    var s2 := signature + s3;
    var s1 := signer + s2;
    var s0 := separator + s1;
    assert text + rest == version + s0;
    assert s0[2..] == s1;
    ByteFieldSpelled(version, s.version, s0);
    VectorFieldSpelled(signer, s.signer, s2);
    VectorFieldSpelled(signature, s.signature, s3);
    CompactFieldSpelled(nonce, s.nonce, s4);
    ByteFieldSpelled(era, s.era, rest);
  }

  /** The parts of a sent extrinsic, in the text of its bytes. */
  lemma {:induction false} SentFields(
    text: string, length: nat, s: Signature, moduleIndex: byte, methodIndex: byte, rest: seq<byte>)
    returns (prefix: string, signature: string, moduleText: string, methodText: string, tail: string)
    requires s.Valid() && Fits(length) && Spells(text, Sent(length, s, [moduleIndex, methodIndex] + rest))
    ensures text == prefix + (signature + (moduleText + (methodText + tail)))
    ensures Spells(prefix, CompactBytes(length)) && Spells(signature, SignaturePart(s))
    ensures Spells(moduleText, [moduleIndex]) && Spells(methodText, [methodIndex]) && Spells(tail, rest)
  {
    var message := [moduleIndex, methodIndex] + rest;
    var t1, t2, t3: string;
    prefix, t1 := SpellsSplit(text, CompactBytes(length), Body(s, message));
    signature, t2 := SpellsSplit(t1, SignaturePart(s), message);
    assert message == [moduleIndex] + ([methodIndex] + rest);
    moduleText, t3 := SpellsSplit(t2, [moduleIndex], [methodIndex] + rest);
    methodText, tail := SpellsSplit(t3, [methodIndex], rest);
  }

  /** Parsing the text of what was sent, in digits of either case, gives back every field; the nonce comes back
      as `CompactRead` says, and the method bytes are the end of the text. */
  lemma {:induction false} ParseSent(
    text: string, length: nat, s: Signature, moduleIndex: byte, methodIndex: byte, rest: seq<byte>, hash: Ss58.Hash)
    requires s.Valid() && Fits(length) && Encodable(length)
    requires Spells(text, Sent(length, s, [moduleIndex, methodIndex] + rest))
    ensures var r := Parse("0x" + text, hash);
            && r.Success? && |r.value.methodBytes| <= |text| && Spells(r.value.methodBytes, rest)
            && r.value.methodBytes == text[|text| - |r.value.methodBytes|..]
            && r == Success(Parsed(length, s.version, s.signer, s.signature, CompactRead(s.nonce), s.era != 0,
                                   moduleIndex, methodIndex, r.value.methodBytes, Ss58.Address(s.signer, hash)))
  {
    var prefix, signature, moduleText, methodText, tail := SentFields(text, length, s, moduleIndex, methodIndex, rest);
    assert ("0x" + text)[2..] == text;
    CompactFieldSpelled(prefix, length, signature + (moduleText + (methodText + tail)));
    ParseSignatureText(signature, s, moduleText + (methodText + tail));
    ByteFieldSpelled(moduleText, moduleIndex, methodText + tail);
    ByteFieldSpelled(methodText, methodIndex, tail);
  }

  /** The arguments of a transfer in its method bytes: separator, receiver and compact amount, to the end. */
  function TransferArguments(text: string): Result<(byte, seq<byte>, int)> {
    var (separator, s1) :- NextByte(text);
    var (receiver, s2) :- NextBytes(s1, PUBLIC_SIZE);
    var (amount, s3) :- DecodeCompact(s2);
    if s3 == "" then Success((separator, receiver, amount)) else Failure
  }

  /** Separator, receiver and amount are read back from the method bytes. */
  lemma {:induction false} ArgumentsRead(text: string, m: TransferMethod)
    requires m.Valid() && Spells(text, MethodBytes(m)[2..])
    ensures TransferArguments(text) == Success((0xFF, m.receiver, CompactRead(m.amount)))
  {
    assert MethodBytes(m)[2..] == [ADDRESS_SEPARATOR] + (m.receiver + CompactBytes(m.amount));
    var separator, t := SpellsSplit(text, [ADDRESS_SEPARATOR], m.receiver + CompactBytes(m.amount));
    var receiver, amount := SpellsSplit(t, m.receiver, CompactBytes(m.amount));
    NextByteSpelled(separator, ADDRESS_SEPARATOR, receiver + amount);
    NextBytesSpelled(receiver, m.receiver, amount);
    CompactFieldSpelled(amount, m.amount, "");
    assert amount + "" == amount;
  }

  /** A transfer of any 128-bit amount and nonce. It overruns the compact form exactly if one of the two does not
      fit. Otherwise its bytes, in hex digits of either case, are parsed into the same fields and receiver, and
      the length counts exactly the bytes after it. Amount and nonce come back if and only if the encoder keeps
      all their bits. */
  lemma {:induction false} TransferRoundTrip(s: Signature, m: TransferMethod, text: string, hash: Ss58.Hash)
    requires s.Sized() && m.Sized()
    ensures TransferBytes(s, m) == Overrun <==> !(Fits(m.amount) && Fits(s.nonce))
    ensures TransferBytes(s, m).Bytes? && Spells(text, TransferBytes(s, m).bytes) ==>
              var r := Parse("0x" + text, hash);
              && r.Success?
              && r.value == Parsed(|Body(s, MethodBytes(m))|, s.version, s.signer, s.signature, r.value.nonce,
                                   s.era != 0, m.moduleIndex, m.methodIndex, r.value.methodBytes,
                                   Ss58.Address(s.signer, hash))
              && (r.value.nonce == s.nonce <==> Encodable(s.nonce))
              && var arguments := TransferArguments(r.value.methodBytes);
              && arguments.Success? && arguments.value.0 == 0xFF && arguments.value.1 == m.receiver
              && (arguments.value.2 == m.amount <==> Encodable(m.amount))
  {
    OverrunIff(m.amount);
    OverrunIff(s.nonce);
    if TransferBytes(s, m).Bytes? && Spells(text, TransferBytes(s, m).bytes) {
      var rest := MethodBytes(m)[2..];
      TransferLengthIsRight(s, m);
      assert MethodBytes(m) == [m.moduleIndex, m.methodIndex] + rest;
      ParseSent(text, TransferLength(s, m), s, m.moduleIndex, m.methodIndex, rest, hash);
      ArgumentsRead(Parse("0x" + text, hash).value.methodBytes, m);
    }
  }

  /** What submitExtrinsic sends for any nonce. */
  function SubmitBytes(s: Signature, moduleIndex: byte, methodIndex: byte, encoded: seq<byte>): Encoded
    requires s.Sized() && |encoded| + 3 <= MAX_METHOD_BYTES
  {
    OverrunIff(s.nonce);
    if Encode(s.nonce).Overrun? then Overrun
    else Bytes(Sent(SubmitLength(s, encoded), s, Message(moduleIndex, methodIndex, encoded)))
  }

  /** The same for submitExtrinsic, whose method bytes the caller provides. */
  lemma {:induction false} SubmitRoundTrip(
    s: Signature, moduleIndex: byte, methodIndex: byte, encoded: seq<byte>, text: string, hash: Ss58.Hash)
    requires s.Sized() && |encoded| + 3 <= MAX_METHOD_BYTES
    ensures var sent := SubmitBytes(s, moduleIndex, methodIndex, encoded);
            && (sent.Overrun? <==> !Fits(s.nonce))
            && (sent.Bytes? && Spells(text, sent.bytes) ==>
                  var r := Parse("0x" + text, hash);
                  && r.Success?
                  && r.value == Parsed(|Body(s, Message(moduleIndex, methodIndex, encoded))|, s.version, s.signer,
                                       s.signature, r.value.nonce, s.era != 0, moduleIndex, methodIndex,
                                       r.value.methodBytes, Ss58.Address(s.signer, hash))
                  && Spells(r.value.methodBytes, [0xFF] + encoded)
                  && (r.value.nonce == s.nonce <==> Encodable(s.nonce)))
  {
    OverrunIff(s.nonce);
    if Fits(s.nonce) && Spells(text, SubmitBytes(s, moduleIndex, methodIndex, encoded).bytes) {
      var arguments := [ADDRESS_SEPARATOR] + encoded;
      SubmitLengthIsRight(s, moduleIndex, methodIndex, encoded);
      assert Message(moduleIndex, methodIndex, encoded) == [moduleIndex, methodIndex] + arguments;
      ParseSent(text, SubmitLength(s, encoded), s, moduleIndex, methodIndex, arguments, hash);
    }
  }

  // ---------------------------------------------------------------- the writers

  /** memcpy to the end of what has been written; writeCompactToBuf does the same byte by byte. */
  method Append(buf: array<byte>, written: nat, src: seq<byte>) returns (n: nat)
    requires written + |src| <= buf.Length
    modifies buf
    ensures n == written + |src| && buf[..n] == old(buf[..written]) + src
  {
    for i := 0 to |src|
      invariant buf[..written + i] == old(buf[..written]) + src[..i]
    {
      ghost var before := buf[..written + i];
      buf[written + i] := src[i];
      assert buf[..written + i + 1] == before + [src[i]];
    }
    assert src[..|src|] == src;
    n := written + |src|;
  }

  method AppendCompact(buf: array<byte>, written: nat, number: nat) returns (n: nat)
    requires Fits(number) && written + 8 <= buf.Length
    modifies buf
    ensures n == written + |CompactBytes(number)| && buf[..n] == old(buf[..written]) + CompactBytes(number)
  {
    SevenBytes(number);
    var e := EncodeCompactInteger(number);
    n := Append(buf, written, e.bytes);
  }

  /** TransferExtrinsic::serializeMethodBinary, from offset `written` of the buffer. */
  method SerializeMethodBinary(m: TransferMethod, buf: array<byte>, written: nat) returns (n: nat)
    requires m.Valid() && written + 43 <= buf.Length
    modifies buf
    ensures n == written + |MethodBytes(m)| && buf[..n] == old(buf[..written]) + MethodBytes(m)
  {
    ghost var start := buf[..written];
    n := Append(buf, written, [m.moduleIndex, m.methodIndex]);
    n := Append(buf, n, [ADDRESS_SEPARATOR]);
    n := Append(buf, n, m.receiver);
    n := AppendCompact(buf, n, m.amount);
    assert buf[..n] == start + MethodBytes(m);
  }

  /** Version, separator, signer, signature, nonce and era: the same in all senders. */
  method SerializeSignature(s: Signature, buf: array<byte>, written: nat) returns (n: nat)
    requires s.Valid() && written + 107 <= buf.Length
    modifies buf
    ensures n == written + |SignaturePart(s)| && buf[..n] == old(buf[..written]) + SignaturePart(s)
  {
    ghost var start := buf[..written];
    n := Append(buf, written, [s.version]);
    n := Append(buf, n, [ADDRESS_SEPARATOR]);
    n := Append(buf, n, s.signer);
    n := Append(buf, n, s.signature);
    n := AppendCompact(buf, n, s.nonce);
    n := Append(buf, n, [s.era]);
    assert buf[..n] == start + SignaturePart(s);
  }

  /** TransferExtrinsic::serializeBinary; nothing where a compact form would overrun its eight bytes. */
  method SerializeBinary(s: Signature, m: TransferMethod, buf: array<byte>) returns (n: Option<nat>)
    requires s.Sized() && m.Sized() && buf.Length >= 160
    modifies buf
    ensures n.None? <==> TransferBytes(s, m) == Overrun
    ensures n.Some? ==> n.value <= buf.Length && TransferBytes(s, m) == Bytes(buf[..n.value])
  {
    OverrunIff(m.amount);
    OverrunIff(s.nonce);
    var compactAmount := EncodeCompactInteger(m.amount);
    var compactNonce := EncodeCompactInteger(s.nonce);
    if compactAmount.Overrun? || compactNonce.Overrun? {
      return None;
    }
    var written := SerializeFitting(s, m, buf);
    n := Some(written);
  }

  method SerializeFitting(s: Signature, m: TransferMethod, buf: array<byte>) returns (n: nat)
    requires s.Valid() && m.Valid() && buf.Length >= 160
    modifies buf
    ensures n <= buf.Length && buf[..n] == Sent(TransferLength(s, m), s, MethodBytes(m))
  {
    var length := TransferLengthSum(s, m);
    n := AppendCompact(buf, 0, length);
    assert |CompactBytes(length)| <= 8 by { SevenBytes(length); }
    ghost var prefix := buf[..n];
    n := SerializeSignature(s, buf, n);
    n := SerializeMethodBinary(m, buf, n);
    assert prefix + SignaturePart(s) + MethodBytes(m) == prefix + (SignaturePart(s) + MethodBytes(m));
  }

  /** The sum serializeBinary computes for the length prefix. */
  method TransferLengthSum(s: Signature, m: TransferMethod) returns (length: nat)
    requires s.Valid() && m.Valid()
    ensures length == TransferLength(s, m) <= 150
  {
    SevenBytes(m.amount);
    SevenBytes(s.nonce);
    var compactAmount := EncodeCompactInteger(m.amount);
    var compactNonce := EncodeCompactInteger(s.nonce);
    length := 134 + |compactAmount.bytes| + |compactNonce.bytes|;
  }

  /** SignaturePayload::serializeBinary. */
  method SerializePayload(
    nonce: nat, message: seq<byte>, era: byte, blockHash: seq<byte>, buf: array<byte>) returns (n: nat)
    requires Fits(nonce) && |blockHash| == BLOCK_HASH_SIZE && buf.Length >= 8 + 255 + 1 + BLOCK_HASH_SIZE
    modifies buf
    ensures n <= buf.Length && buf[..n] == Payload(nonce, message, era, blockHash)
  {
    n := AppendCompact(buf, 0, nonce);
    n := Append(buf, n, message[..|message| % 256]);
    n := Append(buf, n, [era]);
    n := Append(buf, n, blockHash);
    assert buf[..n] == Payload(nonce, message, era, blockHash);
  }

  type SignatureBytes = s: seq<byte> | |s| == SIGNATURE_SIZE witness seq(SIGNATURE_SIZE, _ => 0)

  /** A signing function: public key, secret key and message to a signature. */
  type Signer = (seq<byte>, seq<byte>, seq<byte>) -> SignatureBytes

  /** signAndSendTransfer, from the keys on: what is signed holds the very method bytes and nonce bytes that
      are sent, and the text that is sent is the transfer with that signature. Nothing is sent where a compact
      form would overrun its eight bytes. */
  method SignAndSendTransfer(sender: seq<byte>, secret: seq<byte>, m: TransferMethod, nonce: nat,
                             genesis: seq<byte>, sign: Signer) returns (text: Option<string>)
    requires |sender| == PUBLIC_SIZE && m.Sized() && nonce < U128 && |genesis| == BLOCK_HASH_SIZE
    ensures text.Some? <==> Fits(m.amount) && Fits(nonce)
    ensures text.Some? ==>
              var message := [m.moduleIndex, m.methodIndex, 0xFF] + m.receiver + CompactBytes(m.amount);
              var signature := sign(sender, secret, CompactBytes(nonce) + message + [0] + genesis);
              var body := [0x81, 0xFF] + sender + signature + CompactBytes(nonce) + [0] + message;
              |body| <= 150 && text.value == "0x" + Hex(CompactBytes(|body|) + body, true)
  {
    if !Fits(m.amount) || !Fits(nonce) {
      return None;
    }
    var buf := new byte[MAX_METHOD_BYTES](_ => 0);
    var n := SerializeMethodBinary(m, buf, 0);
    var message := buf[..n];
    assert message == MethodBytes(m);
    PayloadHoldsTheMethod(nonce, message, 0, genesis);
    n := SerializePayload(nonce, message, 0, genesis, buf);
    var signature := sign(sender, secret, buf[..n]);
    var s := Signature(SIGNATURE_VERSION, sender, signature, nonce, 0);
    TransferLengthIsRight(s, m);
    n := SerializeFitting(s, m, buf);
    var sent := HexText(buf, n);
    text := Some(sent);
  }

  /** The loop that prints the buffer with %02X. */
  method HexText(buf: array<byte>, n: nat) returns (text: string)
    requires n <= buf.Length
    ensures text == "0x" + Hex(buf[..n], true)
  {
    text := "0x";
    for i := 0 to n
      invariant text == "0x" + Hex(buf[..i], true)
    {
      HexAppend(buf[..i], [buf[i]], true);
      assert buf[..i + 1] == buf[..i] + [buf[i]];
      text := text + Hex([buf[i]], true);
    }
  }
}
