/** SS58 addresses: getAddrFromPublicKey and getPublicKeyFromAddr of src/utils/address.cpp.
    The hash is a parameter: everything holds for any function from byte strings to 64-byte digests. */
module Ss58 {
  import opened Common
  import opened Numerals
  import opened Base58Text

  type Digest = d: seq<byte> | |d| == 64 witness seq(64, _ => 0)
  type Hash = seq<byte> -> Digest

  const NETWORK: byte := 0x2A
  const PREFIX: seq<byte> := [0x53, 0x53, 0x35, 0x38, 0x50, 0x52, 0x45]
  const PUBLIC_KEY_LENGTH := 32
  const ADDRESS_LENGTH := 48

  function Checksum(body: seq<byte>, hash: Hash): (c: seq<byte>)
    ensures |c| == 2
  {
    var digest := hash(PREFIX + body);
    [digest[0], digest[1]]
  }

  /** Network byte, key, two checksum bytes. */
  function Payload(key: seq<byte>, hash: Hash): seq<byte> {
    [NETWORK] + key + Checksum([NETWORK] + key, hash)
  }

  function Address(key: seq<byte>, hash: Hash): string {
    Encode(Payload(key, hash))
  }

  /** `BufferOverrun`: the decoder would write past the 48-byte array that getPublicKeyFromAddr gives it.
      `OutsideTable`: it would look up a character from 128 on in its 128-entry table. `TextTooShort`: 48
      characters would be copied from a shorter text. */
  datatype KeyResult = Key(bytes: seq<byte>) | ChecksumWrong | BufferOverrun | OutsideTable | TextTooShort

  /** The key an address stands for. Text that does not decode to 35 bytes yields the zero key, as in the
      source. */
  function KeyOf(addr: string, hash: Hash): KeyResult {
    DecodeBytes(addr);
    var d: seq<byte> := Decode(addr);
    if !SevenBit(addr) then OutsideTable
    else if |d| > ADDRESS_LENGTH then BufferOverrun
    else if |d| != 35 then Key(Zeros(PUBLIC_KEY_LENGTH))
    else if d[33..] != Checksum(d[..33], hash) then ChecksumWrong
    else Key(d[1..33])
  }

  /** The same from a text: its first 48 characters count, and the terminator is one of them if need be. */
  function KeyOfText(text: string, hash: Hash): KeyResult {
    if |text| + 1 < ADDRESS_LENGTH then TextTooShort else KeyOf((text + ['\0'])[..ADDRESS_LENGTH], hash)
  }

  // ---------------------------------------------------------------- the length of an address

  lemma {:induction false} LeadingByteBound(s: seq<nat>)
    requires Below(s, Base256) && s != [] && s[0] == NETWORK
    ensures 42 * Base256.Power(|s| - 1) <= ValueBE(s, Base256) < 43 * Base256.Power(|s| - 1)
  {
    var n := |s| - 1;
    if n == 0 {
      assert s[..0] == [];
    } else {
      LeadingByteBound(s[..n]);
    }
  }

  /** A power of the base, computed by adding exponents. */
  lemma PowerIs(b: Base, m: nat, x: nat, n: nat, y: nat)
    requires b.Power(m) == x && b.Power(n) == y
    ensures b.Power(m + n) == x * y
  {
    PowerAdd(b, m, n);
  }

  lemma AddressBounds()
    ensures Base58.Power(47) <= 42 * Base256.Power(34)
    ensures 43 * Base256.Power(34) <= Base58.Power(48)
  {
    assert Base58.Power(2) == 3364 && Base256.Power(2) == 65536;
    assert Base58.Power(3) == 195112;
    PowerIs(Base58, 3, 195112, 3, 195112);
    PowerIs(Base58, 6, 38068692544, 6, 38068692544);
    PowerIs(Base58, 12, 1449225352009601191936, 12, 1449225352009601191936);
    PowerIs(Base58, 24, 2100254120907352485526230505830591911428096, 12, 1449225352009601191936);
    PowerIs(Base58, 36, 3043741517681573408154032751732621616256793128331902261559033856, 6, 38068692544);
    PowerIs(Base58, 42, 115871260020027757769182095419415455604368209753879122781949129969750769664, 3, 195112);
    PowerIs(Base58, 45, 22607873285027655873860657001472988373879490141498863404231658646658012170682368, 2, 3364);
    PowerIs(Base256, 2, 65536, 2, 65536);
    PowerIs(Base256, 4, 4294967296, 4, 4294967296);
    PowerIs(Base256, 8, 18446744073709551616, 8, 18446744073709551616);
    PowerIs(Base256, 16, 340282366920938463463374607431768211456, 16, 340282366920938463463374607431768211456);
    PowerIs(Base256, 32, 115792089237316195423570985008687907853269984665640564039457584007913129639936, 2, 65536);
  }

  /** An address takes 48 digits: one more than the len * 137 / 100 the encoder allocates for 35 bytes. */
  lemma {:induction false} PayloadDigits(payload: seq<byte>)
    requires |payload| == 35 && payload[0] == NETWORK
    ensures |Convert(payload, Base256, Base58)| == 48 == 35 * 137 / 100 + 1
    ensures LeadingZeros(payload) == 0
  {
    PayloadValue(payload);
    ConvertLength(payload, Base256, Base58, 47);
    ConvertLength(payload, Base256, Base58, 48);
  }

  lemma {:induction false} PayloadValue(payload: seq<nat>)
    requires |payload| == 35 && Below(payload, Base256) && payload[0] == NETWORK
    ensures Base58.Power(47) <= ValueBE(payload, Base256) < Base58.Power(48)
  {
    LeadingByteBound(payload);
    AddressBounds();
  }

  lemma {:induction false} AddressLength(key: seq<byte>, hash: Hash)
    requires |key| == PUBLIC_KEY_LENGTH
    ensures |Address(key, hash)| == ADDRESS_LENGTH && InAlphabet(Address(key, hash))
  {
    PayloadDigits(Payload(key, hash));
    EncodeShape(Payload(key, hash));
  }

  /** 58^11 exceeds 256^8, so eleven digits per eight bytes always suffice. */
  lemma {:induction false} DigitsPerByte(n: nat, k: nat)
    requires 8 * k >= 11 * n
    ensures Base256.Power(n) <= Base58.Power(k)
  {
    if n >= 8 {
      DigitsPerByte(n - 8, k - 11);
      EightBytes(n - 8, k - 11);
    } else {
      PowerMonotone(Base58, (11 * n + 7) / 8, k);
      SmallPowers(n);
    }
  }

  lemma SmallPowers(n: nat)
    requires n < 8
    ensures Base256.Power(n) <= Base58.Power((11 * n + 7) / 8)
  {
    assert Base58.Power(2) == 3364 && Base58.Power(3) == 195112 && Base58.Power(5) == 656356768;
    assert Base58.Power(6) == 38068692544 && Base58.Power(7) == 2207984167552;
    assert Base58.Power(9) == 7427658739644928 && Base58.Power(10) == 430804206899405824;
    assert Base256.Power(2) == 0x1_0000 && Base256.Power(3) == 0x100_0000 && Base256.Power(4) == 0x1_0000_0000;
    assert Base256.Power(5) == 0x100_0000_0000 && Base256.Power(6) == 0x1_0000_0000_0000;
    assert Base256.Power(7) == 0x100_0000_0000_0000;
  }

  lemma EightBytes(n: nat, k: nat)
    requires Base256.Power(n) <= Base58.Power(k)
    ensures Base256.Power(n + 8) <= Base58.Power(k + 11)
  {
    assert Base256.Power(4) == 0x1_0000_0000;
    PowerIs(Base256, 4, 0x1_0000_0000, 4, 0x1_0000_0000);
    assert Base58.Power(6) == 38068692544 && Base58.Power(5) == 656356768;
    PowerIs(Base58, 6, 38068692544, 5, 656356768);
    PowerAdd(Base256, n, 8);
    PowerAdd(Base58, k, 11);
  }

  /** A scratch array of len * 138 / 100 + 1 digits is enough for every input. */
  lemma {:induction false} ScratchBound(bytes: seq<byte>)
    ensures |Convert(bytes, Base256, Base58)| <= |bytes| * 138 / 100 + 1
  {
    var c := |bytes| * 138 / 100 + 1;
    ValueBEBound(bytes, Base256);
    DigitsPerByte(|bytes|, c);
    ConvertLength(bytes, Base256, Base58, c);
  }

  lemma {:induction false} ValueBEBound(ds: seq<nat>, b: Base)
    requires Below(ds, b)
    ensures ValueBE(ds, b) < b.Power(|ds|)
  {
    ValueBEReverse(ds, b);
    ValueBound(Reverse(ds), b);
  }

  // ---------------------------------------------------------------- round trips

  /** A generated address decodes to exactly the 35 payload bytes and gives the key back. */
  lemma {:induction false} KeyOfAddress(key: seq<byte>, hash: Hash)
    requires |key| == PUBLIC_KEY_LENGTH
    ensures Decode(Address(key, hash)) == Payload(key, hash)
    ensures KeyOf(Address(key, hash), hash) == Key(key)
  {
    var p := Payload(key, hash);
    assert p[0] == NETWORK;
    DecodeEncode(p);
    AddressLength(key, hash);
    AlphabetIsSevenBit(Address(key, hash));
    assert p[..33] == [NETWORK] + key && p[33..] == Checksum(p[..33], hash) && p[1..33] == key;
  }

  /** Text that passes the checksum is the address of its key exactly when its network byte is 42: the
      source reads that byte but never tests it. */
  lemma {:induction false} AddressOfKey(addr: string, hash: Hash)
    requires InAlphabet(addr) && |Decode(addr)| == 35 && KeyOf(addr, hash).Key?
    ensures Address(KeyOf(addr, hash).bytes, hash) == addr <==> Decode(addr)[0] == NETWORK
  {
    DecodeBytes(addr);
    var d: seq<byte> := Decode(addr);
    var key := KeyOf(addr, hash).bytes;
    assert d == [d[0]] + key + Checksum(d[..33], hash);
    assert d[..33] == [d[0]] + key;
    if d[0] == NETWORK {
      assert d == Payload(key, hash);
      EncodeDecode(addr);
      if !HasSymbolBesideOne(addr) { AllOnes(addr); }
    } else if Address(key, hash) == addr {
      KeyOfAddress(key, hash);
    }
  }

  lemma {:induction false} AllOnes(addr: string)
    requires !HasSymbolBesideOne(addr)
    ensures Decode(addr) == Zeros(|addr| + 1)
  {
    assert SymbolDigits(addr) == Zeros(|addr|);
    RecodeZeros(|addr|, Base58, Base256);
  }

  lemma {:induction false} PowersCompare(n: nat)
    ensures Base58.Power(n) <= Base256.Power(n)
  {
    if n > 0 { PowersCompare(n - 1); }
  }

  /** Alphabet text fits the array it is decoded into, except for the text made only of '1'. */
  lemma {:induction false} DecodeFits(addr: string)
    requires InAlphabet(addr)
    ensures |Decode(addr)| <= |addr| <==> HasSymbolBesideOne(addr)
  {
    var ds := SymbolDigits(addr);
    var z := LeadingZeros(ds);
    if z < |ds| {
      assert addr[z] != '1';
      assert ds == Zeros(z) + ds[z..];
      ConvertFits(z, ds[z..]);
    } else {
      AllOnes(addr);
    }
  }

  lemma {:induction false} ConvertFits(z: nat, s: seq<nat>)
    requires Below(s, Base58) && s != []
    ensures |Convert(Zeros(z) + s, Base58, Base256)| <= |s|
  {
    ValueBELeadingZeros(z, s, Base58);
    ValueBEBound(s, Base58);
    PowersCompare(|s|);
    ConvertLength(Zeros(z) + s, Base58, Base256, |s|);
  }

  /** So a 48-character alphabet text overruns the array only if it is forty-eight times '1'. */
  lemma {:induction false} OverrunOnlyOnes(addr: string, hash: Hash)
    requires |addr| == ADDRESS_LENGTH && InAlphabet(addr)
    ensures KeyOf(addr, hash) == BufferOverrun <==> !HasSymbolBesideOne(addr)
  {
    AlphabetIsSevenBit(addr);
    DecodeFits(addr);
  }

  // ---------------------------------------------------------------- text outside the alphabet

  /** The digit of a character outside the alphabet, and the largest digit there is. */
  const UNKNOWN := U32 - 1

  lemma {:induction false} AbsorbAtMost(ds: seq<nat>, carry: nat)
    requires Below(ds, Base256) && carry < U32
    ensures Value(Absorb(ds, Base58, Base256, carry), Base256) <= carry + 58 * Value(ds, Base256)
    decreases |ds|
  {
    if ds == [] {
      CarryDigitsValue(carry, Base256);
    } else {
      var c := Wrap(carry + 58 * ds[0]);
      AbsorbAtMost(ds[1..], c / 256);
      ValueCons(c % 256, Absorb(ds[1..], Base58, Base256, c / 256), Base256);
    }
  }

  /** Above the lowest digit the carry never wraps, and a top digit stays. */
  lemma {:induction false} AbsorbKeepsTop(ds: seq<nat>, carry: nat)
    requires Below(ds, Base256) && carry < U32 / 256 && ds != [] && ds[|ds| - 1] != 0
    ensures var r := Absorb(ds, Base58, Base256, carry); r != [] && r[|r| - 1] != 0
    decreases |ds|
  {
    var c := carry + 58 * ds[0];
    if |ds| > 1 {
      AbsorbKeepsTop(ds[1..], c / 256);
    } else {
      assert ds[1..] == [];
      CarryDigitsValue(c / 256, Base256);
    }
  }

  lemma {:induction false} AbsorbAnyCanonical(ds: seq<nat>, carry: nat)
    requires Canonical(ds, Base256) && carry < U32
    ensures Canonical(Absorb(ds, Base58, Base256, carry), Base256)
  {
    var c := Wrap(carry + 58 * ds[0]);
    AbsorbBelow(ds, Base58, Base256, carry);
    if |ds| > 1 {
      AbsorbKeepsTop(ds[1..], c / 256);
    } else {
      assert ds[1..] == [];
      CarryDigitsValue(c / 256, Base256);
    }
  }

  ghost predicate WordDigits(s: seq<nat>) { forall i :: 0 <= i < |s| ==> s[i] < U32 }

  /** The number is at most UNKNOWN * (1 + 58 + ... + 58^(n - 1)). */
  ghost predicate Bounded(ds: seq<nat>, n: nat) {
    Canonical(ds, Base256) && 57 * Value(ds, Base256) + UNKNOWN <= UNKNOWN * Base58.Power(n)
  }

  lemma GeometricStep(v: nat, w: nat, carry: nat, p: nat)
    requires 57 * v + UNKNOWN <= UNKNOWN * p && w <= carry + 58 * v && carry <= UNKNOWN
    ensures 57 * w + UNKNOWN <= UNKNOWN * (58 * p)
  {
  }

  lemma {:induction false} BoundStep(ds: seq<nat>, carry: nat, n: nat)
    requires Bounded(ds, n) && carry < U32
    ensures Bounded(Absorb(ds, Base58, Base256, carry), n + 1)
  {
    var r := Absorb(ds, Base58, Base256, carry);
    AbsorbAtMost(ds, carry);
    AbsorbAnyCanonical(ds, carry);
    GeometricStep(Value(ds, Base256), Value(r, Base256), carry, Base58.Power(n));
  }

  lemma {:induction false} ConvertSnoc(input: seq<nat>, d: nat)
    ensures Convert(input + [d], Base58, Base256) == Absorb(Convert(input, Base58, Base256), Base58, Base256, d)
  {
    assert (input + [d])[..|input|] == input;
  }

  /** Whatever the characters, the bytes are canonical and their number is bounded by a geometric sum. */
  lemma {:induction false} ConvertAtMost(z: nat, s: seq<nat>)
    requires WordDigits(s)
    ensures Bounded(Convert(Zeros(z) + s, Base58, Base256), |s|)
  {
    if s == [] {
      assert Zeros(z) + s == Zeros(z);
      ConvertZeros(z);
    } else {
      var n := |s| - 1;
      ConvertAtMost(z, s[..n]);
      assert Zeros(z) + s == (Zeros(z) + s[..n]) + [s[n]];
      ConvertSnoc(Zeros(z) + s[..n], s[n]);
      BoundStep(Convert(Zeros(z) + s[..n], Base58, Base256), s[n], n);
    }
  }

  /** With thirteen characters or more after the '1's there is room. */
  lemma {:induction false} BoundedFits(ds: seq<nat>, m: nat)
    requires m >= 13 && Bounded(ds, m)
    ensures |ds| <= m
  {
    ThirteenSuffice(m);
    CanonicalLength(ds, Base256, m);
  }

  lemma {:induction false} ConvertZeros(z: nat)
    ensures Convert(Zeros(z), Base58, Base256) == [0]
  {
    ValueBELeadingZeros(z, [], Base58);
    assert Zeros(z) + [] == Zeros(z);
    ConvertValue(Zeros(z), Base58, Base256);
    CanonicalUnique(Convert(Zeros(z), Base58, Base256), [0], Base256);
  }

  lemma {:induction false} ThirteenSuffice(m: nat)
    requires m >= 13
    ensures UNKNOWN * Base58.Power(m) <= 57 * Base256.Power(m)
  {
    if m > 13 {
      ThirteenSuffice(m - 1);
    } else {
      assert Base58.Power(3) == 195112 && Base58.Power(1) == 58;
      PowerIs(Base58, 3, 195112, 3, 195112);
      PowerIs(Base58, 6, 38068692544, 6, 38068692544);
      PowerIs(Base58, 12, 1449225352009601191936, 1, 58);
      TwelveBytes();
    }
  }

  lemma TwelveBytes()
    ensures Base256.Power(12) == 79228162514264337593543950336 && Base256.Power(13) == 20282409603651670423947251286016
  {
    assert Base256.Power(1) == 256 && Base256.Power(4) == 4294967296;
    PowerIs(Base256, 4, 4294967296, 4, 4294967296);
    PowerIs(Base256, 8, 18446744073709551616, 4, 4294967296);
    PowerIs(Base256, 12, 79228162514264337593543950336, 1, 256);
  }

  lemma {:induction false} TwelveDoNot(m: nat)
    requires 1 <= m <= 12
    ensures UNKNOWN * Base58.Power(m - 1) >= Base256.Power(m)
    decreases 12 - m
  {
    if m < 12 {
      TwelveDoNot(m + 1);
    } else {
      assert Base58.Power(5) == 656356768 && Base58.Power(6) == 38068692544;
      PowerIs(Base58, 6, 38068692544, 5, 656356768);
      TwelveBytes();
    }
  }

  /** The number is UNKNOWN, k digits further up. */
  ghost predicate Shifted(ds: seq<nat>, k: nat) {
    Canonical(ds, Base256) && Value(ds, Base256) == UNKNOWN * Base58.Power(k)
  }

  lemma {:induction false} UnknownAlone()
    ensures Shifted(Absorb([0], Base58, Base256, UNKNOWN), 0)
  {
    AbsorbAnyCanonical([0], UNKNOWN);
    assert [0][1..] == [];
    CarryDigitsValue(UNKNOWN / 256, Base256);
    ValueCons(UNKNOWN % 256, CarryDigits(UNKNOWN / 256, Base256), Base256);
  }

  lemma {:induction false} OneMore(ds: seq<nat>, k: nat)
    requires Shifted(ds, k)
    ensures Shifted(Absorb(ds, Base58, Base256, 0), k + 1)
  {
    AbsorbCanonical(ds, Base58, Base256, 0);
  }

  /** One unknown character, then '1's. */
  lemma {:induction false} UnknownThenOnes(z: nat, k: nat)
    ensures Shifted(Convert(Zeros(z) + [UNKNOWN] + Zeros(k), Base58, Base256), k)
  {
    if k == 0 {
      assert Zeros(z) + [UNKNOWN] + Zeros(0) == Zeros(z) + [UNKNOWN];
      ConvertSnoc(Zeros(z), UNKNOWN);
      ConvertZeros(z);
      UnknownAlone();
    } else {
      var input := Zeros(z) + [UNKNOWN] + Zeros(k - 1);
      UnknownThenOnes(z, k - 1);
      assert Zeros(z) + [UNKNOWN] + Zeros(k) == input + [0];
      ConvertSnoc(input, 0);
      OneMore(Convert(input, Base58, Base256), k - 1);
    }
  }

  lemma {:induction false} ShiftedIsLong(ds: seq<nat>, k: nat)
    requires Shifted(ds, k) && k < 12
    ensures |ds| > k + 1
  {
    TwelveDoNot(k + 1);
    CanonicalLength(ds, Base256, k + 1);
  }

  function Ones(s: string): nat { LeadingZeros(SymbolDigits(s)) }

  /** The array overruns exactly if the bytes after the zeros outnumber the characters after the '1's. */
  lemma {:induction false} OverrunIsLength(addr: string, hash: Hash)
    requires |addr| == ADDRESS_LENGTH
    ensures KeyOf(addr, hash) == BufferOverrun
       <==> SevenBit(addr) && |Convert(SymbolDigits(addr), Base58, Base256)| > ADDRESS_LENGTH - Ones(addr)
  {
  }

  /** Any text of 48 characters that overruns the array starts with at least 36 times '1'. */
  lemma {:induction false} OverrunNeedsOnes(addr: string, hash: Hash)
    requires |addr| == ADDRESS_LENGTH && SevenBit(addr) && KeyOf(addr, hash) == BufferOverrun
    ensures Ones(addr) >= 36
  {
    var ds := SymbolDigits(addr);
    var z := LeadingZeros(ds);
    OverrunIsLength(addr, hash);
    if z < 36 {
      var s := ds[z..];
      assert ds == Zeros(z) + s;
      ConvertAtMost(z, s);
      BoundedFits(Convert(ds, Base58, Base256), |s|);
    }
  }

  /** From 36 on there is such a text: the '1's, one character outside the alphabet, and '1's again. */
  lemma {:induction false} UnknownOverruns(z: nat, hash: Hash) returns (addr: string)
    requires 36 <= z < ADDRESS_LENGTH
    ensures |addr| == ADDRESS_LENGTH && SevenBit(addr) && Ones(addr) == z && KeyOf(addr, hash) == BufferOverrun
  {
    var k := ADDRESS_LENGTH - 1 - z;
    addr := seq(z, _ => '1') + ['I'] + seq(k, _ => '1');
    var ds := SymbolDigits(addr);
    assert ds == Zeros(z) + [UNKNOWN] + Zeros(k);
    assert ds == Zeros(z) + ([UNKNOWN] + Zeros(k));
    LeadingZerosAppend(z, [UNKNOWN] + Zeros(k));
    UnknownThenOnes(z, k);
    ShiftedIsLong(Convert(ds, Base58, Base256), k);
    OverrunIsLength(addr, hash);
  }

  ghost predicate Overruns(addr: string, ones: nat, hash: Hash) {
    |addr| == ADDRESS_LENGTH && SevenBit(addr) && Ones(addr) == ones && KeyOf(addr, hash) == BufferOverrun
  }

  /** So 36 is the exact number of leading '1's from which on an overrun is possible. */
  lemma {:induction false} OverrunThreshold(ones: nat, hash: Hash)
    requires ones <= ADDRESS_LENGTH
    ensures (exists addr :: Overruns(addr, ones, hash)) <==> ones >= 36
  {
    if 36 <= ones < ADDRESS_LENGTH {
      var addr := UnknownOverruns(ones, hash);
      assert Overruns(addr, ones, hash);
    } else if ones == ADDRESS_LENGTH {
      var addr := seq(ADDRESS_LENGTH, _ => '1');
      AllOnes(addr);
      assert SymbolDigits(addr) == Zeros(ADDRESS_LENGTH);
      assert Overruns(addr, ones, hash);
    } else if addr :| Overruns(addr, ones, hash) {
      OverrunNeedsOnes(addr, hash);
    }
  }

  // ---------------------------------------------------------------- the two operations

  method GetAddrFromPublicKey(key: seq<byte>, hash: Hash) returns (addr: string)
    requires |key| == PUBLIC_KEY_LENGTH
    ensures addr == Address(key, hash)
    ensures |addr| == ADDRESS_LENGTH && InAlphabet(addr)
    ensures KeyOf(addr, hash) == Key(key)
    ensures var digest := hash([0x53, 0x53, 0x35, 0x38, 0x50, 0x52, 0x45, 0x2A] + key);
            Decode(addr) == [0x2A] + key + [digest[0], digest[1]]
  {
    assert PREFIX + ([NETWORK] + key) == [0x53, 0x53, 0x35, 0x38, 0x50, 0x52, 0x45, 0x2A] + key;
    var plain := [NETWORK] + key;
    var digest := hash(PREFIX + plain);
    plain := plain + [digest[0], digest[1]];
    AddressLength(key, hash);
    PayloadDigits(plain);
    KeyOfAddress(key, hash);
    EncodeDigits(plain);
    var text := new char[1024](_ => '\0');
    var n := EncodeBase58(plain, 48, text);
    addr := Before(text[..], '\0');
    assert text[..][n] == '\0';
    FirstNul(text[..], Encode(plain));
  }

  lemma {:induction false} FirstNul(s: string, t: string)
    requires InAlphabet(t) && t < s && s[|t|] == '\0'
    ensures Before(s, '\0') == t
  {
    if t != [] {
      FirstNul(s[1..], t[1..]);
    }
  }

  /** The overload for text copies 48 characters, whatever the length of the text. */
  method GetPublicKeyFromText(text: string, hash: Hash) returns (r: KeyResult)
    ensures r == KeyOfText(text, hash)
    ensures forall key :: |key| == PUBLIC_KEY_LENGTH && Address(key, hash) <= text ==> r == Key(key)
  {
    forall key | |key| == PUBLIC_KEY_LENGTH && Address(key, hash) <= text
      ensures KeyOfText(text, hash) == Key(key)
    {
      AddressLength(key, hash);
      KeyOfAddress(key, hash);
      assert (text + ['\0'])[..ADDRESS_LENGTH] == Address(key, hash);
    }
    if |text| + 1 < ADDRESS_LENGTH {
      return TextTooShort;
    }
    r := GetPublicKeyFromAddr((text + ['\0'])[..ADDRESS_LENGTH], hash);
  }

  /** What each outcome means. The prefix is the text SS58PRE. */
  lemma {:induction false} KeyOfCases(addr: string, hash: Hash)
    ensures var r, d := KeyOf(addr, hash), Decode(addr);
            && (r == OutsideTable <==> exists i :: 0 <= i < |addr| && addr[i] as int >= 128)
            && (r == BufferOverrun <==> r != OutsideTable && |d| > 48) && r != TextTooShort
            && (r == ChecksumWrong ==> |d| == 35) && (r.Key? && |d| != 35 ==> r.bytes == seq(32, _ => 0))
            && (|d| == 35 ==> Below(d, Base256))
            && (|d| == 35 && (r.Key? || r == ChecksumWrong) ==>
                  var body: seq<byte> := d[..33];
                  var digest := hash([0x53, 0x53, 0x35, 0x38, 0x50, 0x52, 0x45] + body);
                  && (r.Key? <==> d[33] == digest[0] && d[34] == digest[1])
                  && (r.Key? ==> r.bytes == d[1..33]))
  {
    DecodeBytes(addr);
    if |Decode(addr)| == 35 {
      var d: seq<byte> := Decode(addr);
      var digest := hash(PREFIX + d[..33]);
      assert d[33..] == [d[33], d[34]] && Checksum(d[..33], hash) == [digest[0], digest[1]];
    }
  }

  method GetPublicKeyFromAddr(addr: string, hash: Hash) returns (r: KeyResult)
    requires |addr| == ADDRESS_LENGTH
    ensures r == KeyOf(addr, hash)
  {
    if !SevenBit(addr) {
      return OutsideTable;
    }
    DecodeBytes(addr);
    if |Decode(addr)| > ADDRESS_LENGTH {
      return BufferOverrun;
    }
    var decoded := new byte[ADDRESS_LENGTH](_ => 0);
    var len := DecodeBase58(addr, decoded);
    if len == Some(35) {
      var digest := hash(PREFIX + decoded[..33]);
      ghost var d: seq<byte> := Decode(addr);
      assert decoded[..35] == d && d[..33] == decoded[..33] && d[33..] == [decoded[33], decoded[34]];
      assert Checksum(d[..33], hash) == [digest[0], digest[1]];
      assert [decoded[33], decoded[34]] == [digest[0], digest[1]]
             <==> decoded[33] == digest[0] && decoded[34] == digest[1];
      if decoded[33] != digest[0] || decoded[34] != digest[1] {
        return ChecksumWrong;
      }
      return Key(decoded[1..33]);
    }
    r := Key(Zeros(PUBLIC_KEY_LENGTH));
  }
}
