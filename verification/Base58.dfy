/** Base58 text as src/utils/address.cpp writes and reads it.

    Both directions run one algorithm: multiply a little-endian digit array by the source base, add the next
    digit, and let the carry run. `Recode` is that algorithm on sequences; the methods run it in place on
    arrays and are proved to compute it. */
module Base58Text {
  import opened Common
  import opened Numerals

  /** The alphabet, as its six runs: 1-9, A-H, J-N, P-Z, a-k, m-z. */
  function Symbol(d: nat): (c: char)
    requires d < 58
    ensures SymbolDigit(c) == d
  {
    (if d < 9 then d + '1' as int
     else if d < 17 then d - 9 + 'A' as int
     else if d < 22 then d - 17 + 'J' as int
     else if d < 33 then d - 22 + 'P' as int
     else if d < 44 then d - 33 + 'a' as int
     else d - 44 + 'm' as int) as char
  }

  /** The decoder's character table. A character outside the alphabet has the entry -1, which the decoder
      loads as an unsigned 32-bit number. */
  function SymbolDigit(c: char): nat {
    if '1' <= c <= '9' then c as int - '1' as int
    else if 'A' <= c <= 'H' then c as int - 'A' as int + 9
    else if 'J' <= c <= 'N' then c as int - 'J' as int + 17
    else if 'P' <= c <= 'Z' then c as int - 'P' as int + 22
    else if 'a' <= c <= 'k' then c as int - 'a' as int + 33
    else if 'm' <= c <= 'z' then c as int - 'm' as int + 44
    else U32 - 1
  }

  /** The runs spell the alphabet of the source. */
  lemma {:induction false} AlphabetIs(d: nat)
    requires d < 58
    ensures Symbol(d) == if d < 9 then "123456789"[d] else if d < 17 then "ABCDEFGH"[d - 9]
                         else if d < 22 then "JKLMN"[d - 17] else if d < 33 then "PQRSTUVWXYZ"[d - 22]
                         else if d < 44 then "abcdefghijk"[d - 33] else "mnopqrstuvwxyz"[d - 44]
  {
  }

  /** Every other character loads -1 as an unsigned 32-bit number. */
  lemma {:induction false} TableIs(c: char)
    ensures SymbolDigit(c) < 58 ==> Symbol(SymbolDigit(c)) == c
    ensures (forall d :: 0 <= d < 58 ==> Symbol(d) != c) ==> SymbolDigit(c) == 0xFFFF_FFFF
  {
    if SymbolDigit(c) < 58 {
      assert Symbol(SymbolDigit(c)) == c;
    }
  }

  function Symbols(ds: seq<nat>): (s: string)
    requires Below(ds, Base58)
    ensures |s| == |ds| && forall i :: 0 <= i < |ds| ==> s[i] == Symbol(ds[i])
  {
    seq(|ds|, i requires 0 <= i < |ds| => Symbol(ds[i]))
  }

  function SymbolDigits(s: string): (ds: seq<nat>)
    ensures |ds| == |s| && forall i :: 0 <= i < |s| ==> ds[i] == SymbolDigit(s[i])
  {
    seq(|s|, i requires 0 <= i < |s| => SymbolDigit(s[i]))
  }

  /** Text made of alphabet characters only. */
  predicate InAlphabet(s: string) {
    forall i :: 0 <= i < |s| ==> SymbolDigit(s[i]) < 58
  }

  /** Text whose characters all have an entry in the decoder's table. */
  predicate SevenBit(s: string) { forall i :: 0 <= i < |s| ==> s[i] as int < 128 }

  lemma {:induction false} AlphabetIsSevenBit(s: string)
    requires InAlphabet(s)
    ensures SevenBit(s)
  {
    forall i | 0 <= i < |s| ensures s[i] as int < 128 {
      assert SymbolDigit(s[i]) < 58;
    }
  }

  // ---------------------------------------------------------------- the conversion on sequences

  /** The digits a run-off carry adds above the array. */
  function CarryDigits(carry: nat, to: Base): seq<nat> {
    if carry == 0 then [] else [to.Remainder(carry)] + CarryDigits(to.Quotient(carry), to)
  }

  /** Unsigned 32-bit wrap-around. */
  function Wrap(x: nat): nat { if x < U32 then x else x % U32 }

  /** One pass over the digit array: times `from`, plus `carry`, in unsigned 32-bit arithmetic. */
  function Absorb(ds: seq<nat>, from: Base, to: Base, carry: nat): seq<nat>
    decreases |ds|
  {
    if ds == [] then CarryDigits(carry, to)
    else
      var c := Wrap(carry + from.Times(ds[0]));
      [to.Remainder(c)] + Absorb(ds[1..], from, to, to.Quotient(c))
  }

  /** All passes: the array starts as the single digit zero. */
  function Convert(input: seq<nat>, from: Base, to: Base): seq<nat> {
    if input == [] then [0]
    else Absorb(Convert(input[..|input| - 1], from, to), from, to, input[|input| - 1])
  }

  function LeadingZeros(s: seq<nat>): (n: nat)
    ensures n <= |s| && (forall i :: 0 <= i < n ==> s[i] == 0) && (n < |s| ==> s[n] != 0)
  {
    if s == [] || s[0] != 0 then 0 else 1 + LeadingZeros(s[1..])
  }

  function Zeros(n: nat): (z: seq<nat>)
    ensures |z| == n && forall i :: 0 <= i < n ==> z[i] == 0
  {
    seq(n, _ => 0)
  }

  /** A big-endian digit string in the other base: leading zeros are kept one for one. */
  function Recode(input: seq<nat>, from: Base, to: Base): seq<nat> {
    Zeros(LeadingZeros(input)) + Reverse(Convert(input, from, to))
  }

  // ---------------------------------------------------------------- what the conversion computes

  lemma {:induction false} CarryDigitsValue(carry: nat, to: Base)
    ensures Value(CarryDigits(carry, to), to) == carry
    ensures Below(CarryDigits(carry, to), to)
    ensures var ds := CarryDigits(carry, to); ds != [] ==> ds[|ds| - 1] != 0
  {
    if carry > 0 {
      CarryDigitsValue(to.Quotient(carry), to);
      assert CarryDigits(carry, to)[1..] == CarryDigits(to.Quotient(carry), to);
    }
  }

  /** One step of a pass. The carry never outgrows the source base, so 32-bit arithmetic is exact. */
  lemma AbsorbStep(ds: seq<nat>, from: Base, to: Base, carry: nat) returns (r: nat, q: nat)
    requires carry < from.Size() && ds != [] && ds[0] < to.Size()
    ensures r < to.Size() && q < from.Size() && carry + from.Times(ds[0]) == r + to.Times(q)
    ensures Absorb(ds, from, to, carry) == [r] + Absorb(ds[1..], from, to, q)
  {
    var c := carry + from.Times(ds[0]);
    r, q := to.Remainder(c), to.Quotient(c);
  }

  lemma {:induction false} AbsorbValue(ds: seq<nat>, from: Base, to: Base, carry: nat)
    requires carry < from.Size() && Below(ds, to)
    ensures Value(Absorb(ds, from, to, carry), to) == carry + from.Times(Value(ds, to))
    ensures Below(Absorb(ds, from, to, carry), to)
    decreases |ds|
  {
    if ds == [] {
      CarryDigitsValue(carry, to);
    } else {
      var r, q := AbsorbStep(ds, from, to, carry);
      AbsorbValue(ds[1..], from, to, q);
      var rest := Absorb(ds[1..], from, to, q);
      ValueCons(r, rest, to);
      calc {
        r + to.Times(q + from.Times(Value(ds[1..], to)));
        { Regroup(from, to, q, ds[0], Value(ds[1..], to)); }
        carry + from.Times(ds[0] + to.Times(Value(ds[1..], to)));
      }
    }
  }

  lemma Regroup(from: Base, to: Base, q: nat, d: nat, v: nat)
    ensures to.Times(q + from.Times(v)) == to.Times(q) + from.Times(to.Times(v))
    ensures from.Times(d + to.Times(v)) == from.Times(d) + from.Times(to.Times(v))
  {
  }

  /** The pass keeps the digits canonical: a most significant digit that is not zero stays so. */
  lemma {:induction false} AbsorbTop(ds: seq<nat>, from: Base, to: Base, carry: nat)
    requires carry < from.Size() && Canonical(ds, to)
    ensures var r := Absorb(ds, from, to, carry); |r| >= |ds| && (|r| > 1 ==> r[|r| - 1] != 0)
    decreases |ds|
  {
    var r, q := AbsorbStep(ds, from, to, carry);
    if |ds| > 1 {
      AbsorbTop(ds[1..], from, to, q);
      if |ds| == 2 { SingleDigit(ds[1], from, to, q); }
    } else {
      CarryDigitsValue(q, to);
      assert ds[1..] == [];
    }
  }

  lemma SingleDigit(d: nat, from: Base, to: Base, carry: nat)
    requires carry < from.Size() && 0 < d < to.Size()
    ensures var r := Absorb([d], from, to, carry); r != [] && r[|r| - 1] != 0
  {
    var r, q := AbsorbStep([d], from, to, carry);
    assert [d][1..] == [];
    CarryDigitsValue(q, to);
  }

  lemma {:induction false} AbsorbCanonical(ds: seq<nat>, from: Base, to: Base, carry: nat)
    requires carry < from.Size() && Canonical(ds, to)
    ensures Canonical(Absorb(ds, from, to, carry), to)
    ensures Value(Absorb(ds, from, to, carry), to) == carry + from.Times(Value(ds, to))
  {
    AbsorbValue(ds, from, to, carry);
    AbsorbTop(ds, from, to, carry);
  }

  lemma {:induction false} ConvertValue(input: seq<nat>, from: Base, to: Base)
    requires Below(input, from)
    ensures Canonical(Convert(input, from, to), to)
    ensures Value(Convert(input, from, to), to) == ValueBE(input, from)
  {
    if input != [] {
      var n := |input| - 1;
      ConvertValue(input[..n], from, to);
      AbsorbCanonical(Convert(input[..n], from, to), from, to, input[n]);
    }
  }

  /** The scratch array needs at most `c` digits exactly when the number is below the c-th power of the
      target base. */
  lemma {:induction false} ConvertLength(input: seq<nat>, from: Base, to: Base, c: nat)
    requires Below(input, from) && c >= 1
    ensures |Convert(input, from, to)| <= c <==> ValueBE(input, from) < to.Power(c)
  {
    ConvertValue(input, from, to);
    CanonicalLength(Convert(input, from, to), to, c);
  }

  // ---------------------------------------------------------------- round trips

  lemma {:induction false} ValueBELeadingZeros(z: nat, s: seq<nat>, b: Base)
    ensures ValueBE(Zeros(z) + s, b) == ValueBE(s, b)
  {
    if s == [] {
      if z > 0 {
        ValueBELeadingZeros(z - 1, [], b);
        assert (Zeros(z) + [])[..z - 1] == Zeros(z - 1) + [];
      }
    } else {
      var n := |s| - 1;
      ValueBELeadingZeros(z, s[..n], b);
      assert (Zeros(z) + s)[..z + n] == Zeros(z) + s[..n];
    }
  }

  /** A big-endian string without leading zeros is the reversal of the canonical digits of its value. */
  lemma {:induction false} CanonicalReverse(s: seq<nat>, b: Base, ds: seq<nat>)
    requires Below(s, b) && s != [] && s[0] != 0
    requires Canonical(ds, b) && Value(ds, b) == ValueBE(s, b)
    ensures Reverse(ds) == s
  {
    ValueBEReverse(s, b);
    CanonicalUnique(ds, Reverse(s), b);
    ReverseTwice(s);
  }

  lemma {:induction false} PositiveTop(ds: seq<nat>, b: Base)
    requires Canonical(ds, b) && Value(ds, b) > 0
    ensures ds[|ds| - 1] != 0
  {
    if |ds| == 1 { assert Value(ds, b) == ds[0]; }
  }

  lemma {:induction false} NonzeroValue(s: seq<nat>, b: Base)
    requires Below(s, b) && s != [] && s[0] != 0
    ensures ValueBE(s, b) > 0
  {
    ValueBEReverse(s, b);
    CanonicalLower(Reverse(s), b);
  }

  /** Through the other base and back, for an input whose first digit other than zero is at z. */
  lemma {:induction false} RecodeBack(z: nat, s: seq<nat>, from: Base, to: Base)
    requires Below(s, from) && s != [] && s[0] != 0
    ensures var mid := Recode(Zeros(z) + s, from, to);
            Below(mid, to) && LeadingZeros(mid) == z && Recode(mid, to, from) == Zeros(z) + s
  {
    var input := Zeros(z) + s;
    var ds := Convert(input, from, to);
    var mid := Recode(input, from, to);
    LeadingZerosAppend(z, s);
    ValueBELeadingZeros(z, s, from);
    ConvertValue(input, from, to);
    NonzeroValue(s, from);
    PositiveTop(ds, to);
    LeadingZerosAppend(z, Reverse(ds));
    assert ValueBE(mid, to) == ValueBE(s, from) by {
      ValueBELeadingZeros(z, Reverse(ds), to);
      ValueBEReverse(Reverse(ds), to);
      ReverseTwice(ds);
    }
    ConvertValue(mid, to, from);
    CanonicalReverse(s, from, Convert(mid, to, from));
  }

  /** An all-zero string gains a zero: the digit array starts with one digit already in it. */
  lemma {:induction false} RecodeZeros(z: nat, from: Base, to: Base)
    ensures Recode(Zeros(z), from, to) == Zeros(z + 1)
  {
    ValueBELeadingZeros(z, [], from);
    assert Zeros(z) + [] == Zeros(z);
    ConvertValue(Zeros(z), from, to);
    CanonicalUnique(Convert(Zeros(z), from, to), [0], to);
  }

  lemma {:induction false} RecodeZerosTwice(z: nat, from: Base, to: Base)
    ensures Recode(Zeros(z), from, to) == Zeros(z + 1)
    ensures Recode(Zeros(z + 1), to, from) == Zeros(z + 2)
  {
    RecodeZeros(z, from, to);
    RecodeZeros(z + 1, to, from);
  }

  /** Converting to the other base and back gives the input back, leading zeros included, exactly when the
      input has a digit other than zero. */
  lemma {:induction false} RecodeInverse(input: seq<nat>, from: Base, to: Base)
    requires Below(input, from)
    ensures Below(Recode(input, from, to), to)
    ensures Recode(Recode(input, from, to), to, from) == input <==> LeadingZeros(input) < |input|
  {
    var z := LeadingZeros(input);
    assert input == Zeros(z) + input[z..];
    if z < |input| {
      RecodeBack(z, input[z..], from, to);
    } else {
      assert input == Zeros(z);
      RecodeZerosTwice(z, from, to);
    }
  }

  lemma {:induction false} LeadingZerosAppend(z: nat, s: seq<nat>)
    requires s != [] && s[0] != 0
    ensures LeadingZeros(Zeros(z) + s) == z
  {
    if z == 0 {
      assert Zeros(0) + s == s;
    } else {
      LeadingZerosAppend(z - 1, s);
      assert (Zeros(z) + s)[1..] == Zeros(z - 1) + s;
    }
  }

  // ---------------------------------------------------------------- Base58 proper

  function Encode(bytes: seq<byte>): string
  {
    EncodeDigits(bytes);
    Symbols(Recode(bytes, Base256, Base58))
  }

  lemma {:induction false} EncodeDigits(bytes: seq<byte>)
    ensures Below(Recode(bytes, Base256, Base58), Base58)
  {
    RecodeInverse(bytes, Base256, Base58);
  }

  function Decode(s: string): seq<nat> {
    Recode(SymbolDigits(s), Base58, Base256)
  }

  ghost predicate HasNonzeroByte(bytes: seq<byte>) {
    exists i :: 0 <= i < |bytes| && bytes[i] != 0
  }

  ghost predicate HasSymbolBesideOne(s: string) {
    exists i :: 0 <= i < |s| && s[i] != '1'
  }

  lemma {:induction false} DecodeEncode(bytes: seq<byte>)
    ensures Decode(Encode(bytes)) == bytes <==> HasNonzeroByte(bytes)
  {
    RecodeInverse(bytes, Base256, Base58);
    assert SymbolDigits(Encode(bytes)) == Recode(bytes, Base256, Base58);
  }

  /** Whatever the text, the decoder leaves bytes. */
  lemma {:induction false} DecodeBytes(s: string)
    ensures Below(Decode(s), Base256)
  {
    ConvertBelow(SymbolDigits(s), Base58, Base256);
  }

  lemma {:induction false} AbsorbBelow(ds: seq<nat>, from: Base, to: Base, carry: nat)
    ensures Below(Absorb(ds, from, to, carry), to)
    decreases |ds|
  {
    if ds == [] {
      CarryDigitsValue(carry, to);
    } else {
      AbsorbBelow(ds[1..], from, to, to.Quotient(Wrap(carry + from.Times(ds[0]))));
    }
  }

  lemma {:induction false} ConvertBelow(input: seq<nat>, from: Base, to: Base)
    ensures Below(Convert(input, from, to), to)
  {
    if input != [] {
      AbsorbBelow(Convert(input[..|input| - 1], from, to), from, to, input[|input| - 1]);
    }
  }

  lemma {:induction false} EncodeDecode(s: string)
    requires InAlphabet(s)
    ensures Below(Decode(s), Base256)
    ensures Encode(Decode(s)) == s <==> HasSymbolBesideOne(s)
  {
    var ds := SymbolDigits(s);
    DecodeBytes(s);
    RecodeInverse(ds, Base58, Base256);
    EncodeDigits(Decode(s));
    SymbolsEqual(Recode(Decode(s), Base256, Base58), s);
  }

  lemma {:induction false} SymbolsEqual(ds: seq<nat>, s: string)
    requires Below(ds, Base58) && InAlphabet(s)
    ensures Symbols(ds) == s <==> ds == SymbolDigits(s)
  {
    if Symbols(ds) == s {
      assert ds == SymbolDigits(s);
    }
    if ds == SymbolDigits(s) {
      forall i | 0 <= i < |s| ensures Symbol(SymbolDigit(s[i])) == s[i] { }
      assert Symbols(ds) == s;
    }
  }

  // ---------------------------------------------------------------- the loops of the source

  lemma {:induction false} AbsorbGrows(ds: seq<nat>, from: Base, to: Base, carry: nat)
    ensures |Absorb(ds, from, to, carry)| >= |ds|
    decreases |ds|
  {
    if ds != [] {
      AbsorbGrows(ds[1..], from, to, to.Quotient(Wrap(carry + from.Times(ds[0]))));
    }
  }

  lemma {:induction false} ConvertGrows(input: seq<nat>, from: Base, to: Base, i: nat)
    requires i <= |input|
    ensures |Convert(input[..i], from, to)| <= |Convert(input, from, to)|
    decreases |input|
  {
    if i == |input| {
      assert input[..i] == input;
    } else {
      var n := |input| - 1;
      ConvertGrows(input[..n], from, to, i);
      assert input[..n][..i] == input[..i];
      AbsorbGrows(Convert(input[..n], from, to), from, to, input[n]);
    }
  }

  lemma PassStep(done: seq<nat>, rest: seq<nat>, from: Base, to: Base, carry: nat)
    requires rest != []
    ensures var c := Wrap(carry + from.Times(rest[0]));
            done + Absorb(rest, from, to, carry)
            == done + [to.Remainder(c)] + Absorb(rest[1..], from, to, to.Quotient(c))
  {
  }

  /** The multiplying half of a carry pass: the first `len` entries, times `from`, plus the carry. */
  method MultiplyPass(digits: array<byte>, len: nat, from: Base, to: Base, digit: nat) returns (carry: nat)
    requires len <= digits.Length
    modifies digits
    ensures digits[..len] + CarryDigits(carry, to) == Absorb(old(digits[..len]), from, to, digit)
  {
    ghost var rest: seq<nat>, target := digits[..len], Absorb(digits[..len], from, to, digit);
    carry := digit;
    for j := 0 to len
      invariant digits[j..len] == rest
      invariant digits[..j] + Absorb(rest, from, to, carry) == target
    {
      PassStep(digits[..j], rest, from, to, carry);
      assert digits[j] == rest[0];
      var c := Wrap(carry + from.Times(digits[j]));
      ghost var done := digits[..j];
      digits[j], carry, rest := to.Remainder(c), to.Quotient(c), rest[1..];
      assert digits[..j + 1] == done + [to.Remainder(c)];
    }
  }

  lemma {:induction false} SpillStep(done: seq<nat>, carry: nat, to: Base, target: seq<nat>)
    requires carry > 0 && done + CarryDigits(carry, to) == target
    ensures |done| < |target|
    ensures (done + [to.Remainder(carry)]) + CarryDigits(to.Quotient(carry), to) == target
  {
    var d, rest := to.Remainder(carry), CarryDigits(to.Quotient(carry), to);
    assert CarryDigits(carry, to) == [d] + rest;
    assert done + ([d] + rest) == (done + [d]) + rest;
  }

  /** The run-off half: the carry that is left becomes new digits. */
  method SpillCarry(digits: array<byte>, len: nat, to: Base, carry0: nat) returns (n: nat)
    requires len + |CarryDigits(carry0, to)| <= digits.Length
    modifies digits
    ensures n == len + |CarryDigits(carry0, to)| && digits[..n] == old(digits[..len]) + CarryDigits(carry0, to)
  {
    var carry: nat := carry0;
    n := len;
    ghost var done: seq<nat>, target: seq<nat> := digits[..len], digits[..len] + CarryDigits(carry0, to);
    while carry > 0
      invariant len <= n <= digits.Length && |target| <= digits.Length && digits[..n] == done
      invariant done + CarryDigits(carry, to) == target
      decreases carry
    {
      SpillStep(done, carry, to, target);
      digits[n] := to.Remainder(carry);
      done := done + [to.Remainder(carry)];
      n, carry := n + 1, to.Quotient(carry);
    }
  }

  /** The outer loop of both directions: one carry pass per input digit. */
  method ConvertInPlace(input: seq<nat>, from: Base, to: Base, digits: array<byte>) returns (n: nat)
    requires |Convert(input, from, to)| <= digits.Length
    modifies digits
    ensures n <= digits.Length && digits[..n] == Convert(input, from, to)
  {
    ConvertGrows(input, from, to, 0);
    digits[0] := 0;
    n := 1;
    for i := 0 to |input|
      invariant 1 <= n <= digits.Length && digits[..n] == Convert(input[..i], from, to)
    {
      ConvertGrows(input, from, to, i + 1);
      assert input[..i + 1][..i] == input[..i];
      var carry := MultiplyPass(digits, n, from, to, input[i]);
      n := SpillCarry(digits, n, to, carry);
    }
    assert input[..|input|] == input;
  }

  /** Writes one '1' per leading zero byte. */
  method WriteOnes(bytes: seq<byte>, result: array<char>) returns (n: nat)
    requires LeadingZeros(bytes) <= result.Length
    modifies result
    ensures n == LeadingZeros(bytes) && result[..n] == Symbols(Zeros(n))
    ensures forall k :: n <= k < result.Length ==> result[k] == old(result[k])
  {
    n := 0;
    while n < |bytes| && bytes[n] == 0
      invariant n <= LeadingZeros(bytes)
      invariant forall k :: 0 <= k < n ==> result[k] == '1'
      invariant forall k :: n <= k < result.Length ==> result[k] == old(result[k])
    {
      result[n] := '1';
      n := n + 1;
    }
  }

  /** Writes the digits most significant first, as symbols, and terminates the text. */
  method WriteSymbols(digits: array<byte>, len: nat, result: array<char>, at: nat)
    requires len <= digits.Length && Below(digits[..len], Base58) && at + len < result.Length
    modifies result
    ensures result[..at + len] == old(result[..at]) + Symbols(Reverse(digits[..len]))
    ensures result[at + len] == '\0'
    ensures forall k :: at + len < k < result.Length ==> result[k] == old(result[k])
  {
    ghost var ds: seq<nat> := digits[..len];
    ghost var text := Symbols(Reverse(ds));
    for i := 0 to len
      invariant digits[..len] == ds && result[..at + i] == old(result[..at]) + text[..i]
      invariant forall k :: at + i <= k < result.Length ==> result[k] == old(result[k])
    {
      assert digits[len - 1 - i] == ds[len - 1 - i] == Reverse(ds)[i];
      ghost var before := result[..at + i];
      result[at + i] := Symbol(digits[len - 1 - i]);
      assert result[..at + i + 1] == before + [text[i]];
    }
    assert text[..len] == text;
    result[at + len] := '\0';
  }

  /** The text of an encoding: a '1' per leading zero byte, then the digits. */
  lemma EncodeShape(bytes: seq<byte>)
    ensures Below(Convert(bytes, Base256, Base58), Base58)
    ensures Encode(bytes) == Symbols(Zeros(LeadingZeros(bytes))) + Symbols(Reverse(Convert(bytes, Base256, Base58)))
  {
    ConvertValue(bytes, Base256, Base58);
    EncodeDigits(bytes);
  }

  /** EncodeBase58. `scratch` is the size of the digit array the source allocates. */
  method EncodeBase58(bytes: seq<byte>, scratch: nat, result: array<char>) returns (n: nat)
    requires |Convert(bytes, Base256, Base58)| <= scratch
    requires |Encode(bytes)| < result.Length
    modifies result
    ensures n == |Encode(bytes)| && result[..n] == Encode(bytes) && result[n] == '\0'
    ensures forall k :: n < k < result.Length ==> result[k] == old(result[k])
  {
    EncodeShape(bytes);
    var digits := new byte[scratch](_ => 0);
    var len := ConvertInPlace(bytes, Base256, Base58, digits);
    ghost var ds: seq<nat> := digits[..len];
    n := WriteOnes(bytes, result);
    WriteSymbols(digits, len, result, n);
    assert result[..n + len] == Symbols(Zeros(n)) + Symbols(Reverse(ds));
    n := n + len;
  }

  /** Appends one zero byte per leading '1'. */
  method AppendZeros(str: string, result: array<byte>, len: nat) returns (n: nat)
    requires len + LeadingZeros(SymbolDigits(str)) <= result.Length
    modifies result
    ensures n == len + LeadingZeros(SymbolDigits(str))
    ensures result[..n] == old(result[..len]) + Zeros(n - len)
  {
    ghost var ds := SymbolDigits(str);
    n := len;
    var i := 0;
    while i < |str| && str[i] == '1'
      invariant i <= LeadingZeros(ds) && n == len + i
      invariant result[..len] == old(result[..len]) && (forall k :: len <= k < n ==> result[k] == 0)
    {
      assert ds[i] == 0;
      result[n] := 0;
      n, i := n + 1, i + 1;
    }
  }

  /** DecodeBase58; nothing for text that the 128-entry table does not cover. */
  method DecodeBase58(str: string, result: array<byte>) returns (n: Option<nat>)
    requires SevenBit(str) ==> |Decode(str)| <= result.Length
    modifies result
    ensures n.Some? <==> SevenBit(str)
    ensures n.Some? ==> n.value == |Decode(str)| && result[..n.value] == Decode(str)
  {
    if !SevenBit(str) {
      return None;
    }
    var len := DecodeCovered(str, result);
    n := Some(len);
  }

  method DecodeCovered(str: string, result: array<byte>) returns (n: nat)
    requires |Decode(str)| <= result.Length
    modifies result
    ensures n == |Decode(str)| && result[..n] == Decode(str)
  {
    n := ConvertInPlace(SymbolDigits(str), Base58, Base256, result);
    ghost var le: seq<nat> := result[..n];
    n := AppendZeros(str, result, n);
    ReverseInPlace(result, n);
    ReverseJoined(le, LeadingZeros(SymbolDigits(str)));
  }

  lemma {:induction false} ReverseJoined(ds: seq<nat>, z: nat)
    ensures Reverse(ds + Zeros(z)) == Zeros(z) + Reverse(ds)
  {
  }

  /** The swap loop that ends the decoder: it walks down from the last entry to the middle. */
  method ReverseInPlace(a: array<byte>, n: nat)
    requires n <= a.Length
    modifies a
    ensures a[..n] == Reverse(old(a[..n])) && a[n..] == old(a[n..])
  {
    var i, z := n - 1, n / 2 + n % 2;
    while i >= z
      invariant z - 1 <= i <= n - 1
      invariant forall k :: i < k < n ==> a[k] == old(a[n - 1 - k]) && a[n - 1 - k] == old(a[k])
      invariant forall k :: n - 1 - i <= k <= i ==> a[k] == old(a[k])
      invariant a[n..] == old(a[n..])
    {
      var k := a[i];
      a[i] := a[n - i - 1];
      a[n - i - 1] := k;
      i := i - 1;
    }
  }
}
