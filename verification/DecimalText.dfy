/** Decimal text of 128-bit numbers: atoi128 of src/utils/converters.cpp and the decimal case of
    Uint128ToFormattedString of src/libs/int128/int128.cpp. */
module DecimalText {
  import opened Common
  import opened Numerals
  import opened UInt128

  function Digit(d: nat): (c: char)
    requires d < 10
    ensures IsDigit(c) && DigitValue(c) == d
  {
    ('0' as int + d) as char
  }

  lemma {:induction false} DigitIs(d: nat)
    requires d < 10
    ensures Digit(d) == "0123456789"[d]
  {
  }

  predicate IsDigit(c: char) { '0' <= c <= '9' }

  function DigitValue(c: char): (d: nat)
    requires IsDigit(c)
    ensures d < 10
  {
    c as int - '0' as int
  }

  ghost predicate AllBelowTen(ds: seq<nat>) { forall i :: 0 <= i < |ds| ==> ds[i] < 10 }

  /** The number a string of decimal digits denotes, most significant first. */
  function DecimalValue(ds: seq<nat>): nat {
    if ds == [] then 0 else 10 * DecimalValue(ds[..|ds| - 1]) + ds[|ds| - 1]
  }

  function DigitValues(s: string): (ds: seq<nat>)
    requires forall i :: 0 <= i < |s| ==> IsDigit(s[i])
    ensures |ds| == |s| && AllBelowTen(ds)
    ensures forall i :: 0 <= i < |s| ==> ds[i] == DigitValue(s[i])
  {
    seq(|s|, i requires 0 <= i < |s| => DigitValue(s[i]))
  }

  // ---------------------------------------------------------------- printing

  /** The shortest decimal text of n: what a stream prints for a 64-bit number. */
  function ToDecimal(n: nat): (s: string)
    ensures s != "" && forall i :: 0 <= i < |s| ==> IsDigit(s[i])
  {
    if n < 10 then [Digit(n)] else ToDecimal(n / 10) + [Digit(n % 10)]
  }

  /** The last w decimal digits of n. */
  function FixedWidth(n: nat, w: nat): (s: string)
    ensures |s| == w
  {
    if w == 0 then "" else FixedWidth(n / 10, w - 1) + [Digit(n % 10)]
  }

  /** x times ten to the w. */
  function Times10(x: nat, w: nat): nat { if w == 0 then x else 10 * Times10(x, w - 1) }

  /** setw(w) with fill '0'. */
  function PadLeft(s: string, w: nat): string {
    if |s| >= w then s else seq(w - |s|, _ => '0') + s
  }

  /** No leading zero, except for the number zero itself; and the digits denote the number. */
  lemma {:induction false} ToDecimalCorrect(n: nat)
    ensures DecimalValue(DigitValues(ToDecimal(n))) == n
    ensures n > 0 ==> ToDecimal(n)[0] != '0'
    ensures n == 0 ==> ToDecimal(n) == "0"
  {
    var ds := DigitValues(ToDecimal(n));
    if n >= 10 {
      ToDecimalCorrect(n / 10);
      assert ds[..|ds| - 1] == DigitValues(ToDecimal(n / 10));
    } else {
      assert ds[..0] == [];
    }
  }

  lemma {:induction false} ToDecimalLength(n: nat, w: nat)
    requires n < Times10(1, w) && w >= 1
    ensures |ToDecimal(n)| <= w
  {
    if n >= 10 { ToDecimalLength(n / 10, w - 1); }
  }

  /** Padding a number that fits w digits gives its fixed-width text. */
  lemma {:induction false} PadIsFixed(n: nat, w: nat)
    requires n < Times10(1, w) && w >= 1
    ensures PadLeft(ToDecimal(n), w) == FixedWidth(n, w)
  {
    ToDecimalLength(n, w);
    if n >= 10 {
      PadIsFixed(n / 10, w - 1);
      assert PadLeft(ToDecimal(n), w) == PadLeft(ToDecimal(n / 10), w - 1) + [Digit(n % 10)];
    } else {
      FixedZero(w - 1);
      assert FixedWidth(n, w) == FixedWidth(0, w - 1) + [Digit(n)];
    }
  }

  lemma {:induction false} FixedZero(w: nat)
    ensures FixedWidth(0, w) == seq(w, _ => '0')
  {
    if w > 0 {
      FixedZero(w - 1);
      assert seq(w, _ => '0') == seq(w - 1, _ => '0') + ['0'];
    }
  }

  /** A chunk boundary anywhere in the number: the high part, then the low part at full width. */
  lemma {:induction false} ToDecimalSplit(hi: nat, lo: nat, w: nat)
    requires hi > 0 && lo < Times10(1, w)
    ensures ToDecimal(Times10(hi, w) + lo) == ToDecimal(hi) + FixedWidth(lo, w)
  {
    var n := Times10(hi, w) + lo;
    if w == 0 {
      assert FixedWidth(lo, w) == "";
    } else {
      var x := Times10(hi, w - 1);
      Times10Grows(hi, w - 1);
      assert n / 10 == x + lo / 10 && n % 10 == lo % 10;
      ToDecimalSplit(hi, lo / 10, w - 1);
      assert ToDecimal(hi) + FixedWidth(lo / 10, w - 1) + [Digit(lo % 10)] == ToDecimal(hi) + FixedWidth(lo, w);
    }
  }

  lemma {:induction false} Times10Grows(x: nat, w: nat)
    ensures Times10(x, w) >= x
  {
    if w > 0 { Times10Grows(x, w - 1); }
  }

  const CHUNK := 10000000000000000000  // 10^19, the largest power of ten below 2^64

  lemma {:induction false} Times10Step(x: nat, w: nat, y: nat)
    requires Times10(x, w) == y
    ensures Times10(x, w + 2) == 100 * y
  {
  }

  lemma {:induction false} ChunkIsPower(x: nat)
    ensures Times10(x, 19) == CHUNK * x
  {
    assert Times10(x, 1) == 10 * x;
    Times10Step(x, 1, 10 * x);
    Times10Step(x, 3, 1000 * x);
    Times10Step(x, 5, 100000 * x);
    Times10Step(x, 7, 10000000 * x);
    Times10Step(x, 9, 1000000000 * x);
    Times10Step(x, 11, 100000000000 * x);
    Times10Step(x, 13, 10000000000000 * x);
    Times10Step(x, 15, 1000000000000000 * x);
    Times10Step(x, 17, 100000000000000000 * x);
  }

  lemma {:induction false} ChunkSplit(n: nat, hi: nat, lo: nat)
    requires n == hi * CHUNK + lo && hi > 0 && lo < CHUNK
    ensures ToDecimal(n) == ToDecimal(hi) + PadLeft(ToDecimal(lo), 19)
  {
    ChunkIsPower(1);
    ChunkIsPower(hi);
    ToDecimalSplit(hi, lo, 19);
    PadIsFixed(lo, 19);
  }

  /** Uint128ToFormattedString, decimal: three chunks below 10^19, each printed as a 64-bit number. */
  method FormatDecimal(v: nat) returns (s: string)
    requires v < U128
    ensures s == ToDecimal(v)
  {
    var upper, low := DivMod(v, CHUNK);
    var high, mid := DivMod(upper, CHUNK);
    ChunksFit(v, upper, high, mid, low);
    if high % U64 != 0 {
      ChunkSplit(upper, high, mid);
      ChunkSplit(v, upper, low);
      s := ToDecimal(high % U64) + PadLeft(ToDecimal(mid % U64), 19) + PadLeft(ToDecimal(low % U64), 19);
    } else if mid % U64 != 0 {
      ChunkSplit(v, mid, low);
      s := ToDecimal(mid % U64) + PadLeft(ToDecimal(low % U64), 19);
    } else {
      s := ToDecimal(low % U64);
    }
  }

  /** Each chunk is a 64-bit number. */
  lemma ChunksFit(v: nat, upper: nat, high: nat, mid: nat, low: nat)
    requires v < U128 && v == upper * CHUNK + low && low < CHUNK && upper == high * CHUNK + mid && mid < CHUNK
    ensures high % U64 == high && mid % U64 == mid && low % U64 == low
  {
  }

  // ---------------------------------------------------------------- parsing

  /** Half of the digit at i, plus a carry if the digit before it is odd. */
  function HalfAt(ds: seq<nat>, i: nat, carry: nat): nat
    requires i < |ds|
  {
    ds[i] / 2 + if i > 0 && ds[i - 1] % 2 == 1 then carry else 0
  }

  /** One halving of a digit string: an odd digit hands five to the digit after it. */
  function Halved(ds: seq<nat>): (r: seq<nat>)
    ensures |r| == |ds|
    ensures forall i :: 0 <= i < |ds| ==> r[i] == HalfAt(ds, i, 5)
  {
    seq(|ds|, i requires 0 <= i < |ds| => HalfAt(ds, i, 5))
  }

  /** Halving the digits halves the number; the last digit's lowest bit is the number's. */
  lemma {:induction false} HalvedValue(ds: seq<nat>)
    requires AllBelowTen(ds)
    ensures AllBelowTen(Halved(ds)) && DecimalValue(Halved(ds)) == DecimalValue(ds) / 2
    ensures ds != [] ==> DecimalValue(ds) % 2 == ds[|ds| - 1] % 2
  {
    if ds != [] {
      var n := |ds| - 1;
      HalvedValue(ds[..n]);
      assert Halved(ds)[..n] == Halved(ds[..n]);
    }
  }

  lemma {:induction false} ZeroDigits(ds: seq<nat>)
    requires forall i :: 0 <= i < |ds| ==> ds[i] == 0
    ensures DecimalValue(ds) == 0
  {
    if ds != [] { ZeroDigits(ds[..|ds| - 1]); }
  }

  lemma {:induction false} NonzeroDigit(ds: seq<nat>, k: nat)
    requires k < |ds| && ds[k] > 0
    ensures DecimalValue(ds) > 0
  {
    if k < |ds| - 1 { NonzeroDigit(ds[..|ds| - 1], k); }
  }

  /** The shift of the halving loop: from the last digit down to `start`, each digit takes its
      neighbour's lowest bit as an 8. */
  method ShiftDigits(scratch: array<nat>, digits: nat, start: nat)
    requires start < digits <= scratch.Length && AllBelowTen(scratch[..digits])
    requires forall i :: 0 <= i < start ==> scratch[i] == 0
    modifies scratch
    ensures forall i :: 0 <= i < digits ==> scratch[i] == HalfAt(old(scratch[..digits]), i, 8)
  {
    ghost var ds := scratch[..digits];
    var i := digits - 1;
    while i > start
      invariant start <= i < digits
      invariant forall k :: 0 <= k <= i ==> scratch[k] == ds[k]
      invariant forall k :: i < k < digits ==> scratch[k] == HalfAt(ds, k, 8)
    {
      scratch[i] := scratch[i] / 2;
      if scratch[i - 1] % 2 == 1 {
        OrEight(scratch[i]);
        scratch[i] := BitOr(scratch[i], 8);
      }
      i := i - 1;
    }
    scratch[start] := scratch[start] / 2;
    forall k | 0 <= k < start ensures scratch[k] == HalfAt(ds, k, 8) { assert ds[k] == 0; }
    assert start > 0 ==> ds[start - 1] == 0;
  }

  lemma OrEight(x: nat)
    requires x < 8
    ensures BitOr(x, 8) == x + 8
  {
    assert Pow2(1) == 2;
    assert Pow2(3) == 8;
    BitOrTop(x, 3);
  }

  /** The correction of the halving loop: a digit that took an 8 gives back 3. */
  method CorrectDigits(scratch: array<nat>, digits: nat, start: nat, ghost ds: seq<nat>)
    requires start <= digits <= scratch.Length && |ds| == digits && AllBelowTen(ds)
    requires forall i :: 0 <= i < digits ==> scratch[i] == HalfAt(ds, i, 8)
    requires forall i :: 0 <= i < start ==> scratch[i] == 0
    modifies scratch
    ensures scratch[..digits] == Halved(ds)
  {
    for i := start to digits
      invariant forall k :: 0 <= k < i ==> scratch[k] == HalfAt(ds, k, 5)
      invariant forall k :: i <= k < digits ==> scratch[k] == HalfAt(ds, k, 8)
    {
      assert ds[i] < 10;
      if scratch[i] > 7 {
        scratch[i] := scratch[i] - 3;
      }
    }
  }

  /** One round of the double-dabble loop run backwards: the number in the scratch digits is halved. */
  method HalveDigits(scratch: array<nat>, digits: nat, start0: nat) returns (start: nat)
    requires start0 < digits <= scratch.Length && AllBelowTen(scratch[..digits])
    requires forall i :: 0 <= i < start0 ==> scratch[i] == 0
    modifies scratch
    ensures scratch[..digits] == Halved(old(scratch[..digits]))
    ensures start0 <= start <= digits && (forall i :: 0 <= i < start ==> scratch[i] == 0)
    ensures start < digits ==> scratch[start] != 0
  {
    ghost var ds := scratch[..digits];
    ShiftDigits(scratch, digits, start0);
    start := start0;
    while start < digits && scratch[start] == 0
      invariant start0 <= start <= digits
      invariant forall i :: 0 <= i < start ==> scratch[i] == HalfAt(ds, i, 8) == 0
    {
      start := start + 1;
    }
    CorrectDigits(scratch, digits, start, ds);
    forall i | 0 <= i < start ensures scratch[i] == 0 {
      assert HalfAt(ds, i, 8) == 0 && scratch[i] == scratch[..digits][i];
    }
    assert start < digits ==> scratch[start] == scratch[..digits][start];
  }

  function Blanks(s: string): (n: nat)
    ensures n <= |s|
  {
    if s != "" && s[0] in {' ', '\t', '\n', '+'} then 1 + Blanks(s[1..]) else 0
  }

  function DigitRun(s: string): (n: nat)
    ensures n <= |s| && (forall i :: 0 <= i < n ==> IsDigit(s[i])) && (n < |s| ==> !IsDigit(s[n]))
  {
    if s != "" && IsDigit(s[0]) then 1 + DigitRun(s[1..]) else 0
  }

  predicate Negative(s: string) {
    Blanks(s) < |s| && s[Blanks(s)] == '-'
  }

  /** The digits atoi128 reads: after blanks and plus signs, and at most one minus sign. */
  function DigitsOf(s: string): (t: string)
    ensures forall i :: 0 <= i < |t| ==> IsDigit(t[i])
  {
    var rest := s[Blanks(s) + if Negative(s) then 1 else 0..];
    rest[..DigitRun(rest)]
  }

  /** The number a text stands for, modulo 2^128. */
  function Atoi(s: string): nat {
    var v: int := DecimalValue(DigitValues(DigitsOf(s)));
    (if Negative(s) then -v else v) % U128
  }

  /** The bit mask of round k: gone after 128 shifts. */
  function Mask(k: nat): nat { if k < 128 then Pow2(k) else 0 }

  /** A round moves the lowest bit of what is left into the result and halves the rest. */
  lemma {:induction false} RoundKeepsSum(r: nat, k: nat, v: nat)
    ensures var r' := if v % 2 == 1 then r + Pow2(k) else r;
            r + Shl(v, k) == r' + Shl(v / 2, k + 1)
    ensures r < Pow2(k) ==> (if v % 2 == 1 then r + Pow2(k) else r) < Pow2(k + 1)
  {
    ShlTwice(v / 2, 1, k);
    assert Shl(v / 2, 1) == 2 * (v / 2);
    ShlAdd(2 * (v / 2), v % 2, k);
    ShlZero(k);
  }

  /** The result register holds the collected bits modulo 2^128. */
  lemma {:induction false} RoundResult(r: nat, k: nat)
    requires r < Pow2(k)
    ensures BitOr(r % U128, Mask(k)) == (r + Pow2(k)) % U128
    ensures 2 * Mask(k) % U128 == Mask(k + 1)
  {
    if k < 128 {
      PowerFits(k);
      BitOrTop(r, k);
      SmallRemainders(r, Pow2(k));
    } else {
      ShlTwice(1, k - 128, 128);
      Shl128(Pow2(k - 128));
      BitOrZero(r % U128);
      WholeMultiple(r, Pow2(k - 128));
    }
  }

  lemma {:induction false} PowerFits(k: nat)
    requires k < 128
    ensures 2 * Pow2(k) <= U128 && (k < 127 ==> 2 * Pow2(k) < U128) && (k == 127 ==> 2 * Pow2(k) == U128)
  {
    Shl128(1);
    ShlTwice(1, k + 1, 127 - k);
    if k < 127 {
      ShlTwice(Pow2(k + 1), 1, 126 - k);
      ShlGrows(Shl(Pow2(k + 1), 1), 126 - k);
      ShlGrows(1, k + 1);
    }
  }

  lemma SmallRemainders(r: nat, p: nat)
    requires r < p && 2 * p <= U128
    ensures r % U128 == r && (r + p) % U128 == r + p
    ensures 2 * p % U128 == if 2 * p == U128 then 0 else 2 * p
  {
  }

  lemma WholeMultiple(r: nat, q: nat)
    ensures (r + U128 * q) % U128 == r % U128
  {
  }

  /** After k rounds the collected bits and the number that is left still make up n. */
  ghost predicate Collected(n: nat, left: nat, collected: nat, k: nat) {
    n == collected + Shl(left, k) && collected < Pow2(k)
  }

  /** One round: the parity of what is left is the next bit. */
  lemma {:induction false} NextBit(n: nat, left: nat, collected: nat, k: nat) returns (more: nat)
    requires Collected(n, left, collected, k)
    ensures more % U128 == if left % 2 == 1 then BitOr(collected % U128, Mask(k)) else collected % U128
    ensures Collected(n, left / 2, more, k + 1)
    ensures 2 * Mask(k) % U128 == Mask(k + 1)
  {
    RoundKeepsSum(collected, k, left);
    RoundResult(collected, k);
    more := if left % 2 == 1 then collected + Pow2(k) else collected;
  }

  /** The array part of a round: the parity, then the halved number. */
  method HalveNumber(scratch: array<nat>, digits: nat, start0: nat) returns (odd: bool, start: nat)
    requires start0 < digits <= scratch.Length && AllBelowTen(scratch[..digits])
    requires forall i :: 0 <= i < start0 ==> scratch[i] == 0
    modifies scratch
    ensures odd == (DecimalValue(old(scratch[..digits])) % 2 == 1) && AllBelowTen(scratch[..digits])
    ensures DecimalValue(scratch[..digits]) == DecimalValue(old(scratch[..digits])) / 2
    ensures start0 <= start <= digits && (forall i :: 0 <= i < start ==> scratch[i] == 0)
    ensures start < digits <==> DecimalValue(scratch[..digits]) > 0
  {
    ghost var ds := scratch[..digits];
    HalvedValue(ds);
    odd := scratch[digits - 1] % 2 == 1;
    assert ds[|ds| - 1] == scratch[digits - 1];
    start := HalveDigits(scratch, digits, start0);
    if start < digits {
      assert scratch[..digits][start] > 0;
      NonzeroDigit(scratch[..digits], start);
    } else {
      ZeroDigits(scratch[..digits]);
    }
  }

  /** The halving loop of atoi128 on any digit array: the number, modulo 2^128. */
  method ScanDigits(scratch: array<nat>, digits: nat) returns (result: nat)
    requires digits <= scratch.Length && AllBelowTen(scratch[..digits])
    modifies scratch
    ensures result == DecimalValue(old(scratch[..digits])) % U128
  {
    ghost var n := DecimalValue(scratch[..digits]);
    ghost var left, collected: nat, k: nat := n, 0, 0;
    result := 0;
    var mask := 1;
    var scanstart := 0;
    while scanstart < digits
      invariant scanstart <= digits && AllBelowTen(scratch[..digits]) && left == DecimalValue(scratch[..digits])
      invariant forall i :: 0 <= i < scanstart ==> scratch[i] == 0
      invariant scanstart == digits ==> left == 0
      invariant Collected(n, left, collected, k)
      invariant result == collected % U128 && mask == Mask(k)
      decreases left, digits - scanstart
    {
      ghost var more := NextBit(n, left, collected, k);
      var odd;
      odd, scanstart := HalveNumber(scratch, digits, scanstart);
      if odd {
        result := BitOr(result, mask);
      }
      mask := 2 * mask % U128;
      left, collected, k := left / 2, more, k + 1;
    }
    ShlZero(k);
  }

  method SkipBlanks(s: string) returns (at: nat)
    ensures at == Blanks(s)
  {
    at := 0;
    while at < |s| && s[at] in {' ', '\t', '\n', '+'}
      invariant at <= |s| && Blanks(s) == at + Blanks(s[at..])
    {
      assert s[at..][1..] == s[at + 1..];
      at := at + 1;
    }
  }

  method CountDigits(s: string) returns (digits: nat)
    ensures digits == DigitRun(s)
  {
    digits := 0;
    while digits < |s| && IsDigit(s[digits])
      invariant digits <= |s| && DigitRun(s) == digits + DigitRun(s[digits..])
    {
      assert s[digits..][1..] == s[digits + 1..];
      digits := digits + 1;
    }
  }

  method LoadDigits(s: string, scratch: array<nat>)
    requires |s| <= scratch.Length && forall i :: 0 <= i < |s| ==> IsDigit(s[i])
    modifies scratch
    ensures scratch[..|s|] == DigitValues(s)
  {
    for i := 0 to |s|
      invariant forall k :: 0 <= k < i ==> scratch[k] == DigitValue(s[k])
    {
      scratch[i] := DigitValue(s[i]);
    }
  }

  /** atoi128. The scratch array has room for 255 digits. */
  method Atoi128(s: string) returns (r: nat)
    requires |DigitsOf(s)| <= 255
    ensures r == Atoi(s)
  {
    var at := SkipBlanks(s);
    var sign := 1;
    if at < |s| && s[at] == '-' {
      at := at + 1;
      sign := -1;
    }
    var digits := CountDigits(s[at..]);
    assert s[at..][..digits] == DigitsOf(s);
    var scratch := new nat[255](_ => 0);
    LoadDigits(s[at..][..digits], scratch);
    var result := ScanDigits(scratch, digits);
    SignProduct(DecimalValue(DigitValues(DigitsOf(s))));
    r := result * (sign % U128) % U128;
  }

  /** Multiplying by minus one as an unsigned number negates modulo 2^128. */
  lemma SignProduct(v: int)
    requires v >= 0
    ensures (v % U128) * (-1 % U128) % U128 == -v % U128
    ensures (v % U128) * (1 % U128) % U128 == v % U128
  {
    var x := v % U128;
    assert x * (U128 - 1) == (x - 1) * U128 + (U128 - x);
  }

  /** Printing any 128-bit number and parsing the text gives the number back; the text fits the scratch
      array of the parser. */
  lemma {:induction false} PrintThenParse(v: nat)
    requires v < U128
    ensures |DigitsOf(ToDecimal(v))| <= 39
    ensures Atoi(ToDecimal(v)) == v
  {
    ToDecimalCorrect(v);
    ReadsAll(ToDecimal(v));
    ChunkIsPower(1);
    ChunkIsPower(CHUNK);
    Times10Twice(1, 19, 19);
    assert Times10(1, 39) == 10 * Times10(1, 38);
    ToDecimalLength(v, 39);
  }

  lemma {:induction false} Times10Twice(x: nat, j: nat, k: nat)
    ensures Times10(Times10(x, j), k) == Times10(x, j + k)
  {
    if k > 0 { Times10Twice(x, j, k - 1); }
  }

  lemma {:induction false} ReadsAll(s: string)
    requires s != "" && forall i :: 0 <= i < |s| ==> IsDigit(s[i])
    ensures DigitsOf(s) == s && !Negative(s)
  {
    WholeRun(s);
    assert IsDigit(s[0]) && Blanks(s) == 0;
    assert s[0..] == s && s[..|s|] == s;
  }

  lemma {:induction false} BlanksOfPrefix(blanks: string, rest: string)
    requires forall i :: 0 <= i < |blanks| ==> blanks[i] in {' ', '\t', '\n', '+'}
    requires rest != "" ==> rest[0] !in {' ', '\t', '\n', '+'}
    ensures Blanks(blanks + rest) == |blanks|
  {
    if blanks == "" {
      assert blanks + rest == rest;
    } else {
      assert (blanks + rest)[1..] == blanks[1..] + rest;
      BlanksOfPrefix(blanks[1..], rest);
    }
  }

  lemma {:induction false} RunOfPrefix(ds: string, rest: string)
    requires forall i :: 0 <= i < |ds| ==> IsDigit(ds[i])
    requires rest != "" ==> !IsDigit(rest[0])
    ensures DigitRun(ds + rest) == |ds|
  {
    if ds == "" {
      assert ds + rest == rest;
    } else {
      assert (ds + rest)[1..] == ds[1..] + rest;
      RunOfPrefix(ds[1..], rest);
    }
  }

  ghost predicate AllBlank(s: string) { forall i :: 0 <= i < |s| ==> s[i] in {' ', '\t', '\n', '+'} }

  ghost predicate AllDigits(s: string) { forall i :: 0 <= i < |s| ==> '0' <= s[i] <= '9' }

  lemma {:induction false} DigitsFrom(s: string, n: nat, ds: string, rest: string)
    requires n <= |s| && s[n..] == ds + rest && n == Blanks(s) + if Negative(s) then 1 else 0
    requires AllDigits(ds) && (rest != "" ==> !('0' <= rest[0] <= '9'))
    ensures DigitsOf(s) == ds
  {
    RunOfPrefix(ds, rest);
    assert (ds + rest)[..|ds|] == ds;
  }

  /** Blanks, tabs, line feeds and plus signs, then a minus sign, then digits, leading zeros included, then
      anything else: the negated decimal value of the digits, modulo 2^128. */
  lemma {:induction false} AtoiNegative(blanks: string, ds: string, rest: string)
    requires AllBlank(blanks) && AllDigits(ds) && (rest != "" ==> !('0' <= rest[0] <= '9'))
    ensures var v: int := DecimalValue(DigitValues(ds));
            DigitsOf(blanks + ("-" + (ds + rest))) == ds && Atoi(blanks + ("-" + (ds + rest))) == -v % U128
  {
    var tail := "-" + (ds + rest);
    BlanksOfPrefix(blanks, tail);
    assert (blanks + tail)[|blanks| + 1..] == ds + rest;
    DigitsFrom(blanks + tail, |blanks| + 1, ds, rest);
  }

  /** Without the minus sign it is the decimal value of the digits. */
  lemma {:induction false} AtoiPositive(blanks: string, ds: string, rest: string)
    requires AllBlank(blanks) && AllDigits(ds) && (rest != "" ==> !('0' <= rest[0] <= '9'))
    requires ds == "" && rest != "" ==> rest[0] !in {' ', '\t', '\n', '+', '-'}
    ensures DigitsOf(blanks + (ds + rest)) == ds
    ensures Atoi(blanks + (ds + rest)) == DecimalValue(DigitValues(ds)) % U128
  {
    var tail := ds + rest;
    BlanksOfPrefix(blanks, tail);
    assert (blanks + tail)[|blanks|..] == ds + rest;
    DigitsFrom(blanks + tail, |blanks|, ds, rest);
  }

  /** So blanks, a minus sign and the text of v give the negation of v, and without the sign v itself. */
  lemma {:induction false} SignedText(blanks: string, v: int)
    requires AllBlank(blanks) && v >= 0
    ensures Atoi(blanks + ("-" + ToDecimal(v))) == -v % U128
    ensures Atoi(blanks + ToDecimal(v)) == v % U128
  {
    var ds := ToDecimal(v);
    ToDecimalCorrect(v);
    assert ds + "" == ds;
    AtoiNegative(blanks, ds, "");
    AtoiPositive(blanks, ds, "");
  }

  lemma {:induction false} WholeRun(s: string)
    requires forall i :: 0 <= i < |s| ==> IsDigit(s[i])
    ensures DigitRun(s) == |s|
  {
    if s != "" { WholeRun(s[1..]); }
  }
}
