/** 128-bit unsigned arithmetic of src/libs/int128/int128.cpp: position of the top bit and long
    division. */
module UInt128 {
  import opened Common
  import opened Numerals

  // Shifting by a word-size amount is a product with a constant.

  lemma {:induction false} Shl4(x: nat)
    ensures Shl(x, 4) == 0x10 * x
  {
    assert Shl(x, 1) == 2 * x;
    assert Shl(x, 3) == 8 * x;
  }

  lemma {:induction false} Shl8(x: nat)
    ensures Shl(x, 8) == 0x100 * x
  {
    Shl4(x);
    Shl4(0x10 * x);
    ShlTwice(x, 4, 4);
  }

  lemma {:induction false} Shl16(x: nat)
    ensures Shl(x, 16) == 0x1_0000 * x
  {
    Shl8(x);
    Shl8(0x100 * x);
    ShlTwice(x, 8, 8);
  }

  lemma {:induction false} Shl32(x: nat)
    ensures Shl(x, 32) == 0x1_0000_0000 * x
  {
    Shl16(x);
    Shl16(0x1_0000 * x);
    ShlTwice(x, 16, 16);
  }

  lemma {:induction false} Shl64(x: nat)
    ensures Shl(x, 64) == U64 * x
  {
    Shl32(x);
    Shl32(0x1_0000_0000 * x);
    ShlTwice(x, 32, 32);
  }

  lemma {:induction false} Shl128(x: nat)
    ensures Shl(x, 128) == U128 * x
  {
    Shl64(x);
    Shl64(U64 * x);
    ShlTwice(x, 64, 64);
  }

  // ---------------------------------------------------------------- the top bit

  /** n, shifted up by pos, brackets the number whose top bit is sought. */
  ghost predicate Brackets(n0: nat, n: nat, pos: nat) {
    Shl(n, pos) <= n0 < Shl(n + 1, pos)
  }

  lemma {:induction false} BracketShift(n0: nat, n: nat, pos: nat, q: nat, sh: nat)
    requires Brackets(n0, n, pos) && Brackets(n, q, sh)
    ensures Brackets(n0, q, pos + sh)
  {
    ShlTwice(q, sh, pos);
    ShlTwice(q + 1, sh, pos);
    ShlMonotone(Shl(q, sh), n, pos);
    ShlMonotone(n + 1, Shl(q + 1, sh), pos);
  }

  lemma {:induction false} BracketTop(n0: nat, n: nat, pos: nat, t: nat)
    requires Brackets(n0, n, pos) && Pow2(t) <= n < Pow2(t + 1)
    ensures Pow2(pos + t) <= n0 < Pow2(pos + t + 1)
  {
    ShlTwice(1, t, pos);
    ShlTwice(1, t + 1, pos);
    ShlMonotone(Pow2(t), n, pos);
    ShlMonotone(n + 1, Pow2(t + 1), pos);
  }

  lemma {:induction false} StepBy4(n: nat, pos: nat)
    requires pos % 8 == 0
    ensures Brackets(n, n / 0x10, 4) && BitOr(pos, 4) == pos + 4
  {
    DisjointOr(pos / 8);
    Shl4(n / 0x10);
    Shl4(n / 0x10 + 1);
  }

  lemma {:induction false} StepBy8(n: nat, pos: nat)
    requires pos % 16 == 0
    ensures Brackets(n, n / 0x100, 8) && BitOr(pos, 8) == pos + 8
  {
    DisjointOr(pos / 16);
    Shl8(n / 0x100);
    Shl8(n / 0x100 + 1);
  }

  lemma {:induction false} StepBy16(n: nat, pos: nat)
    requires pos % 32 == 0
    ensures Brackets(n, n / 0x1_0000, 16) && BitOr(pos, 16) == pos + 16
  {
    DisjointOr(pos / 32);
    Shl16(n / 0x1_0000);
    Shl16(n / 0x1_0000 + 1);
  }

  lemma {:induction false} StepBy32(n: nat, pos: nat)
    requires pos % 64 == 0
    ensures Brackets(n, n / 0x1_0000_0000, 32) && BitOr(pos, 32) == pos + 32
  {
    DisjointOr(pos / 64);
    Shl32(n / 0x1_0000_0000);
    Shl32(n / 0x1_0000_0000 + 1);
  }

  /** The packed table of Fls64, shifted right by 4 * n. */
  function TableFrom(n: nat): nat {
    if n == 0 then 0x3333333322221100 else TableFrom(n - 1) / 16
  }

  /** Its entry: the shifted table masked with 3. */
  function TableEntry(n: nat): nat { TableFrom(n) % 4 }

  lemma {:induction false} LowerTable()
    ensures TableEntry(1) == 0 && TableEntry(2) == TableEntry(3) == 1
    ensures TableEntry(4) == TableEntry(5) == TableEntry(6) == TableEntry(7) == 2
    ensures TableFrom(7) == 0x333333332
  {
    assert TableFrom(0) == 0x3333333322221100;
    assert TableFrom(1) == 0x333333332222110;
    assert TableFrom(2) == 0x33333333222211;
    assert TableFrom(3) == 0x3333333322221;
    assert TableFrom(4) == 0x333333332222;
    assert TableFrom(5) == 0x33333333222;
    assert TableFrom(6) == 0x3333333322;
    assert TableFrom(7) == 0x333333332;
  }

  lemma {:induction false} UpperTable()
    ensures TableEntry(8) == TableEntry(9) == TableEntry(10) == TableEntry(11) == 3
    ensures TableEntry(12) == TableEntry(13) == TableEntry(14) == TableEntry(15) == 3
  {
    LowerTable();
    assert TableFrom(8) == 0x33333333;
    assert TableFrom(9) == 0x3333333;
    assert TableFrom(10) == 0x333333;
    assert TableFrom(11) == 0x33333;
    assert TableFrom(12) == 0x3333;
    assert TableFrom(13) == 0x333;
    assert TableFrom(14) == 0x33;
    assert TableFrom(15) == 0x3;
  }

  lemma {:induction false} TableValues(n: nat)
    requires 0 < n < 16
    ensures TableEntry(n) == if n < 2 then 0 else if n < 4 then 1 else if n < 8 then 2 else 3
  {
    LowerTable();
    UpperTable();
  }

  /** The table gives the top bit of every number below sixteen. */
  lemma TableIsTopBit(n: nat)
    requires 0 < n < 16
    ensures TableEntry(n) < 4 && Pow2(TableEntry(n)) <= n < Pow2(TableEntry(n) + 1)
  {
    TableValues(n);
    assert Pow2(1) == 2 && Pow2(2) == 4;
    assert Pow2(3) == 8 && Pow2(4) == 16;
  }

  /** One halving step of Fls64 (the STEP macro): bits at and above `sh` are dropped onto the low ones.
      `size` is two to the sh; the position is a multiple of twice the shift amount. */
  method FlsStep(ghost n0: nat, n: nat, pos: nat, sh: nat, size: nat) returns (n': nat, pos': nat)
    requires size > 0 && Brackets(n, n / size, sh) && BitOr(pos, sh) == pos + sh
    requires Brackets(n0, n, pos) && 0 < n < size * size
    ensures Brackets(n0, n', pos') && 0 < n' < size
    ensures pos' == pos || pos' == pos + sh
  {
    n', pos' := n, pos;
    if n >= size {
      BracketShift(n0, n, pos, n / size, sh);
      QuotientSize(n, size);
      n', pos' := n / size, BitOr(pos, sh);
    }
  }

  lemma Scale(p: nat, x: nat, y: nat)
    requires x <= y
    ensures p * x <= p * y
  {
    assert p * y == p * x + p * (y - x);
  }

  lemma {:induction false} QuotientSize(n: nat, s: nat)
    requires 0 < s <= n < s * s
    ensures 0 < n / s < s
  {
    var q := n / s;
    assert s * q <= n < s * q + s;
    if q >= s { Scale(s, s, q); }
  }

  /** The shift amounts have no bit in common with a multiple of twice the amount. */
  lemma {:induction false} DisjointOr(m: nat)
    ensures BitOr(8 * m, 4) == 8 * m + 4 && BitOr(16 * m, 8) == 16 * m + 8
    ensures BitOr(32 * m, 16) == 32 * m + 16 && BitOr(64 * m, 32) == 64 * m + 32
  {
    BitOrOne(2 * m);
    BitOrDouble(2 * m, 1, 2 * m + 1);
    BitOrDouble(4 * m, 2, 4 * m + 2);
    BitOrDouble(8 * m, 4, 8 * m + 4);
    BitOrDouble(16 * m, 8, 16 * m + 8);
    BitOrDouble(32 * m, 16, 32 * m + 16);
  }

  lemma {:induction false} BitOrDouble(x: nat, p: nat, r: nat)
    requires BitOr(x, p) == r
    ensures BitOr(2 * x, 2 * p) == 2 * r
  {
  }

  method Step32(n: nat) returns (n': nat, pos': nat)
    requires 0 < n < U64
    ensures Brackets(n, n', pos') && 0 < n' < 0x1_0000_0000 && pos' in {0, 32}
  {
    StepBy32(n, 0);
    n', pos' := FlsStep(n, n, 0, 32, 0x1_0000_0000);
  }

  method Step16(ghost n0: nat, n: nat, pos: nat) returns (n': nat, pos': nat)
    requires Brackets(n0, n, pos) && 0 < n < 0x1_0000_0000 && pos in {0, 32}
    ensures Brackets(n0, n', pos') && 0 < n' < 0x1_0000 && pos' in {0, 16, 32, 48}
  {
    StepBy16(n, pos);
    n', pos' := FlsStep(n0, n, pos, 16, 0x1_0000);
  }

  method Step8(ghost n0: nat, n: nat, pos: nat) returns (n': nat, pos': nat)
    requires Brackets(n0, n, pos) && 0 < n < 0x1_0000 && pos in {0, 16, 32, 48}
    ensures Brackets(n0, n', pos') && 0 < n' < 0x100 && pos' in {0, 8, 16, 24, 32, 40, 48, 56}
  {
    StepBy8(n, pos);
    n', pos' := FlsStep(n0, n, pos, 8, 0x100);
  }

  method Step4(ghost n0: nat, n: nat, pos: nat) returns (n': nat, pos': nat)
    requires Brackets(n0, n, pos) && 0 < n < 0x100 && pos in {0, 8, 16, 24, 32, 40, 48, 56}
    ensures Brackets(n0, n', pos') && 0 < n' < 0x10 && pos' <= 60
  {
    StepBy4(n, pos);
    n', pos' := FlsStep(n0, n, pos, 4, 0x10);
  }

  /** Fls64: four halving steps and a table. */
  method Fls64(n0: nat) returns (top: nat)
    requires 0 < n0 < U64
    ensures Pow2(top) <= n0 < Pow2(top + 1) && top < 64
  {
    var n, pos := Step32(n0);
    n, pos := Step16(n0, n, pos);
    n, pos := Step8(n0, n, pos);
    n, pos := Step4(n0, n, pos);
    TableIsTopBit(n);
    BracketTop(n0, n, pos, TableEntry(n));
    top := pos + TableEntry(n);
  }

  /** Fls128: the high word decides, if it has a bit. */
  method Fls128(n: nat) returns (top: nat)
    requires 0 < n < U128
    ensures Pow2(top) <= n < Pow2(top + 1) && top < 128
  {
    if n / U64 != 0 {
      var t := Fls64(n / U64);
      Shl64(n / U64);
      Shl64(n / U64 + 1);
      BracketTop(n, n / U64, 64, t);
      top := t + 64;
    } else {
      top := Fls64(n % U64);
    }
  }

  // ---------------------------------------------------------------- long division

  /** The aligned divisor fits 128 bits and is more than half the dividend. */
  lemma {:induction false} Aligned(dividend: nat, divisor: nat, fd: nat, fv: nat)
    requires Pow2(fd) <= dividend < Pow2(fd + 1) && Pow2(fv) <= divisor < Pow2(fv + 1)
    requires divisor <= dividend && fd < 128
    ensures fv <= fd
    ensures Shl(divisor, fd - fv) < U128 && dividend < 2 * Shl(divisor, fd - fv)
  {
    if fd < fv {
      ShlTwice(1, fd + 1, fv - fd - 1);
      ShlGrows(Pow2(fd + 1), fv - fd - 1);
    }
    var shift := fd - fv;
    ShlTwice(1, fv, shift);
    ShlTwice(1, fv + 1, shift);
    ShlMonotone(Pow2(fv), divisor, shift);
    ShlMonotone(divisor + 1, Pow2(fv + 1), shift);
    ShlAdd(divisor, 1, shift);
    ShlGrows(1, shift);
    ShlTwice(1, fd + 1, 127 - fd);
    ShlGrows(Pow2(fd + 1), 127 - fd);
    Shl128(1);
  }

  /** The body of the division loop: shift the quotient, subtract if possible, halve the denominator. */
  method ShiftSubtract(ghost n: nat, ghost divisor: nat, q: nat, ghost p: nat, r: nat, d: nat, ghost k: nat)
    returns (q': nat, ghost p': nat, r': nat, d': nat)
    requires n < U128 && divisor > 0 && p == q * divisor && d == Shl(divisor, k)
    requires n == Shl(p, k + 1) + r && r < 2 * d
    ensures p' == q' * divisor && n == Shl(p', k) + r' && r' < d && d' == d / 2
  {
    Round(n, divisor, q, p, r, d, k);
    q', p', r' := 2 * q % U128, 2 * p, r;
    if r >= d {
      BitOrOne(q');
      q', p', r' := BitOr(q', 1), p' + divisor, r - d;
    }
    d' := d / 2;
  }

  /** DivModImpl: the quotient and remainder, for every dividend and every divisor but zero. */
  method DivMod(dividend0: nat, divisor: nat) returns (quotient: nat, remainder: nat)
    requires dividend0 < U128 && 0 < divisor < U128
    ensures dividend0 == quotient * divisor + remainder && remainder < divisor
  {
    if divisor > dividend0 {
      return 0, dividend0;
    }
    if divisor == dividend0 {
      return 1, 0;
    }
    var fd := Fls128(dividend0);
    var fv := Fls128(divisor);
    Aligned(dividend0, divisor, fd, fv);
    var shift := fd - fv;
    var dividend: nat, denominator: nat := dividend0, Shl(divisor, shift) % U128;
    quotient := 0;
    ghost var product := 0;  // quotient * divisor
    ShlZero(shift + 1);
    for i := 0 to shift + 1
      invariant product == quotient * divisor
      invariant dividend0 == Shl(product, shift + 1 - i) + dividend
      invariant i <= shift ==> denominator == Shl(divisor, shift - i) && dividend < 2 * denominator
      invariant i == shift + 1 ==> dividend < divisor
    {
      quotient, product, dividend, denominator :=
        ShiftSubtract(dividend0, divisor, quotient, product, dividend, denominator, shift - i);
    }
    remainder := dividend;
  }

  /** One round of shift and subtract: what stays equal, and that the quotient does not overflow. */
  lemma {:induction false} Round(n: nat, divisor: nat, q: nat, p: nat, r: nat, d: nat, k: nat)
    requires n < U128 && divisor > 0 && p == q * divisor && d == Shl(divisor, k)
    requires n == Shl(p, k + 1) + r
    ensures 2 * q % U128 == 2 * q && 2 * p == (2 * q) * divisor
    ensures n == Shl(2 * p, k) + r
    ensures r >= d ==> 2 * p + divisor == (2 * q + 1) * divisor && n == Shl(2 * p + divisor, k) + (r - d)
  {
    assert Shl(p, 1) == 2 * p;
    ShlTwice(p, 1, k);
    ShlAdd(2 * p, divisor, k);
    NextProducts(q, divisor, p);
    QuotientBound(2 * q, divisor, 2 * p, k);
  }

  lemma {:induction false} ShlZero(k: nat)
    ensures Shl(0, k) == 0
  {
    if k > 0 { ShlZero(k - 1); }
  }

  lemma NextProducts(q: nat, d: nat, p: nat)
    requires p == q * d
    ensures 2 * p == (2 * q) * d && 2 * p + d == (2 * q + 1) * d
  {
  }

  lemma {:induction false} QuotientBound(q: nat, d: nat, p: nat, k: nat)
    requires d > 0 && p == q * d
    ensures q <= Shl(p, k)
  {
    assert q * d == q + q * (d - 1);
    ShlGrows(p, k);
  }
}
