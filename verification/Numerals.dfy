/** Positional numerals: the value of a digit string and the uniqueness of canonical digits.
    Digit strings are little-endian (least significant digit first) unless a name says otherwise.

    The bases that occur are listed rather than left arbitrary: every product, quotient and remainder is then
    by a constant, which keeps the proofs in linear arithmetic. */
module Numerals {
  type byte = x: nat | x < 256

  datatype Base = Base58 | Base256 {
    function Size(): nat {
      match this case Base58 => 58 case Base256 => 256
    }

    function Times(x: int): int {
      match this case Base58 => 58 * x case Base256 => 256 * x
    }

    function Quotient(x: nat): nat {
      match this case Base58 => x / 58 case Base256 => x / 256
    }

    function Remainder(x: nat): nat {
      match this case Base58 => x % 58 case Base256 => x % 256
    }

    function Power(e: nat): (p: nat)
      ensures p > 0
    {
      if e == 0 then 1 else Times(Power(e - 1))
    }
  }

  /** x times two to the k, unbounded. */
  function Shl(x: nat, k: nat): nat {
    if k == 0 then x else 2 * Shl(x, k - 1)
  }

  function Pow2(k: nat): nat { Shl(1, k) }

  lemma {:induction false} ShlAdd(x: nat, y: nat, k: nat)
    ensures Shl(x + y, k) == Shl(x, k) + Shl(y, k)
  {
    if k > 0 { ShlAdd(x, y, k - 1); }
  }

  lemma {:induction false} ShlMonotone(x: nat, y: nat, k: nat)
    requires x <= y
    ensures Shl(x, k) <= Shl(y, k)
  {
    ShlAdd(x, y - x, k);
  }

  lemma {:induction false} ShlTwice(x: nat, j: nat, k: nat)
    ensures Shl(Shl(x, j), k) == Shl(x, j + k)
  {
    if k > 0 { ShlTwice(x, j, k - 1); }
  }

  lemma {:induction false} ShlGrows(x: nat, k: nat)
    ensures x <= Shl(x, k)
  {
    if k > 0 { ShlGrows(x, k - 1); }
  }

  lemma {:induction false} PowerAdd(b: Base, m: nat, n: nat)
    ensures b.Power(m + n) == b.Power(m) * b.Power(n)
  {
    if m > 0 {
      PowerAdd(b, m - 1, n);
      TimesProduct(b, b.Power(m - 1), b.Power(n));
    }
  }

  lemma TimesProduct(b: Base, x: nat, y: nat)
    ensures b.Times(x * y) == b.Times(x) * y
  {
  }

  lemma {:induction false} PowerMonotone(b: Base, m: nat, n: nat)
    requires m <= n
    ensures b.Power(m) <= b.Power(n)
  {
    if m < n { PowerMonotone(b, m, n - 1); }
  }

  ghost predicate Below(ds: seq<nat>, b: Base) {
    forall i :: 0 <= i < |ds| ==> ds[i] < b.Size()
  }

  /** The number a little-endian digit string denotes. */
  function Value(ds: seq<nat>, b: Base): nat {
    if ds == [] then 0 else ds[0] + b.Times(Value(ds[1..], b))
  }

  /** The number a big-endian digit string denotes (Horner's rule, left to right). */
  function ValueBE(ds: seq<nat>, b: Base): nat {
    if ds == [] then 0 else b.Times(ValueBE(ds[..|ds| - 1], b)) + ds[|ds| - 1]
  }

  function Reverse<T>(s: seq<T>): (r: seq<T>)
    ensures |r| == |s|
    ensures forall i :: 0 <= i < |s| ==> r[i] == s[|s| - 1 - i]
  {
    if s == [] then [] else Reverse(s[1..]) + [s[0]]
  }

  lemma ReverseTwice<T>(s: seq<T>)
    ensures Reverse(Reverse(s)) == s
  {
  }

  lemma {:induction false} ValueBEReverse(ds: seq<nat>, b: Base)
    ensures ValueBE(ds, b) == Value(Reverse(ds), b)
  {
    if ds != [] {
      var n := |ds| - 1;
      ValueBEReverse(ds[..n], b);
      assert Reverse(ds)[1..] == Reverse(ds[..n]);
    }
  }

  lemma ValueCons(d: nat, ds: seq<nat>, b: Base)
    ensures Value([d] + ds, b) == d + b.Times(Value(ds, b))
  {
    assert ([d] + ds)[1..] == ds;
  }

  lemma {:induction false} ValueBound(ds: seq<nat>, b: Base)
    requires Below(ds, b)
    ensures Value(ds, b) < b.Power(|ds|)
  {
    if ds != [] { ValueBound(ds[1..], b); }
  }

  /** At least one digit, and no superfluous most significant zero. */
  ghost predicate Canonical(ds: seq<nat>, b: Base) {
    Below(ds, b) && |ds| >= 1 && (|ds| > 1 ==> ds[|ds| - 1] != 0)
  }

  lemma {:induction false} CanonicalLower(ds: seq<nat>, b: Base)
    requires ds != [] && ds[|ds| - 1] != 0
    ensures Value(ds, b) >= b.Power(|ds| - 1)
  {
    if |ds| > 1 { CanonicalLower(ds[1..], b); }
  }

  /** The length of canonical digits is decided by the value alone. */
  lemma {:induction false} CanonicalLength(ds: seq<nat>, b: Base, c: nat)
    requires Canonical(ds, b) && c >= 1
    ensures |ds| <= c <==> Value(ds, b) < b.Power(c)
  {
    ValueBound(ds, b);
    if |ds| <= c {
      PowerMonotone(b, |ds|, c);
    } else {
      CanonicalLower(ds, b);
      PowerMonotone(b, c, |ds| - 1);
    }
  }

  lemma {:induction false} SameLengthUnique(a: seq<nat>, c: seq<nat>, b: Base)
    requires |a| == |c| && Below(a, b) && Below(c, b) && Value(a, b) == Value(c, b)
    ensures a == c
  {
    if a != [] {
      SameLengthUnique(a[1..], c[1..], b);
      assert a == [a[0]] + a[1..] && c == [c[0]] + c[1..];
    }
  }

  lemma {:induction false} CanonicalUnique(a: seq<nat>, c: seq<nat>, b: Base)
    requires Canonical(a, b) && Canonical(c, b) && Value(a, b) == Value(c, b)
    ensures a == c
  {
    CanonicalLength(a, b, |c|);
    CanonicalLength(c, b, |a|);
    ValueBound(a, b);
    ValueBound(c, b);
    SameLengthUnique(a, c, b);
  }

  /** Bitwise or on unbounded naturals. */
  function BitOr(a: nat, b: nat): nat
    decreases a + b
  {
    if a == 0 && b == 0 then 0
    else 2 * BitOr(a / 2, b / 2) + (if a % 2 == 1 || b % 2 == 1 then 1 else 0)
  }

  lemma {:induction false} BitOrZero(a: nat)
    ensures BitOr(a, 0) == a
  {
    if a > 0 { BitOrZero(a / 2); }
  }

  /** Setting a bit above everything that is set is an addition. */
  lemma {:induction false} BitOrTop(a: nat, k: nat)
    requires a < Pow2(k)
    ensures BitOr(a, Pow2(k)) == a + Pow2(k)
  {
    if k == 0 {
      assert BitOr(0, 1) == 2 * BitOr(0, 0) + 1;
    } else {
      BitOrTop(a / 2, k - 1);
    }
  }

  /** Setting the lowest bit of an even number is an increment. */
  lemma BitOrOne(a: nat)
    requires a % 2 == 0
    ensures BitOr(a, 1) == a + 1
  {
    BitOrZero(a / 2);
  }
}
