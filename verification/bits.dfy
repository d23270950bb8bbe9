/**
  Bitwise OR and AND on natural numbers, defined one bit at a time from the
  least significant end, with the shift laws the driver's byte arithmetic
  needs (shifts by 4, 5, 6 and 8 bits).
 */
module Bits {

  /** Bitwise OR: a bit of the result is set when it is set in either operand. */
  function Or(a: nat, b: nat): nat
    decreases a + b
  {
    if a == 0 then b
    else if b == 0 then a
    else 2 * Or(a / 2, b / 2) + (if a % 2 == 1 || b % 2 == 1 then 1 else 0)
  }

  /** Bitwise AND: a bit of the result is set when it is set in both operands. */
  function And(a: nat, b: nat): nat
    decreases a + b
  {
    if a == 0 || b == 0 then 0
    else 2 * And(a / 2, b / 2) + (if a % 2 == 1 && b % 2 == 1 then 1 else 0)
  }

  /** `m` is all ones in binary: 0, 1, 3, 7, 15, ... */
  predicate AllOnes(m: nat) {
    m == 0 || (m % 2 == 1 && AllOnes(m / 2))
  }

  /** AND with an all-ones mask keeps every number the mask covers. */
  lemma {:induction false} AndOnes(m: nat, x: nat)
    requires AllOnes(m) && x <= m
    ensures And(m, x) == x
  {
    if m != 0 && x != 0 {
      AndOnes(m / 2, x / 2);
    }
  }

  lemma OrZero(a: nat)
    ensures Or(a, 0) == a
  {
  }

  lemma {:induction false} OrCommutes(a: nat, b: nat)
    ensures Or(a, b) == Or(b, a)
    decreases a + b
  {
    if a != 0 && b != 0 {
      OrCommutes(a / 2, b / 2);
    }
  }

  lemma {:induction false} AndCommutes(a: nat, b: nat)
    ensures And(a, b) == And(b, a)
    decreases a + b
  {
    if a != 0 && b != 0 {
      AndCommutes(a / 2, b / 2);
    }
  }

  /** OR and AND with an even number: the lowest bit comes from `b`, or is clear. */
  lemma OrDouble(a: nat, b: nat)
    ensures Or(2 * a, b) == 2 * Or(a, b / 2) + b % 2
  {
  }

  lemma AndDouble(a: nat, b: nat)
    ensures And(2 * a, b) == 2 * And(a, b / 2)
  {
  }

  /** Dividing by two twice, or by two and then by a power of two. */
  lemma Halves(b: nat, p: nat)
    requires p == 2 || p == 4 || p == 8 || p == 16
    ensures b / 2 / p == b / (2 * p) && 2 * (b / 2 % p) + b % 2 == b % (2 * p)
  {
  }

  lemma Quarters(b: nat, p: nat)
    requires p == 4 || p == 16
    ensures b / 4 / p == b / (4 * p) && 4 * (b / 4 % p) + b % 4 == b % (4 * p)
  {
  }

  lemma Sixteenths(b: nat)
    ensures b / 16 / 16 == b / 256 && 16 * (b / 16 % 16) + b % 16 == b % 256
  {
  }

  /** OR with a number shifted left by 2, 4, 5, 6 or 8 bits: the bits below come from `b` alone. */
  lemma OrShift2(a: nat, b: nat)
    ensures Or(a * 4, b) == Or(a, b / 4) * 4 + b % 4
  {
    var x := 2 * a;
    assert a * 4 == 2 * x;
    OrDouble(x, b);
    OrDouble(a, b / 2);
    Halves(b, 2);
    var y := Or(a, b / 2 / 2);
    assert Or(x, b / 2) == 2 * y + b / 2 % 2;
  }

  lemma OrShift4(a: nat, b: nat)
    ensures Or(a * 16, b) == Or(a, b / 16) * 16 + b % 16
  {
    var x := a * 4;
    assert a * 16 == x * 4;
    OrShift2(x, b);
    OrShift2(a, b / 4);
    Quarters(b, 4);
    var y := Or(a, b / 4 / 4);
    assert Or(x, b / 4) == y * 4 + b / 4 % 4;
  }

  lemma OrShift5(a: nat, b: nat)
    ensures Or(a * 32, b) == Or(a, b / 32) * 32 + b % 32
  {
    var x := a * 16;
    assert a * 32 == 2 * x;
    OrDouble(x, b);
    OrShift4(a, b / 2);
    Halves(b, 16);
    var y := Or(a, b / 2 / 16);
    assert Or(x, b / 2) == y * 16 + b / 2 % 16;
  }

  lemma OrShift6(a: nat, b: nat)
    ensures Or(a * 64, b) == Or(a, b / 64) * 64 + b % 64
  {
    var x := a * 16;
    assert a * 64 == x * 4;
    OrShift2(x, b);
    OrShift4(a, b / 4);
    Quarters(b, 16);
    var y := Or(a, b / 4 / 16);
    assert Or(x, b / 4) == y * 16 + b / 4 % 16;
  }

  lemma OrShift8(a: nat, b: nat)
    ensures Or(a * 256, b) == Or(a, b / 256) * 256 + b % 256
  {
    var x := a * 16;
    assert a * 256 == x * 16;
    OrShift4(x, b);
    OrShift4(a, b / 16);
    Sixteenths(b);
    var y := Or(a, b / 16 / 16);
    assert Or(x, b / 16) == y * 16 + b / 16 % 16;
  }

  /** AND with a number shifted left by 2, 4, 5 or 6 bits: the bits below are clear. */
  lemma AndShift2(a: nat, b: nat)
    ensures And(a * 4, b) == And(a, b / 4) * 4
  {
    var x := 2 * a;
    assert a * 4 == 2 * x;
    AndDouble(x, b);
    AndDouble(a, b / 2);
    Halves(b, 2);
    var y := And(a, b / 2 / 2);
    assert And(x, b / 2) == 2 * y;
  }

  lemma AndShift4(a: nat, b: nat)
    ensures And(a * 16, b) == And(a, b / 16) * 16
  {
    var x := a * 4;
    assert a * 16 == x * 4;
    AndShift2(x, b);
    AndShift2(a, b / 4);
    Quarters(b, 4);
    var y := And(a, b / 4 / 4);
    assert And(x, b / 4) == y * 4;
  }

  lemma AndShift5(a: nat, b: nat)
    ensures And(a * 32, b) == And(a, b / 32) * 32
  {
    var x := a * 16;
    assert a * 32 == 2 * x;
    AndDouble(x, b);
    AndShift4(a, b / 2);
    Halves(b, 16);
    var y := And(a, b / 2 / 16);
    assert And(x, b / 2) == y * 16;
  }

  lemma AndShift6(a: nat, b: nat)
    ensures And(a * 64, b) == And(a, b / 64) * 64
  {
    var x := a * 16;
    assert a * 64 == x * 4;
    AndShift2(x, b);
    AndShift4(a, b / 4);
    Quarters(b, 16);
    var y := And(a, b / 4 / 16);
    assert And(x, b / 4) == y * 16;
  }

  /**
    The low byte of `v = x * 2^k + f`, for `f < 2^k` and k = 4, 5 or 6: `f`
    in the low k bits, and `x`'s low bits above them.
   */
  lemma LowByte4(v: nat, x: nat, f: nat)
    requires v == x * 16 + f && f < 16
    ensures v % 256 % 16 == f && v % 256 / 16 == x % 16
  {
    var q, r := x / 16, x % 16;
    assert v == 256 * q + (16 * r + f);
    ModBelow(q, 16 * r + f);
  }

  lemma LowByte5(v: nat, x: nat, f: nat)
    requires v == x * 32 + f && f < 32
    ensures v % 256 % 32 == f && v % 256 / 32 == x % 8
  {
    var q, r := x / 8, x % 8;
    assert v == 256 * q + (32 * r + f);
    ModBelow(q, 32 * r + f);
  }

  lemma LowByte6(v: nat, x: nat, f: nat)
    requires v == x * 64 + f && f < 64
    ensures v % 256 % 64 == f && v % 256 / 64 == x % 4
  {
    var q, r := x / 4, x % 4;
    assert v == 256 * q + (64 * r + f);
    ModBelow(q, 64 * r + f);
  }

  /** Adding a multiple of 256 does not change the low byte. */
  lemma ModBelow(q: nat, c: nat)
    requires c < 256
    ensures (256 * q + c) % 256 == c
  {
  }
}
