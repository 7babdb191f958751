/** The bit trick of next_power_of_two (src/unix/core.c) on 32-bit unsigned integers. */
module Bits {
  import opened Powers

  const UINT_MAX_1 := 0x1_0000_0000

  /** Bitwise or. */
  function Or(a: nat, b: nat): nat
    decreases a + b
  {
    if a == 0 && b == 0 then 0
    else 2 * Or(a / 2, b / 2) + (if a % 2 == 1 || b % 2 == 1 then 1 else 0)
  }

  lemma {:induction false} OrAtLeast(a: nat, b: nat)
    ensures Or(a, b) >= a && Or(a, b) >= b
    decreases a + b
  {
    if a != 0 || b != 0 { OrAtLeast(a / 2, b / 2); }
  }

  lemma {:induction false} OrBelow(a: nat, b: nat, k: nat)
    requires a < Pow(k) && b < Pow(k)
    ensures Or(a, b) < Pow(k)
    decreases k
  {
    if k > 0 && (a != 0 || b != 0) { OrBelow(a / 2, b / 2, k - 1); }
  }

  /** High bits that only one operand has stay as they are. */
  lemma {:induction false} OrHigh(h: nat, r: nat, s: nat, k: nat)
    requires r < Pow(k) && s < Pow(k)
    ensures Or(h * Pow(k) + r, s) == h * Pow(k) + Or(r, s)
    decreases k
  {
    if k == 0 {
      assert h * Pow(k) + r == h && s == 0 && r == 0;
      OrZero(h);
    } else {
      var p := Pow(k - 1);
      assert h * Pow(k) == 2 * (h * p);
      assert (2 * (h * p) + r) / 2 == h * p + r / 2 && (2 * (h * p) + r) % 2 == r % 2;
      OrHigh(h, r / 2, s / 2, k - 1);
    }
  }

  lemma {:induction false} OrZero(a: nat)
    ensures Or(a, 0) == a
    decreases a
  {
    if a != 0 { OrZero(a / 2); }
  }

  /** The m highest of the L bits of x are ones. */
  predicate TopOnes(x: nat, l: nat, m: nat) {
    m <= l && Pow(l) - Pow(l - m) <= x < Pow(l)
  }

  /** val | (val >> m). */
  function Smear(x: nat, m: nat): nat {
    QuotientBelow(x, Pow(m));
    Or(x, x / Pow(m))
  }

  function Min(a: nat, b: nat): nat { if a < b then a else b }

  lemma DivBelow(x: nat, d: nat, b: nat)
    requires d >= 1 && x < d * b
    ensures x / d < b
  {
    if x / d >= b { Scale(d, b, x / d); }
  }

  lemma DivAtLeast(x: nat, d: nat, b: int)
    requires d >= 1 && x >= d * b
    ensures x / d >= b
  {
    if x / d < b { Scale(d, x / d + 1, b); }
  }

  lemma Scale(d: nat, a: int, b: int)
    requires a <= b
    ensures d * a <= d * b
  {}

  /** One step of the trick doubles the run of ones. */
  lemma SmearStep(x: nat, l: nat, m: nat)
    requires TopOnes(x, l, Min(m, l)) && m >= 1
    ensures TopOnes(Smear(x, m), l, Min(2 * m, l))
  {
    hide Pow, Or;
    var s := x / Pow(m);
    OrAtLeast(x, s);
    assert s <= x by { QuotientBelow(x, Pow(m)); }
    OrBelow(x, s, l);
    if m < l {
      var k := l - m;
      PowSum(m, k);
      var h, p := Pow(m) - 1, Pow(k);
      assert Pow(m) * p == h * p + p by { Distribute(Pow(m), h, 1, p); }
      var r := x - h * p;
      ShiftedBelow(x, l, m);
      OrHigh(h, r, s, k);
      OrAtLeast(r, s);
      ShiftedAtLeast(x, l, m);
    }
  }

  lemma Distribute(c: int, a: int, b: int, p: int)
    requires c == a + b
    ensures c * p == a * p + b * p && p * c == p * a + p * b
  {}

  lemma QuotientBelow(x: nat, d: nat)
    requires d >= 1
    ensures 0 <= x / d <= x
  {}

  lemma ShiftedBelow(x: nat, l: nat, m: nat)
    requires x < Pow(l) && m <= l
    ensures x / Pow(m) < Pow(l - m)
  {
    hide Pow;
    PowSum(m, l - m);
    DivBelow(x, Pow(m), Pow(l - m));
  }

  lemma ShiftedAtLeast(x: nat, l: nat, m: nat)
    requires m < l && Pow(l) - Pow(l - m) <= x < Pow(l)
    ensures x / Pow(m) >= Pow(l - m) - Pow(l - Min(2 * m, l))
  {
    hide Pow;
    var d, k := Pow(m), l - m;
    PowSum(m, k);
    if 2 * m <= l {
      PowSum(m, l - 2 * m);
      var low := Pow(k) - Pow(l - 2 * m);
      Distribute(Pow(k), low, Pow(l - 2 * m), d);
      DivAtLeast(x, d, low);
    } else {
      PowMono(k, m);
      PowZero();
      Distribute(Pow(k), Pow(k) - 1, 1, d);
      DivAtLeast(x, d, Pow(k) - 1);
    }
  }

  lemma {:induction false} BitLength(x: nat) returns (l: nat)
    ensures TopOnes(x, l, Min(1, l)) && (x > 0 ==> l > 0 && Pow(l - 1) <= x) && (x == 0 ==> l == 0)
    decreases x
  {
    if x == 0 {
      l := 0;
    } else {
      l := BitLength(x / 2);
      l := l + 1;
    }
  }

  /** r is the least power of two that is not below v. */
  ghost predicate LeastPow(r: nat, v: nat) {
    v <= r && exists k: nat :: r == Pow(k) && (k > 0 ==> Pow(k - 1) < v)
  }

  lemma LeastPowAbove(r: nat, v: nat)
    requires LeastPow(r, v)
    ensures v <= r
  {}

  lemma LeastPowIsLeast(r: nat, v: nat, j: nat)
    requires LeastPow(r, v) && v <= Pow(j)
    ensures r <= Pow(j)
  {
    var k: nat :| r == Pow(k) && (k > 0 ==> Pow(k - 1) < v);
    if j < k { PowMono(j, k - 1); } else { PowMono(k, j); }
  }

  lemma Pow32()
    ensures Pow(31) == 0x8000_0000 && Pow(32) == UINT_MAX_1
  {
    Pow8();
    hide Pow;
    PowSum(8, 8);
    PowSum(16, 16);
    PowSum(1, 31);
    PowZero();
  }

  lemma Pow8()
    ensures Pow(8) == 256
  {
    assert Pow(4) == 16;
  }

  /** next_power_of_two: right from 1 to 2^31, and 0 for everything else. */
  method NextPowerOfTwo(v: nat) returns (val: nat)
    requires v < UINT_MAX_1
    ensures val < UINT_MAX_1
    ensures LeastPow(val, v) <==> 1 <= v <= 0x8000_0000
    ensures !(1 <= v <= 0x8000_0000) ==> val == 0
  {
    hide Pow, Or, Smear;
    Pow32();
    PowZero();
    val := (v - 1) % UINT_MAX_1;
    ghost var x := val;
    ghost var l := BitLength(x);
    assert l <= 32 by { if l > 32 { PowMono(32, l - 1); } }
    SmearStep(val, l, 1);
    val := Smear(val, 1);
    SmearStep(val, l, 2);
    val := Smear(val, 2);
    SmearStep(val, l, 4);
    val := Smear(val, 4);
    SmearStep(val, l, 8);
    val := Smear(val, 8);
    SmearStep(val, l, 16);
    val := Smear(val, 16);
    assert val == Pow(l) - 1;
    PowMono(l, 32);
    val := (val + 1) % UINT_MAX_1;
    if l < 32 {
      PowMono(l, 31);
      assert val == Pow(l) && v == x + 1;
    } else {
      assert val == 0 && x >= Pow(31);
    }
  }

  /** What maybe_resize computes from it: there is room, and the size is no more than 2^31. */
  lemma ResizeFits(size: nat, len: nat)
    requires LeastPow(size, len + 2) && len + 2 <= 0x8000_0000
    ensures len + 2 <= size <= 0x8000_0000
  {
    hide LeastPow, Pow;
    Pow32();
    LeastPowAbove(size, len + 2);
    LeastPowIsLeast(size, len + 2, 31);
  }
}
