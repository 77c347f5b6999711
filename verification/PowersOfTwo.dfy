/** The rounding of buffer sizes to powers of two, over the bits of non-negative ints. */
module PowersOfTwo {
  /** `a | b` */
  function Or(a: nat, b: nat): nat {
    if a == 0 && b == 0 then 0
    else Or(a / 2, b / 2) * 2 + if a % 2 == 1 || b % 2 == 1 then 1 else 0
  }

  /** `x >> n` */
  function Shift(x: nat, n: nat): nat {
    if n == 0 then x else Shift(x / 2, n - 1)
  }

  function Power(k: nat): nat {
    if k == 0 then 1 else 2 * Power(k - 1)
  }

  predicate Bit(x: nat, i: nat) {
    Shift(x, i) % 2 == 1
  }

  /** Bit `k` is the highest of `x`, and the `j` bits from there down are set. */
  ghost predicate TopOnes(x: nat, k: nat, j: nat) {
    Shift(x, k) == 1 && forall i: nat | k < i + j && i <= k :: Bit(x, i)
  }

  lemma {:induction false} ShiftTwice(x: nat, m: nat, n: nat)
    ensures Shift(Shift(x, m), n) == Shift(x, m + n)
  {
    if m > 0 {
      ShiftTwice(x / 2, m - 1, n);
    }
  }

  lemma {:induction false} ShiftOr(a: nat, b: nat, n: nat)
    ensures Shift(Or(a, b), n) == Or(Shift(a, n), Shift(b, n))
  {
    if n > 0 {
      assert Or(a, b) / 2 == Or(a / 2, b / 2);
      ShiftOr(a / 2, b / 2, n - 1);
    }
  }

  lemma {:induction false} ShiftZero(n: nat)
    ensures Shift(0, n) == 0
  {
    if n > 0 {
      ShiftZero(n - 1);
    }
  }

  /** One smearing step doubles the number of ones below the highest bit. */
  lemma SmearStep(x: nat, k: nat, j: nat)
    requires 0 < j && TopOnes(x, k, j)
    ensures TopOnes(Or(x, Shift(x, j)), k, 2 * j)
  {
    var y := Or(x, Shift(x, j));
    SmearHighest(x, k, j);
    hide Or, Shift, Bit;
    forall i: nat | k < i + 2 * j && i <= k
      ensures Bit(y, i)
    {
      SmearBit(x, j, i);
    }
  }

  lemma SmearBit(x: nat, j: nat, i: nat)
    ensures Bit(Or(x, Shift(x, j)), i) <==> Bit(x, i) || Bit(x, i + j)
  {
    hide Or, Shift;
    ShiftOr(x, Shift(x, j), i);
    ShiftTwice(x, j, i);
    OrOdd(Shift(x, i), Shift(x, j + i));
  }

  lemma OrOdd(a: nat, b: nat)
    ensures Or(a, b) % 2 == 1 <==> a % 2 == 1 || b % 2 == 1
  {
    assert a == 0 && b == 0 ==> Or(a, b) == 0;
  }

  lemma SmearHighest(x: nat, k: nat, j: nat)
    requires 0 < j && Shift(x, k) == 1
    ensures Shift(Or(x, Shift(x, j)), k) == 1
  {
    ShiftOr(x, Shift(x, j), k);
    ShiftTwice(x, j, k);
    ShiftTwice(x, k, j);
    assert Shift(1, j) == Shift(0, j - 1);
    ShiftZero(j - 1);
  }

  lemma {:induction false} HighestBit(x: nat) returns (k: nat)
    requires 0 < x
    ensures Shift(x, k) == 1 && Power(k) <= x < Power(k + 1)
  {
    if x == 1 {
      k := 0;
    } else {
      k := HighestBit(x / 2);
      k := k + 1;
    }
  }

  lemma {:induction false} AllOnes(x: nat, k: nat)
    requires TopOnes(x, k, k + 1)
    ensures x + 1 == Power(k + 1)
  {
    assert Bit(x, 0);
    if k > 0 {
      forall i: nat | i <= k - 1
        ensures Bit(x / 2, i)
      {
        assert Bit(x, i + 1);
      }
      AllOnes(x / 2, k - 1);
    }
  }

  lemma {:induction false} PowerGrows(a: nat, b: nat)
    requires a <= b
    ensures Power(a) <= Power(b)
  {
    if a < b {
      PowerGrows(a, b - 1);
    }
  }

  lemma PowerThirty()
    ensures Power(30) == 0x4000_0000
  {
    assert Power(8) == 256;
    assert Power(16) == 65536;
    assert Power(24) == 16777216;
  }

  /** `r` is the least power of two that is not below `x`. */
  ghost predicate RoundsUp(x: nat, r: nat) {
    && (exists k: nat :: r == Power(k))
    && x <= r
    && forall k: nat | x <= Power(k) :: r <= Power(k)
  }

  /** `pow2gt`, on the ints whose result an int holds. */
  method Pow2gt(x: nat) returns (r: nat)
    requires 1 <= x <= 0x4000_0000
    ensures RoundsUp(x, r) && r <= 0x4000_0000
  {
    var y := x - 1;
    y := Or(y, Shift(y, 1));
    y := Or(y, Shift(y, 2));
    y := Or(y, Shift(y, 4));
    y := Or(y, Shift(y, 8));
    y := Or(y, Shift(y, 16));
    r := y + 1;
    Smeared(x);
  }

  function Smear(x: nat): nat {
    var a := Or(x, Shift(x, 1));
    var b := Or(a, Shift(a, 2));
    var c := Or(b, Shift(b, 4));
    var d := Or(c, Shift(c, 8));
    Or(d, Shift(d, 16))
  }

  lemma SmearOnes(x: nat, k: nat)
    requires Shift(x, k) == 1 && k < 32
    ensures Smear(x) + 1 == Power(k + 1)
  {
    hide Or, Shift;
    assert TopOnes(x, k, 1) by {
      assert Bit(x, k);
    }
    SmearStep(x, k, 1);
    var a := Or(x, Shift(x, 1));
    SmearStep(a, k, 2);
    var b := Or(a, Shift(a, 2));
    SmearStep(b, k, 4);
    var c := Or(b, Shift(b, 4));
    SmearStep(c, k, 8);
    var d := Or(c, Shift(c, 8));
    SmearStep(d, k, 16);
    AllOnes(Smear(x), k);
  }

  lemma NextPower(x: nat, k: nat)
    requires Power(k) < x <= Power(k + 1)
    ensures RoundsUp(x, Power(k + 1))
  {
    forall n: nat | x <= Power(n)
      ensures Power(k + 1) <= Power(n)
    {
      if n <= k {
        PowerGrows(n, k);
      } else {
        PowerGrows(k + 1, n);
      }
    }
  }

  lemma Smeared(x: nat)
    requires 1 <= x <= 0x4000_0000
    ensures RoundsUp(x, Smear(x - 1) + 1) && Smear(x - 1) < 0x4000_0000
  {
    hide Or, Shift;
    assert Power(0) == 1;
    PowerThirty();
    if x == 1 {
      SmearNothing();
    } else {
      var k := HighestBit(x - 1);
      if 30 <= k {
        PowerGrows(30, k);
      }
      PowerGrows(k + 1, 30);
      SmearOnes(x - 1, k);
      NextPower(x, k);
    }
  }

  lemma SmearNothing()
    ensures Smear(0) == 0
  {}
}
