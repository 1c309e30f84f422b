/** The watchdog's timeout in 64-bit arithmetic (pkg/runtime/runtime.go). */
module Timeouts {
  import opened Bytes

  function Pow2(n: nat): (p: nat)
    ensures 1 <= p
  {
    if n == 0 then 1 else 2 * Pow2(n - 1)
  }

  /** `uint64(4) << mult` */
  function Multiplier(mult: Byte): nat {
    (4 * Pow2(mult)) % TWO_64
  }

  /** `conn.RPI * time.Duration(mult)` */
  function Timeout(rpi: int, mult: Byte): int {
    Wrap64(rpi * Wrap64(Multiplier(mult)))
  }

  lemma WrapIgnoresMultiples(n: int, k: int)
    ensures Wrap64(n + k * TWO_64) == Wrap64(n)
  {
    assert (n + k * TWO_64) % TWO_64 == n % TWO_64;
  }

  lemma TimeoutIsWrapped(rpi: int, mult: Byte)
    ensures Timeout(rpi, mult) == Wrap64(rpi * (4 * Pow2(mult)))
  {
    var s := 4 * Pow2(mult);
    var w := Wrap64(s % TWO_64);
    assert exists k: int :: w == s - k * TWO_64 by {
      var q := s / TWO_64;
      assert s % TWO_64 == s - q * TWO_64;
      assert w == s - q * TWO_64 || w == s - (q + 1) * TWO_64;
    }
    var k: int :| w == s - k * TWO_64;
    assert rpi * w == rpi * s + (-(rpi * k)) * TWO_64;
    WrapIgnoresMultiples(rpi * s, -(rpi * k));
  }

  /** The computed timeout is the intended product exactly when that product
      is a 64-bit integer.
   */
  lemma TimeoutExactIff(rpi: int, mult: Byte)
    ensures Timeout(rpi, mult) == rpi * (4 * Pow2(mult)) <==>
            -TWO_63 <= rpi * (4 * Pow2(mult)) < TWO_63
  {
    TimeoutIsWrapped(rpi, mult);
  }

  lemma MulLess(r: nat, f: nat, g: nat)
    requires f <= g
    ensures 0 <= r * f <= r * g
  {
  }

  lemma SmallPowers(n: nat)
    requires n <= 7
    ensures Pow2(n) <= 128
  {
    assert Pow2(4) == 16 && Pow2(7) == 8 * Pow2(4);
  }

  /** The multipliers and intervals of the protocol are within the bound. */
  lemma ProtocolTimeoutsAreExact(rpi: int, mult: Byte)
    requires mult <= 7 && 0 <= rpi <= 0x1_0000_0000 * 1000
    ensures Timeout(rpi, mult) == rpi * (4 * Pow2(mult))
  {
    SmallPowers(mult);
    MulLess(rpi, 4 * Pow2(mult), 512);
    TimeoutExactIff(rpi, mult);
  }

  lemma {:induction false} Pow2Add(a: nat, b: nat)
    ensures Pow2(a + b) == Pow2(a) * Pow2(b)
  {
    if a > 0 { Pow2Add(a - 1, b); }
  }

  lemma Pow2Of62()
    ensures Pow2(62) == 0x4000_0000_0000_0000
  {
    assert Pow2(15) == 0x8000 && Pow2(16) == 2 * Pow2(15) by {
      Pow2Add(8, 7);
      assert Pow2(4) == 16 && Pow2(7) == 8 * Pow2(4) && Pow2(8) == 2 * Pow2(7);
    }
    Pow2Add(15, 16);
    Pow2Add(31, 31);
  }

  lemma MultipleIsZero(n: nat)
    ensures (n * TWO_64) % TWO_64 == 0
  {
  }

  /** The shift leaves nothing from 62 on, and something below. */
  lemma MultiplierIsZeroIff(mult: Byte)
    ensures Multiplier(mult) == 0 <==> mult >= 62
  {
    Pow2Of62();
    if mult >= 62 {
      Pow2Add(62, mult - 62);
      assert 4 * Pow2(mult) == Pow2(mult - 62) * TWO_64;
      MultipleIsZero(Pow2(mult - 62));
    } else {
      Pow2Add(mult, 62 - mult);
      assert Pow2(62 - mult) == 2 * Pow2(61 - mult);
      MulAtLeastTwice(Pow2(mult), Pow2(62 - mult));
    }
  }

  lemma MulAtLeastTwice(a: nat, b: nat)
    requires b >= 2
    ensures 2 * a <= a * b
  {
  }

  /** A multiplier of 62 or more makes the timeout zero, whatever the interval,
      and no smaller multiplier does.
   */
  lemma LargeMultiplierTimesOutAtOnce(mult: Byte)
    ensures (forall rpi: int :: Timeout(rpi, mult) == 0) <==> mult >= 62
  {
    MultiplierIsZeroIff(mult);
    if mult >= 62 {
      assert forall rpi: int :: rpi * 0 == 0;
    } else {
      assert Timeout(1, mult) == Wrap64(Wrap64(Multiplier(mult)));
      WrapIsZero(Multiplier(mult));
    }
  }

  lemma WrapIsZero(n: nat)
    requires 0 < n < TWO_64
    ensures Wrap64(Wrap64(n)) != 0
  {
  }
}
