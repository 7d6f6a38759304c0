/** The redelivery delay after a Nack, in the 64-bit arithmetic it is computed with. */
module NakBackoff {
  import opened Wrappers

  // x << s for a shift below the word size.
  function ShiftLeft(x: Int64, s: nat): Int64 {
    Wrap(x * Pow2(s))
  }

  function NakDelay(minDelay: Int64, maxDelay: Int64, delivered: nat): (d: Int64)
    ensures 0 < minDelay <= maxDelay ==> minDelay <= d <= maxDelay
  {
    if delivered <= 1 then minDelay
    else
      var shift := delivered - 1;
      if shift >= 62 || ShiftLeft(minDelay, shift) > maxDelay || ShiftLeft(minDelay, shift) < minDelay then maxDelay
      else ShiftLeft(minDelay, shift)
  }

  // What the delay is meant to be: minDelay doubled per extra delivery, capped at maxDelay.
  function Ideal(minDelay: Int64, maxDelay: Int64, delivered: nat): int {
    var d := minDelay * Pow2(if delivered <= 1 then 0 else delivered - 1);
    if d > maxDelay then maxDelay else d
  }

  // The doubled delay overflows, and the first number from minDelay on that differs from it by a multiple
  // of 2^64 lies below maxDelay.
  predicate Aliased(minDelay: Int64, maxDelay: Int64, shift: nat) {
    var d := minDelay * Pow2(shift);
    d >= TWO_63 && minDelay + (d - minDelay) % TWO_64 < maxDelay
  }

  lemma WrapsBetween(d: int, minDelay: Int64, maxDelay: Int64)
    requires 0 < minDelay <= maxDelay
    ensures minDelay <= Wrap(d) < maxDelay <==> minDelay + (d - minDelay) % TWO_64 < maxDelay
  {
  }

  lemma Pow2Add(a: nat, b: nat)
    ensures Pow2(a + b) == Pow2(a) * Pow2(b)
  {
    if a > 0 {
      Pow2Add(a - 1, b);
    }
  }

  lemma Pow2Monotone(a: nat, b: nat)
    requires a <= b
    ensures Pow2(a) <= Pow2(b)
  {
    Pow2Add(a, b - a);
    assert Pow2(a) * Pow2(b - a) >= Pow2(a) * 1;
  }

  lemma Pow2Values()
    ensures Pow2(9) == 512 && Pow2(62) == 0x4000_0000_0000_0000 && Pow2(63) == TWO_63 && Pow2(64) == TWO_64
    ensures Pow2(72) == 512 * TWO_63
  {
    assert Pow2(8) == 256;
    Pow2Add(8, 8);
    Pow2Add(16, 16);
    Pow2Add(32, 16);
    Pow2Add(48, 8);
    Pow2Add(56, 6);
    Pow2Add(63, 9);
  }

  lemma WrapSmall(x: int)
    requires 0 <= x < TWO_63
    ensures Wrap(x) == x
  {
  }

  // For every delivery count the delay is the doubled-and-capped one exactly when the shift neither
  // aliases nor is cut off while the doubling is still below the cap.
  lemma NakDelayIsIdealIff(minDelay: Int64, maxDelay: Int64, delivered: nat)
    requires 0 < minDelay <= maxDelay
    ensures NakDelay(minDelay, maxDelay, delivered) == Ideal(minDelay, maxDelay, delivered) <==>
            || delivered <= 1
            || (delivered > 62 && minDelay * Pow2(delivered - 1) >= maxDelay)
            || (delivered <= 62 && !Aliased(minDelay, maxDelay, delivered - 1))
  {
    if 1 < delivered <= 62 {
      var v := minDelay * Pow2(delivered - 1);
      assert v >= minDelay by {
        assert Pow2(delivered - 1) >= 1;
      }
      if v < TWO_63 {
        WrapSmall(v);
      }
      WrapsBetween(v, minDelay, maxDelay);
    }
  }

  // The delay is the doubled-and-capped one for every delivery count exactly when 62 doublings reach the
  // cap and no shift from 1 to 61 aliases.
  lemma AlwaysIdealIff(minDelay: Int64, maxDelay: Int64)
    requires 0 < minDelay <= maxDelay
    ensures (forall n: nat :: NakDelay(minDelay, maxDelay, n) == Ideal(minDelay, maxDelay, n)) <==>
            maxDelay <= minDelay * Pow2(62) && forall s: nat :: 1 <= s <= 61 ==> !Aliased(minDelay, maxDelay, s)
  {
    hide NakDelay, Ideal, Aliased, Pow2;
    if maxDelay <= minDelay * Pow2(62) && forall s: nat :: 1 <= s <= 61 ==> !Aliased(minDelay, maxDelay, s) {
      forall n: nat
        ensures NakDelay(minDelay, maxDelay, n) == Ideal(minDelay, maxDelay, n)
      {
        NakDelayIsIdealIff(minDelay, maxDelay, n);
        if n > 62 {
          CapStaysReached(minDelay, maxDelay, n - 1);
        }
      }
    } else if maxDelay <= minDelay * Pow2(62) {
      var s: nat :| 1 <= s <= 61 && Aliased(minDelay, maxDelay, s);
      NakDelayIsIdealIff(minDelay, maxDelay, s + 1);
    } else {
      NakDelayIsIdealIff(minDelay, maxDelay, 63);
    }
  }

  lemma CapStaysReached(minDelay: int, maxDelay: int, shift: nat)
    requires 0 < minDelay && maxDelay <= minDelay * Pow2(62) && shift >= 62
    ensures maxDelay <= minDelay * Pow2(shift)
  {
    hide Pow2;
    Pow2Monotone(62, shift);
    Scale(Pow2(62), Pow2(shift), minDelay);
  }

  // A shifted multiple of 2^k never aliases while minDelay * maxDelay stays below 2^(63+k).
  lemma NeverAliased(minDelay: Int64, maxDelay: Int64, shift: nat, k: nat, m: nat)
    requires 0 < minDelay <= maxDelay && minDelay == m * Pow2(k)
    requires minDelay * maxDelay < Pow2(63 + k)
    ensures !Aliased(minDelay, maxDelay, shift)
  {
    ShiftedMultiple(minDelay, shift, k, m);
    MultipleWraps(m, k + shift);
    WrapsBetween(minDelay * Pow2(shift), minDelay, maxDelay);
    if minDelay * Pow2(shift) >= TWO_63 {
      BigStep(minDelay, maxDelay, shift, k);
    }
  }

  lemma ShiftedMultiple(minDelay: int, shift: nat, k: nat, m: nat)
    requires minDelay == m * Pow2(k)
    ensures minDelay * Pow2(shift) == m * Pow2(k + shift)
  {
    Pow2Add(k, shift);
    Regroup(m, Pow2(k), Pow2(shift));
  }

  lemma Regroup(a: int, b: int, c: int)
    ensures (a * b) * c == a * (b * c)
  {
  }

  // A multiple of 2^e wraps to something not positive or to at least 2^e.
  lemma MultipleWraps(m: nat, e: nat)
    ensures Wrap(m * Pow2(e)) <= 0 || Wrap(m * Pow2(e)) >= Pow2(e)
  {
    hide Pow2;
    Pow2Values();
    if e >= 64 {
      var q := Pow2(e - 64);
      Pow2Add(e - 64, 64);
      assert m * Pow2(e) == (m * q) * TWO_64;
      MultipleWrapsToZero(m * q);
    } else {
      Pow2Add(e, 64 - e);
      MultipleStaysMultiple(m, Pow2(e), Pow2(64 - e));
    }
  }

  // Once the true product overflows, the step of the shifted values exceeds maxDelay.
  lemma BigStep(minDelay: Int64, maxDelay: Int64, shift: nat, k: nat)
    requires 0 < minDelay <= maxDelay && minDelay * Pow2(shift) >= TWO_63
    requires minDelay * maxDelay < Pow2(63 + k)
    ensures Pow2(k + shift) > maxDelay
  {
    Pow2Values();
    Pow2Add(63, k);
    Pow2Add(k, shift);
    StepExceeds(minDelay, maxDelay, Pow2(k), Pow2(shift), TWO_63);
  }

  lemma StepExceeds(m: int, bound: int, a: nat, b: nat, c: nat)
    requires m > 0 && m * b >= c && m * bound < c * a
    ensures a * b > bound
  {
    Scale(c, m * b, a);
    assert m * b * a == m * (a * b);
    if a * b <= bound {
      Scale(a * b, bound, m);
    }
  }

  lemma MultipleWrapsToZero(q: nat)
    ensures Wrap(q * TWO_64) == 0
  {
    assert (q * TWO_64) % TWO_64 == 0;
  }

  lemma MultipleStaysMultiple(m: nat, p: nat, r: nat)
    requires p > 0 && r > 0 && p * r == TWO_64
    ensures Wrap(m * p) <= 0 || Wrap(m * p) >= p
  {
    var v := m * p;
    var q := v / TWO_64;
    assert v % TWO_64 == v - q * TWO_64;
    assert v - q * TWO_64 == (m - q * r) * p by {
      assert q * (p * r) == (q * r) * p;
    }
    var c := m - q * r;
    if c > 0 {
      Scale(1, c, p);
    }
    if c <= 0 {
      assert c * p <= 0;
    }
  }

  // With a power of two dividing minDelay, room in the product and a cap within 62 doublings, the
  // delay is min(minDelay * 2^(delivered - 1), maxDelay) for every delivery count.
  lemma NakDelayIsIdeal(minDelay: Int64, maxDelay: Int64, delivered: nat, k: nat, m: nat)
    requires 0 < minDelay <= maxDelay && minDelay == m * Pow2(k)
    requires minDelay * maxDelay < Pow2(63 + k)
    requires maxDelay <= minDelay * Pow2(62)
    ensures NakDelay(minDelay, maxDelay, delivered) == Ideal(minDelay, maxDelay, delivered)
  {
    NakDelayIsIdealIff(minDelay, maxDelay, delivered);
    if delivered > 62 {
      CapStaysReached(minDelay, maxDelay, delivered - 1);
    } else if delivered > 1 {
      NeverAliased(minDelay, maxDelay, delivered - 1, k, m);
    }
  }

  const NAK_DELAY_MIN: Int64 := 5_000_000_000
  const NAK_DELAY_MAX: Int64 := 300_000_000_000

  // The defaults, 5s and 5m, qualify with k = 9.
  lemma DefaultDelays(delivered: nat)
    ensures NakDelay(NAK_DELAY_MIN, NAK_DELAY_MAX, delivered) == Ideal(NAK_DELAY_MIN, NAK_DELAY_MAX, delivered)
  {
    Pow2Values();
    NakDelayIsIdeal(NAK_DELAY_MIN, NAK_DELAY_MAX, delivered, 9, 9_765_625);
  }

  // Five seconds, doubled with every delivery, and five minutes from the seventh on.
  lemma DefaultDelaySteps(delivered: nat)
    ensures NakDelay(NAK_DELAY_MIN, NAK_DELAY_MAX, delivered) ==
            if delivered <= 1 then 5_000_000_000
            else if delivered == 2 then 10_000_000_000
            else if delivered == 3 then 20_000_000_000
            else if delivered == 4 then 40_000_000_000
            else if delivered == 5 then 80_000_000_000
            else if delivered == 6 then 160_000_000_000
            else 300_000_000_000
  {
    DefaultDelays(delivered);
    assert Pow2(5) == 32 && Pow2(6) == 64;
    if delivered >= 7 {
      hide Pow2;
      Pow2Monotone(6, delivered - 1);
    }
  }

  // Validated bounds alone are not enough: 9ns shifted by 61 aliases to 2^61, and 1ns is sent to a
  // cap above 2^62 one doubling too early.
  lemma ValidBoundsCanMiss()
    ensures NakDelay(9, 0x4000_0000_0000_0000, 62) == 0x2000_0000_0000_0000
    ensures Ideal(9, 0x4000_0000_0000_0000, 62) == 0x4000_0000_0000_0000
    ensures NakDelay(1, 0x4000_0000_0000_0005, 63) == 0x4000_0000_0000_0005
    ensures Ideal(1, 0x4000_0000_0000_0005, 63) == 0x4000_0000_0000_0000
  {
    Pow2Values();
    assert Pow2(61) == 0x2000_0000_0000_0000;
  }
}
