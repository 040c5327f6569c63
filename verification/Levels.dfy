/**
 The level generator: one 32-bit draw decides the height of a tower.
 */
module Levels {

  const TWO32: nat := 0x1_0000_0000

  function Pow2(n: nat): (r: nat)
    ensures r > 0
  {
    if n == 0 then 1 else 2 * Pow2(n - 1)
  }

  lemma {:induction false} Pow2Adds(m: nat, n: nat)
    ensures Pow2(m + n) == Pow2(m) * Pow2(n)
    decreases m
  {
    if m > 0 {
      Pow2Adds(m - 1, n);
      assert Pow2(m + n) == 2 * Pow2(m - 1 + n);
    }
  }

  lemma {:induction false} Pow2Grows(m: nat, n: nat)
    requires m <= n
    ensures Pow2(m) <= Pow2(n)
    decreases n
  {
    if m < n {
      Pow2Grows(m, n - 1);
    }
  }

  lemma Pow32()
    ensures Pow2(32) == TWO32 && Pow2(20) == 0x10_0000
  {
    assert Pow2(10) == 1024;
    Pow2Adds(10, 10);
    Pow2Adds(20, 10);
    Pow2Adds(30, 2);
  }

  /** The leading zero bits of `t` seen as a word of `width` bits. */
  function LeadingZeros(t: nat, width: nat): (z: nat)
    ensures z <= width
  {
    if width == 0 || t >= Pow2(width - 1) then 0 else 1 + LeadingZeros(t, width - 1)
  }

  /** More than `k` leading zeros is being less than the matching power. */
  lemma {:induction false} LeadingZerosAtLeast(t: nat, width: nat, k: nat)
    requires k <= width && t < Pow2(width)
    ensures LeadingZeros(t, width) >= k <==> t < Pow2(width - k)
    decreases k
  {
    if k > 0 {
      if t >= Pow2(width - 1) {
        Pow2Grows(width - k, width - 1);
      } else {
        LeadingZerosAtLeast(t, width - 1, k - 1);
      }
    }
  }

  function Min(a: nat, b: nat): nat { if a <= b then a else b }

  /** The level a draw gives: one more than its leading zeros, capped by the list's maximum and
      by one more than its present level. */
  function LevelOf(t: nat, maxlevel: nat, curlevel: nat): (lev: nat)
    requires maxlevel >= 1
    ensures 1 <= lev <= maxlevel && lev <= curlevel + 1
  {
    Min(1 + LeadingZeros(t, 32), Min(maxlevel, curlevel + 1))
  }

  /** A draw gives a level above `k` exactly when the caps allow one and it has `k` leading
      zeros. */
  lemma LevelAboveIff(t: nat, maxlevel: nat, curlevel: nat, k: nat)
    requires 1 <= maxlevel && t < TWO32 && k <= 32
    ensures LevelOf(t, maxlevel, curlevel) > k <==> k < maxlevel && k <= curlevel && t < Pow2(32 - k)
  {
    Pow32();
    LeadingZerosAtLeast(t, 32, k);
  }

  /** The generator, as a loop that doubles a 32-bit `j`, which never overflows. */
  method GenLevel(maxlevel: nat, curlevel: nat, t: nat) returns (lev: nat)
    requires 1 <= maxlevel <= 20 && t < TWO32
    ensures lev == LevelOf(t, maxlevel, curlevel)
  {
    Pow32();
    lev := 1;
    var j := 2;
    while lev < maxlevel
      invariant 1 <= lev <= maxlevel && lev <= curlevel + 1
      invariant j == Pow2(lev) && t < Pow2(32 - (lev - 1))
    {
      Threshold(lev, t);
      hide Pow2;
      if t > 0xffff_ffff / j || lev > curlevel {
        break;
      }
      Pow2Grows(lev + 1, 20);
      lev := lev + 1;
      j := (j * 2) % TWO32;
    }
    LevelAboveIff(t, maxlevel, curlevel, lev - 1);
    LevelAboveIff(t, maxlevel, curlevel, lev);
  }

  lemma {:induction false} MulGrows(d: nat, a: nat, b: nat)
    requires a < b
    ensures d * a + d <= d * b
    decreases b
  {
    assert d * b == d * (b - 1) + d;
    if a < b - 1 {
      MulGrows(d, a, b - 1);
    }
  }

  lemma MulOrder(d: nat, a: nat, b: nat)
    requires d > 0
    ensures d * a <= d * b <==> a <= b
  {
    if a < b {
      MulGrows(d, a, b);
    } else if b < a {
      MulGrows(d, b, a);
    }
  }

  /** Comparing with a quotient is comparing with a product. */
  lemma QuotientBelow(n: nat, d: nat, t: nat)
    requires d > 0
    ensures n / d < t <==> n < d * t
  {
    var q := n / d;
    assert n == d * q + n % d;
    if q < t {
      MulGrows(d, q, t);
    } else if t < q {
      MulGrows(d, t, q);
    }
  }

  /** The threshold the loop computes by division. */
  lemma Threshold(lev: nat, t: nat)
    requires 1 <= lev <= 32
    ensures t > 0xffff_ffff / Pow2(lev) <==> t >= Pow2(32 - lev)
  {
    Pow32();
    Pow2Adds(lev, 32 - lev);
    QuotientBelow(0xffff_ffff, Pow2(lev), t);
    MulOrder(Pow2(lev), Pow2(32 - lev), t);
  }

  // ----- the distribution

  function Below(n: nat): (s: set<nat>)
    ensures |s| == n
    ensures forall t: nat :: t in s <==> t < n
  {
    if n == 0 then {} else Below(n - 1) + {n - 1}
  }

  /** The draws that give a level above `k`. */
  ghost function DrawsAbove(maxlevel: nat, curlevel: nat, k: nat): (s: set<nat>)
    requires 1 <= maxlevel
  {
    set t: nat | t < TWO32 && LevelOf(t, maxlevel, curlevel) > k
  }

  /** For every `k` under the caps, exactly 2^(32-k) of the 2^32 draws give a level above `k`. */
  lemma Distribution(maxlevel: nat, curlevel: nat, k: nat)
    requires 1 <= maxlevel <= 20 && k < maxlevel && k <= curlevel
    ensures |DrawsAbove(maxlevel, curlevel, k)| == Pow2(32 - k)
  {
    Pow32();
    Pow2Grows(32 - k, 32);
    forall t: nat | t < TWO32
      ensures t in DrawsAbove(maxlevel, curlevel, k) <==> t in Below(Pow2(32 - k))
    {
      LevelAboveIff(t, maxlevel, curlevel, k);
    }
    assert DrawsAbove(maxlevel, curlevel, k) == Below(Pow2(32 - k));
  }
}
