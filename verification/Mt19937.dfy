/**
 The random numbers: the generator MT19937, whose state array is regenerated in place 624 words
 at a time, and the infinite recurrence that it computes.
 */
module Mt19937 {
  import Levels

  const RAND_N: nat := 624
  const M: nat := 397
  /** A word of the state; the array of them is the generator's own. */
  type Word = w: bv32 | true

  const SEED_VALUE: bv32 := 0x1571

  // ----- tempering; the masks are TEMPERING_MASK_B and TEMPERING_MASK_C

  function ShiftU(y: bv32): bv32 { y ^ (y >> 11) }

  function ShiftS(y: bv32): bv32 { y ^ ((y << 7) & 0x9d2c5680) }

  function ShiftT(y: bv32): bv32 { y ^ ((y << 15) & 0xefc60000) }

  function ShiftL(y: bv32): bv32 { y ^ (y >> 18) }

  function Temper(y: bv32): bv32 {
    ShiftL(ShiftT(ShiftS(ShiftU(y))))
  }

  function UnshiftU(z: bv32): bv32 { z ^ (z >> 11) ^ (z >> 22) }

  function UnshiftS(z: bv32): bv32 {
    z ^ ((z << 7) & 0x9d2c5680) ^ ((z << 14) & 0x94284000) ^ ((z << 21) & 0x14200000) ^ ((z << 28) & 0x10000000)
  }

  /** The inverse of tempering: each shift undone, the last one first.  The third and the fourth
      undo themselves. */
  function Untemper(z: bv32): bv32 {
    UnshiftU(UnshiftS(ShiftT(ShiftL(z))))
  }

  lemma BitsU(y: bv32)
    ensures ShiftU(y) == y ^ (y >> 11) && UnshiftU(y) == y ^ (y >> 11) ^ (y >> 22)
  {
  }

  lemma BitsUndoU(y: bv32)
    ensures UnshiftU(y ^ (y >> 11)) == y && ShiftU(y ^ (y >> 11) ^ (y >> 22)) == y
  {
  }

  lemma UndoU(y: bv32)
    ensures UnshiftU(ShiftU(y)) == y && ShiftU(UnshiftU(y)) == y
  {
    hide ShiftU, UnshiftU;
    BitsU(y);
    BitsUndoU(y);
  }

  lemma BitsS(y: bv32)
    ensures ShiftS(y) == y ^ ((y << 7) & 0x9d2c5680)
    ensures UnshiftS(y)
         == y ^ ((y << 7) & 0x9d2c5680) ^ ((y << 14) & 0x94284000) ^ ((y << 21) & 0x14200000) ^ ((y << 28) & 0x10000000)
  {
  }

  lemma BitsUndoS(y: bv32)
    ensures UnshiftS(y ^ ((y << 7) & 0x9d2c5680)) == y
    ensures ShiftS(y ^ ((y << 7) & 0x9d2c5680) ^ ((y << 14) & 0x94284000)
                     ^ ((y << 21) & 0x14200000) ^ ((y << 28) & 0x10000000))
         == y
  {
  }

  lemma UndoS(y: bv32)
    ensures UnshiftS(ShiftS(y)) == y && ShiftS(UnshiftS(y)) == y
  {
    hide ShiftS, UnshiftS;
    BitsS(y);
    BitsUndoS(y);
  }

  lemma BitsT(y: bv32)
    ensures ShiftT(y) == y ^ ((y << 15) & 0xefc60000) && ShiftT(y ^ ((y << 15) & 0xefc60000)) == y
  {
  }

  lemma UndoT(y: bv32)
    ensures ShiftT(ShiftT(y)) == y
  {
    hide ShiftT;
    BitsT(y);
  }

  lemma BitsL(y: bv32)
    ensures ShiftL(y) == y ^ (y >> 18) && ShiftL(y ^ (y >> 18)) == y
  {
  }

  lemma UndoL(y: bv32)
    ensures ShiftL(ShiftL(y)) == y
  {
    hide ShiftL;
    BitsL(y);
  }

  /** Tempering is a bijection of the 32-bit words. */
  lemma TemperBijective(y: bv32)
    ensures Untemper(Temper(y)) == y && Temper(Untemper(y)) == y
  {
    hide ShiftU, ShiftS, ShiftT, ShiftL, UnshiftU, UnshiftS;
    UndoU(y);
    UndoS(ShiftU(y));
    UndoT(ShiftS(ShiftU(y)));
    UndoL(ShiftT(ShiftS(ShiftU(y))));
    UndoL(y);
    UndoT(ShiftL(y));
    UndoS(ShiftT(ShiftL(y)));
    UndoU(UnshiftS(ShiftT(ShiftL(y))));
  }

  // ----- the recurrence

  function TopBit(x: bv32): bv32 { x & 0x80000000 }

  function Low(x: bv32): bv32 { x & 0x7fffffff }

  /** The top bit of one word with the other bits of the next. */
  function Joined(x0: bv32, x1: bv32): bv32 { TopBit(x0) | Low(x1) }

  /** The third word mixed with the joined ones and, if they are odd together, with MATRIX_A. */
  function Mix(y: bv32, xm: bv32): bv32 {
    if y & 1 == 0 then xm ^ (y >> 1) else xm ^ (y >> 1) ^ 0x9908b0df
  }

  function Twist(x0: bv32, x1: bv32, xm: bv32): bv32 {
    Mix(Joined(x0, x1), xm)
  }

  /** What is mixed in can be taken out: the top bit of MATRIX_A shows whether it was odd. */
  function Unmix(z: bv32, xm: bv32): bv32 {
    if (z ^ xm) & 0x80000000 == 0 then (z ^ xm) << 1 else ((z ^ xm ^ 0x9908b0df) << 1) | 1
  }

  lemma BitsMix(y: bv32, xm: bv32)
    ensures Mix(y, xm) == if y & 1 == 0 then xm ^ (y >> 1) else xm ^ (y >> 1) ^ 0x9908b0df
  {
  }

  lemma BitsUnmixEven(y: bv32, xm: bv32)
    requires y & 1 == 0
    ensures Unmix(xm ^ (y >> 1), xm) == y
  {
  }

  lemma BitsUnmixOdd(y: bv32, xm: bv32)
    requires y & 1 != 0
    ensures Unmix(xm ^ (y >> 1) ^ 0x9908b0df, xm) == y
  {
  }

  lemma UndoMix(y: bv32, xm: bv32)
    ensures Unmix(Mix(y, xm), xm) == y
  {
    hide Mix, Unmix;
    BitsMix(y, xm);
    if y & 1 == 0 {
      BitsUnmixEven(y, xm);
    } else {
      BitsUnmixOdd(y, xm);
    }
  }

  lemma BitsParts(x0: bv32, x1: bv32)
    ensures TopBit((x0 & 0x80000000) | (x1 & 0x7fffffff)) == x0 & 0x80000000
    ensures Low((x0 & 0x80000000) | (x1 & 0x7fffffff)) == x1 & 0x7fffffff
    ensures TopBit(x0) == x0 & 0x80000000 && Low(x1) == x1 & 0x7fffffff
  {
  }

  lemma BitsWhole(x: bv32)
    ensures TopBit(x) | Low(x) == x && TopBit(0) == 0 && Low(0) == 0
  {
  }

  lemma JoinedParts(x0: bv32, x1: bv32)
    ensures TopBit(Joined(x0, x1)) == TopBit(x0) && Low(Joined(x0, x1)) == Low(x1)
  {
    hide TopBit, Low;
    BitsParts(x0, x1);
  }

  /** What a new word tells about the words that went into it. */
  lemma Untwist(x0: bv32, x1: bv32, xm: bv32)
    ensures var y := Unmix(Twist(x0, x1, xm), xm); TopBit(y) == TopBit(x0) && Low(y) == Low(x1)
  {
    hide Mix, Unmix, TopBit, Low, Joined;
    UndoMix(Joined(x0, x1), xm);
    JoinedParts(x0, x1);
  }

  lemma WordIsParts(x: bv32, y: bv32)
    requires TopBit(x) == TopBit(y) && Low(x) == Low(y)
    ensures x == y
  {
    hide TopBit, Low;
    BitsWhole(x);
    BitsWhole(y);
  }

  /** The n-th word of the sequence that the first 624 start. */
  function X(s: seq<bv32>, n: nat): bv32
    requires |s| == RAND_N
  {
    if n < RAND_N then s[n] else Twist(X(s, n - RAND_N), X(s, n - RAND_N + 1), X(s, n - RAND_N + M))
  }

  lemma XStep(s: seq<bv32>, n: nat)
    requires |s| == RAND_N
    ensures X(s, n + RAND_N) == Twist(X(s, n), X(s, n + 1), X(s, n + M))
  {
  }

  lemma BitsOdd(x0: bv32, x1: bv32)
    ensures ((x0 & 0x80000000) | (x1 & 0x7fffffff)) & 1 == x1 & 1 && (x1 & 1 == 0 || x1 & 1 == 1)
  {
  }

  lemma BitsZero(x: bv32)
    ensures x ^ 0 == x
  {
  }

  lemma BitsTwist(x0: bv32, x1: bv32, xm: bv32)
    ensures Twist(x0, x1, xm)
         == xm ^ (((x0 & 0x80000000) | (x1 & 0x7fffffff)) >> 1) ^ (if x1 & 1 == 1 then 0x9908b0df else 0)
  {
    var y := (x0 & 0x80000000) | (x1 & 0x7fffffff);
    assert Joined(x0, x1) == y;
    BitsOdd(x0, x1);
    hide Joined, Mix, Unmix;
    BitsMix(y, xm);
    BitsZero(xm ^ (y >> 1));
  }

  /** The recurrence in full: a word comes from those 624, 623 and 227 places back. */
  ghost predicate Recurs(x0: bv32, x1: bv32, xm: bv32, y: bv32) {
    y == xm ^ (((x0 & 0x80000000) | (x1 & 0x7fffffff)) >> 1) ^ (if x1 & 1 == 1 then 0x9908b0df else 0)
  }

  lemma TwistRecurs(x0: bv32, x1: bv32, xm: bv32)
    ensures Recurs(x0, x1, xm, Twist(x0, x1, xm))
  {
    hide Twist;
    BitsTwist(x0, x1, xm);
  }

  lemma Recurrence(s: seq<bv32>, n: nat)
    requires |s| == 624
    ensures Recurs(X(s, n), X(s, n + 1), X(s, n + 397), X(s, n + 624))
  {
    hide X, Twist, Recurs;
    XStep(s, n);
    TwistRecurs(X(s, n), X(s, n + 1), X(s, n + 397));
  }

  lemma FirstWords(s: seq<bv32>, n: nat)
    requires |s| == 624 && n < 624
    ensures X(s, n) == s[n]
  {
  }

  // ----- the 19937 bits that matter

  /** From position `k` on, the two sequences have the same 19937 bits: the top bit of one word
      and the 623 words after it. */
  ghost predicate SameFrom(s: seq<bv32>, t: seq<bv32>, k: nat)
    requires |s| == |t| == RAND_N
  {
    TopBit(X(s, k)) == TopBit(X(t, k)) && forall j :: k < j < k + RAND_N ==> X(s, j) == X(t, j)
  }

  /** The bits at one position determine those at the next, and the other way round. */
  lemma SameStep(s: seq<bv32>, t: seq<bv32>, k: nat)
    requires |s| == |t| == RAND_N
    ensures SameFrom(s, t, k) <==> SameFrom(s, t, k + 1)
  {
    hide X, TopBit, Low, Mix, Unmix;
    XStep(s, k);
    XStep(t, k);
    if SameFrom(s, t, k) {
      assert X(s, k + 1) == X(t, k + 1) && X(s, k + M) == X(t, k + M);
    }
    if SameFrom(s, t, k + 1) {
      assert X(s, k + M) == X(t, k + M) && X(s, k + RAND_N) == X(t, k + RAND_N);
      Untwist(X(s, k), X(s, k + 1), X(s, k + M));
      Untwist(X(t, k), X(t, k + 1), X(t, k + M));
      WordIsParts(X(s, k + 1), X(t, k + 1));
    }
  }

  lemma {:induction false} SameAlways(s: seq<bv32>, t: seq<bv32>, k: nat)
    requires |s| == |t| == RAND_N
    ensures SameFrom(s, t, 0) <==> SameFrom(s, t, k)
  {
    hide SameFrom;
    if k > 0 {
      SameAlways(s, t, k - 1);
      SameStep(s, t, k - 1);
    }
  }

  /** The n-th number drawn after seeding. */
  function Output(s: seq<bv32>, n: nat): bv32
    requires |s| == RAND_N
  {
    Temper(X(s, RAND_N + n))
  }

  /** The n-th number drawn, in full: word 624 + n, tempered in four steps. */
  lemma OutputIs(s: seq<bv32>, n: nat, x: bv32, a: bv32, b: bv32, c: bv32)
    requires |s| == 624 && x == X(s, 624 + n)
    requires a == x ^ (x >> 11) && b == a ^ ((a << 7) & 0x9d2c5680) && c == b ^ ((b << 15) & 0xefc60000)
    ensures Output(s, n) == c ^ (c >> 18)
  {
    hide X, ShiftU, ShiftS, ShiftT, ShiftL, UnshiftU, UnshiftS;
    BitsU(x);
    BitsS(a);
    BitsT(b);
    BitsL(c);
  }

  /** The same as a number, as the level generator takes it. */
  function Draw(s: seq<bv32>, n: nat): (t: nat)
    ensures t < Levels.TWO32
  {
    if |s| == RAND_N then Output(s, n) as nat else 0
  }

  lemma SameOutput(s: seq<bv32>, t: seq<bv32>, n: nat)
    requires |s| == |t| == RAND_N
    ensures Output(s, n) == Output(t, n) <==> X(s, RAND_N + n) == X(t, RAND_N + n)
  {
    hide Temper, Untemper, X;
    TemperBijective(X(s, RAND_N + n));
    TemperBijective(X(t, RAND_N + n));
  }

  /** Two seedings draw the same numbers forever exactly when they agree in the 19937 bits; and 624
      equal numbers in a row, anywhere, already tell. */
  lemma OutputsTell(s: seq<bv32>, t: seq<bv32>, from: nat)
    requires |s| == |t| == RAND_N
    ensures SameFrom(s, t, 0) ==> forall n: nat :: Output(s, n) == Output(t, n)
    ensures (forall n: nat :: from <= n < from + RAND_N ==> Output(s, n) == Output(t, n)) ==> SameFrom(s, t, 0)
  {
    hide X, TopBit, Temper;
    if SameFrom(s, t, 0) {
      forall n: nat ensures Output(s, n) == Output(t, n) {
        SameAlways(s, t, n + 1);
        assert X(s, n + RAND_N) == X(t, n + RAND_N);
      }
    }
    if forall n: nat :: from <= n < from + RAND_N ==> Output(s, n) == Output(t, n) {
      forall j: nat | RAND_N + from <= j < RAND_N + from + RAND_N ensures X(s, j) == X(t, j) {
        var n := j - RAND_N;
        assert Output(s, n) == Output(t, n);
        SameOutput(s, t, n);
      }
      SameAlways(s, t, RAND_N + from);
    }
  }

  // ----- never degenerate

  /** All 19937 bits at position `k` are zero. */
  ghost predicate ZeroFrom(s: seq<bv32>, k: nat)
    requires |s| == RAND_N
  {
    TopBit(X(s, k)) == 0 && forall j :: k < j < k + RAND_N ==> X(s, j) == 0
  }

  const ZEROS: seq<bv32> := seq(RAND_N, _ => 0)

  lemma {:induction false} XOfZeros(n: nat)
    ensures X(ZEROS, n) == 0
  {
    if n >= RAND_N {
      XOfZeros(n - RAND_N);
      XOfZeros(n - RAND_N + 1);
      XOfZeros(n - RAND_N + M);
      XStep(ZEROS, n - RAND_N);
      TwistOfZeros();
    }
  }

  lemma TwistOfZeros()
    ensures Twist(0, 0, 0) == 0
  {
  }

  /** A state with some bit set never turns into the all-zero state, however many numbers are
      drawn. */
  lemma NeverZero(s: seq<bv32>, k: nat)
    requires |s| == RAND_N
    ensures ZeroFrom(s, k) <==> ZeroFrom(s, 0)
  {
    BitsWhole(0);
    hide X, TopBit;
    ZeroIsSame(s, 0);
    ZeroIsSame(s, k);
    SameAlways(s, ZEROS, k);
  }

  lemma ZeroIsSame(s: seq<bv32>, k: nat)
    requires |s| == RAND_N
    ensures ZeroFrom(s, k) <==> SameFrom(s, ZEROS, k)
  {
    BitsWhole(0);
    hide X, TopBit;
    XOfZeros(k);
    forall j: nat | k < j < k + RAND_N ensures X(ZEROS, j) == 0 {
      XOfZeros(j);
    }
  }

  // ----- seeding

  function Plus(x: bv32, y: bv32): bv32 { x + y }

  function Minus(x: bv32, y: bv32): bv32 { x - y }

  function Scatter(x: bv32): bv32 { 1812433253 * (x ^ (x >> 30)) }

  function SeedNext(prev: bv32, i: nat): bv32
    requires i < RAND_N
  {
    Plus(Scatter(prev), i as bv32)
  }

  /** The words that a one-word seed gives. */
  function SeedWord(seed: bv32, i: nat): bv32
    requires i < RAND_N
  {
    if i == 0 then seed else SeedNext(SeedWord(seed, i - 1), i)
  }

  lemma BitsScattered(x: bv32)
    ensures Scatter(x) == 1812433253 * (x ^ (x >> 30))
  {
  }

  lemma BitsSum(x: bv32, y: bv32)
    ensures Plus(x, y) == x + y
  {
  }

  lemma BitsSeed(prev: bv32, w: bv32)
    ensures Plus(Scatter(prev), w) == 1812433253 * (prev ^ (prev >> 30)) + w
  {
    var z := 1812433253 * (prev ^ (prev >> 30));
    assert Scatter(prev) == z by {
      BitsScattered(prev);
    }
    hide Plus, Scatter;
    BitsSum(z, w);
  }

  /** One word of a seeding and the next, number `w`. */
  ghost predicate SeedLink(x: bv32, y: bv32, w: bv32) {
    y == 1812433253 * (x ^ (x >> 30)) + w
  }

  lemma SumLinks(prev: bv32, w: bv32)
    ensures SeedLink(prev, Plus(Scatter(prev), w), w)
  {
    hide Plus, Scatter;
    BitsSeed(prev, w);
  }

  lemma SeedNextLinks(prev: bv32, i: nat)
    requires i < 624
    ensures SeedLink(prev, SeedNext(prev, i), i as bv32)
  {
    hide SeedLink, Plus, Scatter;
    SumLinks(prev, i as bv32);
  }

  /** All words of a one-word seed. */
  ghost predicate SeededWords(s: seq<bv32>, seed: bv32) {
    |s| == 624 && s[0] == seed && forall i {:trigger s[i]} :: 1 <= i < 624 ==> SeedLink(s[i - 1], s[i], i as bv32)
  }

  lemma SeedStateIs(seed: bv32)
    ensures SeededWords(SeedState(seed), seed)
  {
    hide SeedNext, SeedLink;
    var s := SeedState(seed);
    assert s[0] == SeedWord(seed, 0);
    forall i {:trigger s[i]} | 1 <= i < 624 ensures SeedLink(s[i - 1], s[i], i as bv32) {
      assert s[i] == SeedWord(seed, i) && s[i - 1] == SeedWord(seed, i - 1);
      SeedNextLinks(s[i - 1], i);
    }
  }

  function SeedState(seed: bv32): (s: seq<bv32>)
    ensures |s| == RAND_N
    ensures forall i :: 0 <= i < RAND_N ==> s[i] == SeedWord(seed, i)
  {
    seq(RAND_N, i requires 0 <= i < RAND_N => SeedWord(seed, i))
  }

  lemma NextOfZero()
    ensures SeedNext(0, 2) == 2
  {
  }

  /** No seed gives the all-zero state: the words 1 and 2 cannot both be zero. */
  lemma SeedNotZero(seed: bv32)
    ensures !ZeroFrom(SeedState(seed), 0)
  {
    hide SeedNext;
    NextOfZero();
    var s := SeedState(seed);
    assert X(s, 1) == s[1] && X(s, 2) == s[2];
    assert s[2] == SeedNext(s[1], 2);
  }

  /** The inverse of the multiplier, and the shift undone. */
  function Gather(z: bv32): bv32 { (2520285293 * z) ^ ((2520285293 * z) >> 30) }

  lemma BitsScatter(x: bv32)
    ensures Scatter(x) == 1812433253 * (x ^ (x >> 30)) && Gather(1812433253 * (x ^ (x >> 30))) == x
  {
  }

  lemma UndoScatter(x: bv32)
    ensures Gather(Scatter(x)) == x
  {
    hide Scatter, Gather;
    BitsScatter(x);
  }

  lemma BitsPlus(x: bv32, y: bv32)
    ensures Plus(x, y) == x + y && Minus(x + y, y) == x
  {
  }

  lemma UndoPlus(x: bv32, y: bv32)
    ensures Minus(Plus(x, y), y) == x
  {
    hide Plus, Minus;
    BitsPlus(x, y);
  }

  lemma SeedNextInjective(x: bv32, y: bv32, i: nat)
    requires i < RAND_N && x != y
    ensures SeedNext(x, i) != SeedNext(y, i)
  {
    hide Scatter, Gather, Plus, Minus;
    UndoScatter(x);
    UndoScatter(y);
    UndoPlus(Scatter(x), i as bv32);
    UndoPlus(Scatter(y), i as bv32);
  }

  lemma FirstWord(seed: bv32)
    ensures X(SeedState(seed), 1) == SeedNext(seed, 1)
  {
    hide Scatter;
    assert SeedWord(seed, 0) == seed;
    assert SeedState(seed)[1] == SeedWord(seed, 1);
  }

  /** Different seeds give different states, so they differ in the first 624 numbers drawn. */
  lemma SeedsDiffer(seed: bv32, seed': bv32)
    requires seed != seed'
    ensures !SameFrom(SeedState(seed), SeedState(seed'), 0)
    ensures exists n: nat :: n < RAND_N && Output(SeedState(seed), n) != Output(SeedState(seed'), n)
  {
    hide SeedNext, Output, X;
    FirstWord(seed);
    FirstWord(seed');
    SeedNextInjective(seed, seed', 1);
    OutputsTell(SeedState(seed), SeedState(seed'), 0);
  }

  // ----- seeding from an array

  function Blend(x: bv32, y: bv32): bv32 { x ^ y }

  lemma BitsBlend(x: bv32, y: bv32)
    ensures Blend(x, y) == x ^ y && Blend(x ^ y, y) == x
  {
  }

  lemma UndoBlend(x: bv32, y: bv32)
    ensures Blend(Blend(x, y), y) == x
  {
    hide Blend;
    BitsBlend(x, y);
  }

  lemma BitsMinus(x: bv32, y: bv32)
    ensures Minus(x, y) == x - y && Plus(x - y, y) == x
  {
  }

  lemma UndoMinus(x: bv32, y: bv32)
    ensures Plus(Minus(x, y), y) == x
  {
    hide Plus, Minus;
    BitsMinus(x, y);
  }

  /** The new word in the first loop, and in the second. */
  function MixKey(prev: bv32, x: bv32, key: bv32, j: nat): bv32
    requires j < Levels.TWO32
  {
    Plus(Plus(Blend(x, (prev ^ (prev >> 30)) * 1664525), key), j as bv32)
  }

  function MixIndex(prev: bv32, x: bv32, i: nat): bv32
    requires i < RAND_N
  {
    Minus(Blend(x, (prev ^ (prev >> 30)) * 1566083941), i as bv32)
  }

  lemma MixKeyInjective(prev: bv32, x: bv32, x': bv32, key: bv32, j: nat)
    requires j < Levels.TWO32 && x != x'
    ensures MixKey(prev, x, key, j) != MixKey(prev, x', key, j)
  {
    hide Plus, Minus, Blend;
    var c := (prev ^ (prev >> 30)) * 1664525;
    UndoBlend(x, c);
    UndoBlend(x', c);
    UndoPlus(Blend(x, c), key);
    UndoPlus(Blend(x', c), key);
    UndoPlus(Plus(Blend(x, c), key), j as bv32);
    UndoPlus(Plus(Blend(x', c), key), j as bv32);
  }

  lemma KeyInjective(prev: bv32, x: bv32, key: bv32, key': bv32, j: nat)
    requires j < Levels.TWO32 && key != key'
    ensures MixKey(prev, x, key, j) != MixKey(prev, x, key', j)
  {
    hide Plus, Minus, Blend;
    var b := Blend(x, (prev ^ (prev >> 30)) * 1664525);
    PlusCommutes(b, key);
    PlusCommutes(b, key');
    UndoPlus(key, b);
    UndoPlus(key', b);
    UndoPlus(Plus(b, key), j as bv32);
    UndoPlus(Plus(b, key'), j as bv32);
  }

  lemma PlusCommutes(x: bv32, y: bv32)
    ensures Plus(x, y) == Plus(y, x)
  {
  }

  lemma MixIndexInjective(prev: bv32, x: bv32, x': bv32, i: nat)
    requires i < RAND_N && x != x'
    ensures MixIndex(prev, x, i) != MixIndex(prev, x', i)
  {
    hide Plus, Minus, Blend;
    var c := (prev ^ (prev >> 30)) * 1566083941;
    UndoBlend(x, c);
    UndoBlend(x', c);
    UndoMinus(Blend(x, c), i as bv32);
    UndoMinus(Blend(x', c), i as bv32);
  }

  /** The words, and the one to be mixed next. */
  datatype Tour = Tour(mt: seq<bv32>, i: nat) {
    predicate Ok() { |mt| == RAND_N && 1 <= i < RAND_N }

    /** Word 0 is a copy of the last one when the tour comes round to it. */
    predicate Wrapped()
      requires Ok()
    {
      i == 1 ==> mt[0] == mt[RAND_N - 1]
    }

    /** Stores the new word and goes on to the next. */
    function Put(x: bv32): (w: Tour)
      requires Ok()
      ensures w.Ok() && w.Wrapped()
    {
      var s := mt[i := x];
      if i + 1 >= RAND_N then Tour(s[0 := s[RAND_N - 1]], 1) else Tour(s, i + 1)
    }
  }

  ghost predicate Key(key: seq<bv32>) {
    1 <= |key| < Levels.TWO32
  }

  function PutKey(w: Tour, key: seq<bv32>, j: nat): (w': Tour)
    requires w.Ok() && Key(key) && j < |key|
    ensures w'.Ok() && w'.Wrapped()
  {
    w.Put(MixKey(w.mt[w.i - 1], w.mt[w.i], key[j], j))
  }

  function PutIndex(w: Tour): (w': Tour)
    requires w.Ok()
    ensures w'.Ok() && w'.Wrapped()
  {
    w.Put(MixIndex(w.mt[w.i - 1], w.mt[w.i], w.i))
  }

  /** The two loops. */
  function Keys(w: Tour, key: seq<bv32>, j: nat, k: nat): (w': Tour)
    requires w.Ok() && Key(key) && j < |key|
    ensures w'.Ok() && (k > 0 ==> w'.Wrapped())
    decreases k
  {
    if k == 0 then w else Keys(PutKey(w, key, j), key, if j + 1 >= |key| then 0 else j + 1, k - 1)
  }

  function Indices(w: Tour, k: nat): (w': Tour)
    requires w.Ok()
    ensures w'.Ok()
    decreases k
  {
    if k == 0 then w else Indices(PutIndex(w), k - 1)
  }

  lemma KeysStep(w: Tour, key: seq<bv32>, j: nat, k: nat)
    requires w.Ok() && Key(key) && j < |key|
    ensures Keys(w, key, j, 0) == w
    ensures k > 0 ==> Keys(w, key, j, k) == Keys(PutKey(w, key, j), key, if j + 1 >= |key| then 0 else j + 1, k - 1)
  {
  }

  lemma IndicesStep(w: Tour, k: nat)
    requires w.Ok()
    ensures Indices(w, 0) == w && (k > 0 ==> Indices(w, k) == Indices(PutIndex(w), k - 1))
  {
  }

  function KeySteps(key: seq<bv32>): nat { if RAND_N > |key| then RAND_N else |key| }

  /** The words that an array of seeds gives. */
  function ArrayState(key: seq<bv32>): (s: seq<bv32>)
    requires Key(key)
    ensures |s| == RAND_N && s[0] == 0x80000000
  {
    Indices(Keys(Tour(SeedState(19650218), 1), key, 0, KeySteps(key)), RAND_N - 1).mt[0 := 0x80000000]
  }

  lemma TopOfFirst()
    ensures TopBit(0x80000000) != 0
  {
  }

  lemma ArrayNotZero(key: seq<bv32>)
    requires Key(key)
    ensures !ZeroFrom(ArrayState(key), 0)
  {
    TopOfFirst();
    assert X(ArrayState(key), 0) == ArrayState(key)[0];
  }

  // ----- the array seeding in full

  ghost predicate IsSum(b: bv32, k: bv32, w: bv32, y: bv32) {
    y == b + k + w
  }

  ghost predicate IsDifference(b: bv32, w: bv32, y: bv32) {
    y == b - w
  }

  /** The new word in the first loop, made of the one before it, the old one and a seed, number `w`. */
  ghost predicate KeyLink(prev: bv32, x: bv32, k: bv32, w: bv32, y: bv32) {
    IsSum(x ^ ((prev ^ (prev >> 30)) * 1664525), k, w, y)
  }

  /** And in the second loop, at place `w`. */
  ghost predicate IndexLink(prev: bv32, x: bv32, w: bv32, y: bv32) {
    IsDifference(x ^ ((prev ^ (prev >> 30)) * 1566083941), w, y)
  }

  lemma BitsIsSum(b: bv32, k: bv32, w: bv32)
    ensures IsSum(b, k, w, Plus(Plus(b, k), w))
  {
    BitsSum(b, k);
    BitsSum(b + k, w);
  }

  lemma BitsIsDifference(b: bv32, w: bv32)
    ensures IsDifference(b, w, Minus(b, w))
  {
  }

  lemma MixKeyLinks(prev: bv32, x: bv32, k: bv32, j: nat)
    requires j < Levels.TWO32
    ensures KeyLink(prev, x, k, j as bv32, MixKey(prev, x, k, j))
  {
    hide IsSum, Plus, Blend;
    var c := (prev ^ (prev >> 30)) * 1664525;
    BitsBlend(x, c);
    BitsIsSum(Blend(x, c), k, j as bv32);
  }

  lemma MixIndexLinks(prev: bv32, x: bv32, i: nat)
    requires i < 624
    ensures IndexLink(prev, x, i as bv32, MixIndex(prev, x, i))
  {
    hide IsDifference, Minus, Blend;
    var c := (prev ^ (prev >> 30)) * 1566083941;
    BitsBlend(x, c);
    BitsIsDifference(Blend(x, c), i as bv32);
  }

  /** A step changes word `i`, and word 0 when it comes to the end, and no other. */
  ghost predicate OnlyWord(s: seq<bv32>, t: seq<bv32>, i: nat) {
    && |s| == |t| == 624 && 1 <= i < 624
    && (forall p :: 1 <= p < 624 && p != i ==> t[p] == s[p])
    && t[0] == if i == 623 then t[623] else s[0]
  }

  lemma PutOnlyWord(w: Tour, x: bv32)
    requires w.Ok()
    ensures OnlyWord(w.mt, w.Put(x).mt, w.i) && w.Put(x).mt[w.i] == x && w.Put(x).i == 1 + w.i % 623
  {
  }

  /** The places are visited in turn, and so are the seeds. */
  function Turn(n: nat): (i: nat)
    ensures 1 <= i < 624
  {
    1 + n % 623
  }

  ghost predicate KeyStepAt(s: seq<bv32>, t: seq<bv32>, i: nat, k: bv32, j: nat) {
    j < 0x1_0000_0000 && OnlyWord(s, t, i) && KeyLink(s[i - 1], s[i], k, j as bv32, t[i])
  }

  ghost predicate KeyStep(s: seq<bv32>, t: seq<bv32>, key: seq<bv32>, n: nat) {
    |key| > 0 && KeyStepAt(s, t, Turn(n), key[n % |key|], n % |key|)
  }

  ghost predicate IndexStepAt(s: seq<bv32>, t: seq<bv32>, i: nat) {
    OnlyWord(s, t, i) && IndexLink(s[i - 1], s[i], i as bv32, t[i])
  }

  ghost predicate IndexStep(s: seq<bv32>, t: seq<bv32>, n: nat) {
    IndexStepAt(s, t, Turn(n))
  }

  lemma NextPlace(n: nat)
    ensures 1 + Turn(n) % 623 == Turn(n + 1)
  {
  }

  lemma PutKeyStep(w: Tour, key: seq<bv32>, n: nat)
    requires w.Ok() && Key(key) && w.i == Turn(n)
    ensures KeyStep(w.mt, PutKey(w, key, n % |key|).mt, key, n) && PutKey(w, key, n % |key|).i == Turn(n + 1)
  {
    hide KeyStepAt, PutKey, Turn;
    PutKeyStepAt(w, key, n % |key|);
    NextPlace(n);
  }

  lemma PutKeyStepAt(w: Tour, key: seq<bv32>, j: nat)
    requires w.Ok() && Key(key) && j < |key|
    ensures KeyStepAt(w.mt, PutKey(w, key, j).mt, w.i, key[j], j) && PutKey(w, key, j).i == 1 + w.i % 623
  {
    hide KeyLink, MixKey, OnlyWord;
    MixKeyLinks(w.mt[w.i - 1], w.mt[w.i], key[j], j);
    PutOnlyWord(w, MixKey(w.mt[w.i - 1], w.mt[w.i], key[j], j));
  }

  lemma PutIndexStep(w: Tour, n: nat)
    requires w.Ok() && w.i == Turn(n)
    ensures IndexStep(w.mt, PutIndex(w).mt, n) && PutIndex(w).i == Turn(n + 1)
  {
    hide IndexStepAt, PutIndex, Turn;
    PutIndexStepAt(w);
    NextPlace(n);
  }

  lemma PutIndexStepAt(w: Tour)
    requires w.Ok()
    ensures IndexStepAt(w.mt, PutIndex(w).mt, w.i) && PutIndex(w).i == 1 + w.i % 623
  {
    hide IndexLink, MixIndex, OnlyWord;
    MixIndexLinks(w.mt[w.i - 1], w.mt[w.i], w.i);
    PutOnlyWord(w, MixIndex(w.mt[w.i - 1], w.mt[w.i], w.i));
  }

  lemma NextSeed(n: nat, m: nat)
    requires m > 0
    ensures (n + 1) % m == if n % m + 1 >= m then 0 else n % m + 1
  {
    var q, r := n / m, n % m;
    assert n == q * m + r;
    if r + 1 < m {
      ModIs(n + 1, m, q, r + 1);
    } else {
      assert (q + 1) * m == q * m + m;
      ModIs(n + 1, m, q + 1, 0);
    }
  }

  lemma ModIs(n: nat, m: nat, q: nat, r: nat)
    requires m > 0 && n == q * m + r && r < m
    ensures n % m == r
  {
    var q', r' := n / m, n % m;
    assert n == q' * m + r';
    if q < q' {
      Levels.MulGrows(m, q, q');
    } else if q' < q {
      Levels.MulGrows(m, q', q);
    }
  }

  /** The states that the first loop goes through. */
  lemma {:induction false} KeysTrace(w: Tour, key: seq<bv32>, n: nat, k: nat) returns (trace: seq<seq<bv32>>)
    requires w.Ok() && Key(key) && w.i == Turn(n)
    ensures |trace| == k + 1 && trace[0] == w.mt
    ensures var end := Keys(w, key, n % |key|, k); trace[k] == end.mt && end.i == Turn(n + k)
    ensures forall m :: 0 <= m < k ==> KeyStep(trace[m], trace[m + 1], key, n + m)
    decreases k
  {
    hide KeyStep, PutKey;
    if k == 0 {
      return [w.mt];
    }
    PutKeyStep(w, key, n);
    NextSeed(n, |key|);
    hide Turn;
    var rest := KeysTrace(PutKey(w, key, n % |key|), key, n + 1, k - 1);
    trace := [w.mt] + rest;
    forall m | 0 <= m < k ensures KeyStep(trace[m], trace[m + 1], key, n + m) {
      if m > 0 {
        assert KeyStep(rest[m - 1], rest[m - 1 + 1], key, n + 1 + (m - 1));
      }
    }
  }

  lemma {:induction false} IndicesTrace(w: Tour, n: nat, k: nat) returns (trace: seq<seq<bv32>>)
    requires w.Ok() && w.i == Turn(n)
    ensures |trace| == k + 1 && trace[0] == w.mt && trace[k] == Indices(w, k).mt
    ensures forall m :: 0 <= m < k ==> IndexStep(trace[m], trace[m + 1], n + m)
    decreases k
  {
    hide IndexStep, PutIndex;
    if k == 0 {
      return [w.mt];
    }
    PutIndexStep(w, n);
    hide Turn;
    var rest := IndicesTrace(PutIndex(w), n + 1, k - 1);
    trace := [w.mt] + rest;
    forall m | 0 <= m < k ensures IndexStep(trace[m], trace[m + 1], n + m) {
      if m > 0 {
        assert IndexStep(rest[m - 1], rest[m - 1 + 1], n + 1 + (m - 1));
      }
    }
  }

  /** Seeding from an array of any length: from the words of a fixed seed, a step for each seed, but 624
      at least, the seeds taken in turn; then 623 steps more; and word 0 is fixed. */
  lemma ArrayTrace(key: seq<bv32>) returns (steps: nat, trace: seq<seq<bv32>>)
    requires Key(key)
    ensures steps == (if |key| < 624 then 624 else |key|) && |trace| == steps + 624 && SeededWords(trace[0], 19650218)
    ensures forall n :: 0 <= n < steps ==> KeyStep(trace[n], trace[n + 1], key, n)
    ensures forall n :: steps <= n < steps + 623 ==> IndexStep(trace[n], trace[n + 1], n)
    ensures |trace[steps + 623]| == 624 && ArrayState(key) == trace[steps + 623][0 := 0x80000000]
  {
    hide KeyStep, IndexStep, SeededWords, Keys, Indices;
    var start := Tour(SeedState(19650218), 1);
    SeedStateIs(19650218);
    steps := KeySteps(key);
    var first := KeysTrace(start, key, 0, steps);
    var middle := Keys(start, key, 0, steps);
    var second := IndicesTrace(middle, steps, 623);
    trace := first + second[1..];
    forall n | 0 <= n < steps ensures KeyStep(trace[n], trace[n + 1], key, n) {
      assert KeyStep(first[n], first[n + 1], key, 0 + n);
    }
    forall n | steps <= n < steps + 623 ensures IndexStep(trace[n], trace[n + 1], n) {
      var m := n - steps;
      assert IndexStep(second[m], second[m + 1], steps + m);
      assert trace[n] == second[m] && trace[n + 1] == second[m + 1];
    }
  }

  // ----- every word of a long array of seeds matters

  /** Some word other than the first is different. */
  ghost predicate Differ(w: Tour, w': Tour) {
    && w.Ok() && w'.Ok() && w.i == w'.i && w.Wrapped() && w'.Wrapped()
    && exists p :: 1 <= p < RAND_N && w.mt[p] != w'.mt[p]
  }

  lemma PutDiffers(w: Tour, x: bv32, w': Tour, x': bv32)
    requires w.Ok() && w'.Ok() && w.i == w'.i
    requires x != x' || exists p :: 1 <= p < RAND_N && p != w.i && w.mt[p] != w'.mt[p]
    ensures Differ(w.Put(x), w'.Put(x'))
  {
    var p := w.i;
    if x == x' {
      p :| 1 <= p < RAND_N && p != w.i && w.mt[p] != w'.mt[p];
    }
    assert w.Put(x).mt[p] != w'.Put(x').mt[p];
  }

  /** Where two tours differ only in the word to be mixed, they agree in the one before it. */
  lemma OnlyHere(w: Tour, w': Tour)
    requires Differ(w, w') && forall p :: 1 <= p < RAND_N && p != w.i ==> w.mt[p] == w'.mt[p]
    ensures w.mt[w.i - 1] == w'.mt[w.i - 1] && w.mt[w.i] != w'.mt[w.i]
  {
  }

  lemma PutKeyDiffers(w: Tour, w': Tour, key: seq<bv32>, j: nat)
    requires Differ(w, w') && Key(key) && j < |key|
    ensures Differ(PutKey(w, key, j), PutKey(w', key, j))
  {
    hide MixKey;
    if forall p :: 1 <= p < RAND_N && p != w.i ==> w.mt[p] == w'.mt[p] {
      OnlyHere(w, w');
      MixKeyInjective(w.mt[w.i - 1], w.mt[w.i], w'.mt[w.i], key[j], j);
    }
    PutDiffers(w, MixKey(w.mt[w.i - 1], w.mt[w.i], key[j], j), w', MixKey(w'.mt[w.i - 1], w'.mt[w.i], key[j], j));
  }

  lemma PutIndexDiffers(w: Tour, w': Tour)
    requires Differ(w, w')
    ensures Differ(PutIndex(w), PutIndex(w'))
  {
    hide MixIndex;
    if forall p :: 1 <= p < RAND_N && p != w.i ==> w.mt[p] == w'.mt[p] {
      OnlyHere(w, w');
      MixIndexInjective(w.mt[w.i - 1], w.mt[w.i], w'.mt[w.i], w.i);
    }
    PutDiffers(w, MixIndex(w.mt[w.i - 1], w.mt[w.i], w.i), w', MixIndex(w'.mt[w.i - 1], w'.mt[w.i], w'.i));
  }

  lemma {:induction false} IndicesDiffer(w: Tour, w': Tour, k: nat)
    requires Differ(w, w')
    ensures Differ(Indices(w, k), Indices(w', k))
    decreases k
  {
    hide PutIndex;
    if k > 0 {
      PutIndexDiffers(w, w');
      IndicesDiffer(PutIndex(w), PutIndex(w'), k - 1);
    }
  }

  /** The arrays differ at `p` and nowhere else. */
  ghost predicate OnlyAt(key: seq<bv32>, key': seq<bv32>, p: nat) {
    && Key(key) && |key'| == |key| && p < |key| && key[p] != key'[p]
    && forall j :: 0 <= j < |key| && j != p ==> key[j] == key'[j]
  }

  lemma KeyComesIn(w: Tour, key: seq<bv32>, key': seq<bv32>, p: nat)
    requires w.Ok() && OnlyAt(key, key', p)
    ensures Differ(PutKey(w, key, p), PutKey(w, key', p))
  {
    hide MixKey;
    KeyInjective(w.mt[w.i - 1], w.mt[w.i], key[p], key'[p], p);
    PutDiffers(w, MixKey(w.mt[w.i - 1], w.mt[w.i], key[p], p), w, MixKey(w.mt[w.i - 1], w.mt[w.i], key'[p], p));
  }

  lemma {:induction false} KeysDiffer(w: Tour, w': Tour, key: seq<bv32>, key': seq<bv32>, p: nat, j: nat)
    requires OnlyAt(key, key', p) && j < |key| && w.Ok() && w'.Ok()
    requires if j <= p then w == w' else Differ(w, w')
    ensures Differ(Keys(w, key, j, |key| - j), Keys(w', key', j, |key| - j))
    decreases |key| - j
  {
    hide Differ, MixKey;
    var v, v' := PutKey(w, key, j), PutKey(w', key', j);
    if j == p {
      KeyComesIn(w, key, key', p);
    } else if j > p {
      PutKeyDiffers(w, w', key, j);
    }
    hide PutKey;
    if j + 1 < |key| {
      KeysDiffer(v, v', key, key', p, j + 1);
    }
  }

  /** Of an array of 624 words or more each single word matters, those after the first 624
      included: a change of any one changes the state and so the numbers drawn. */
  lemma KeyWordMatters(key: seq<bv32>, key': seq<bv32>, p: nat)
    requires OnlyAt(key, key', p) && |key| >= RAND_N
    ensures !SameFrom(ArrayState(key), ArrayState(key'), 0)
    ensures exists n: nat :: n < RAND_N && Output(ArrayState(key), n) != Output(ArrayState(key'), n)
  {
    hide Output, Keys, Indices;
    var start := Tour(SeedState(19650218), 1);
    KeysDiffer(start, start, key, key', p, 0);
    var w, w' := Keys(start, key, 0, |key|), Keys(start, key', 0, |key|);
    IndicesDiffer(w, w', RAND_N - 1);
    var v, v' := Indices(w, RAND_N - 1), Indices(w', RAND_N - 1);
    var q :| 1 <= q < RAND_N && v.mt[q] != v'.mt[q];
    assert X(ArrayState(key), q) == v.mt[q] && X(ArrayState(key'), q) == v'.mt[q];
    OutputsTell(ArrayState(key), ArrayState(key'), 0);
  }

  // ----- the generator in memory

  class Rand {
    const mt: array<Word>
    var mti: nat
    ghost var words: seq<bv32>
    ghost var base: nat

    /** The array holds the 624 words of the sequence from `base` on, and `mti` says how many of
        them have been drawn. */
    ghost predicate Valid()
      reads this, mt
    {
      && mt.Length == RAND_N && mti <= RAND_N && |words| == RAND_N && base + mti >= RAND_N
      && forall j :: 0 <= j < RAND_N ==> mt[j] == X(words, base + j)
    }

    /** How many numbers have been drawn since the seeding. */
    ghost function Drawn(): nat
      reads this
    {
      if base + mti >= RAND_N then base + mti - RAND_N else 0
    }

    constructor WithSeed(seed: bv32)
      ensures Valid() && fresh(mt) && words == SeedState(seed) && Drawn() == 0
    {
      mt := new Word[RAND_N];
      new;
      SetSeed(seed);
    }

    constructor WithSeedArray(key: seq<bv32>)
      requires Key(key)
      ensures Valid() && fresh(mt) && words == ArrayState(key) && Drawn() == 0
    {
      mt := new Word[RAND_N];
      new;
      SetSeedArray(key);
    }

    lemma Seeded()
      requires |words| == RAND_N == mt.Length && mt[..] == words && mti == RAND_N && base == 0
      ensures Valid() && Drawn() == 0
    {
      assert forall j :: 0 <= j < RAND_N ==> X(words, 0 + j) == words[j] == mt[j];
    }

    method SetSeed(seed: bv32)
      requires mt.Length == RAND_N
      modifies this, mt
      ensures Valid() && mti == RAND_N && words == SeedState(seed) && Drawn() == 0 && mt[..] == SeedState(seed)
      ensures SeededWords(mt[..], seed)
    {
      hide X, SeedNext, SeededWords;
      mt[0] := seed;
      mti := 1;
      while mti < RAND_N
        invariant 1 <= mti <= RAND_N
        invariant forall j :: 0 <= j < mti ==> mt[j] == SeedWord(seed, j)
      {
        mt[mti] := SeedNext(mt[mti - 1], mti);
        mti := mti + 1;
      }
      words, base := SeedState(seed), 0;
      assert mt[..] == SeedState(seed);
      SeedStateIs(seed);
      Seeded();
    }

    /** Stores a new word and goes on to the next place, coming round after the last. */
    method Put(i: nat, x: bv32) returns (next: nat)
      requires mt.Length == RAND_N && 1 <= i < RAND_N
      modifies mt
      ensures Tour(mt[..], next) == Tour(old(mt[..]), i).Put(x)
    {
      ghost var s: seq<bv32> := mt[..];
      mt[i] := x;
      assert mt[..] == s[i := x];
      next := i + 1;
      if next >= RAND_N {
        mt[0] := mt[RAND_N - 1];
        next := 1;
        assert mt[..] == s[i := x][0 := x];
      }
    }

    /** The first loop of the seeding, which goes through the array of seeds. */
    method StirKeys(key: seq<bv32>) returns (i: nat)
      requires mt.Length == RAND_N && Key(key)
      modifies mt
      ensures Tour(mt[..], i) == Keys(Tour(old(mt[..]), 1), key, 0, KeySteps(key))
    {
      hide MixKey, Keys;
      ghost var start := Tour(mt[..], 1);
      i := 1;
      var j: nat := 0;
      var k: nat := if RAND_N > |key| then RAND_N else |key|;
      while k > 0
        invariant 1 <= i < RAND_N && j < |key|
        invariant Keys(Tour(mt[..], i), key, j, k) == Keys(start, key, 0, KeySteps(key))
      {
        ghost var w := Tour(mt[..], i);
        KeysStep(w, key, j, k);
        i := Put(i, MixKey(mt[i - 1], mt[i], key[j], j));
        assert Tour(mt[..], i) == PutKey(w, key, j);
        j := j + 1;
        if j >= |key| {
          j := 0;
        }
        k := k - 1;
      }
      KeysStep(Tour(mt[..], i), key, j, 0);
    }

    /** The second loop. */
    method StirIndices(first: nat)
      requires mt.Length == RAND_N && 1 <= first < RAND_N
      modifies mt
      ensures mt[..] == Indices(Tour(old(mt[..]), first), RAND_N - 1).mt
    {
      hide MixIndex, Indices;
      ghost var start := Tour(mt[..], first);
      var i := first;
      var k: nat := RAND_N - 1;
      while k > 0
        invariant 1 <= i < RAND_N
        invariant Indices(Tour(mt[..], i), k) == Indices(start, RAND_N - 1)
      {
        ghost var w := Tour(mt[..], i);
        IndicesStep(w, k);
        i := Put(i, MixIndex(mt[i - 1], mt[i], i));
        assert Tour(mt[..], i) == PutIndex(w);
        k := k - 1;
      }
      IndicesStep(Tour(mt[..], i), 0);
    }

    method SetSeedArray(key: seq<bv32>)
      requires mt.Length == RAND_N && Key(key)
      modifies this, mt
      ensures Valid() && words == ArrayState(key) && Drawn() == 0
    {
      hide X, Keys, Indices;
      SetSeed(19650218);
      var i := StirKeys(key);
      StirIndices(i);
      mt[0] := 0x80000000;
      words, base := ArrayState(key), 0;
      assert mt[..] == words;
      Seeded();
    }

    /** The next 624 words, in place.  The words that a new one is made of are at first all old,
        then one of them, at last two, are among those already renewed. */
    method Regenerate()
      requires Valid()
      modifies mt
      ensures forall j :: 0 <= j < RAND_N ==> mt[j] == X(words, base + RAND_N + j)
    {
      hide X, Twist;
      var kk := 0;
      while kk < RAND_N - M
        invariant 0 <= kk <= RAND_N - M
        invariant forall j :: 0 <= j < kk ==> mt[j] == X(words, base + RAND_N + j)
        invariant forall j :: kk <= j < RAND_N ==> mt[j] == X(words, base + j)
      {
        XStep(words, base + kk);
        mt[kk] := Twist(mt[kk], mt[kk + 1], mt[kk + M]);
        kk := kk + 1;
      }
      while kk < RAND_N - 1
        invariant RAND_N - M <= kk <= RAND_N - 1
        invariant forall j :: 0 <= j < kk ==> mt[j] == X(words, base + RAND_N + j)
        invariant forall j :: kk <= j < RAND_N ==> mt[j] == X(words, base + j)
      {
        XStep(words, base + kk);
        mt[kk] := Twist(mt[kk], mt[kk + 1], mt[kk + (M - RAND_N)]);
        kk := kk + 1;
      }
      XStep(words, base + RAND_N - 1);
      mt[RAND_N - 1] := Twist(mt[RAND_N - 1], mt[0], mt[M - 1]);
    }

    /** Draws a number: the n-th one drawn is the n-th output of the recurrence. */
    method Next() returns (y: bv32)
      requires Valid()
      modifies this, mt
      ensures Valid() && words == old(words) && Drawn() == old(Drawn()) + 1
      ensures y == Output(words, old(Drawn()))
    {
      hide X, Twist, ShiftU, ShiftS, ShiftT, ShiftL;
      if mti >= RAND_N {
        Regenerate();
        mti := 0;
        base := base + RAND_N;
      }
      y := mt[mti];
      mti := mti + 1;
      y := ShiftU(y);
      y := ShiftS(y);
      y := ShiftT(y);
      y := ShiftL(y);
    }

    /** The level of a new node, from a number drawn. */
    method GenLevel(maxlevel: nat, curlevel: nat) returns (lev: nat)
      requires Valid() && 1 <= maxlevel <= 20
      modifies this, mt
      ensures Valid() && words == old(words) && Drawn() == old(Drawn()) + 1
      ensures lev == Levels.LevelOf(Draw(words, old(Drawn())), maxlevel, curlevel)
    {
      hide X, Output, Levels.LevelOf;
      var t := Next();
      lev := Levels.GenLevel(maxlevel, curlevel, t as nat);
    }
  }

  /** Makes a generator from an array of seeds, unless it is empty. */
  method NewWithSeedArray(key: seq<bv32>) returns (r: Rand?)
    requires |key| < Levels.TWO32
    ensures if key == [] then r == null
            else r != null && fresh(r) && r.Valid() && r.words == ArrayState(key) && r.Drawn() == 0
  {
    hide ArrayState;
    r := null;
    if |key| >= 1 {
      r := new Rand.WithSeedArray(key);
    }
  }
}
