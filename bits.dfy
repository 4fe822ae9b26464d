/** Unsigned integers as bit patterns.
    A raw value is a `nat`; bit `k` of it is read by `Bit`. The C++ operators
    `& | ^ ~ << >>` on an unsigned type of width `w` are the functions below,
    each characterised bit by bit. */
module Bits {

  /** 2 to the power k. */
  function Pow2(k: nat): (r: nat)
    ensures r >= 1
  {
    if k == 0 then 1 else 2 * Pow2(k - 1)
  }

  /** Bit k of v (bit 0 is the least significant). */
  predicate Bit(v: nat, k: nat) {
    if k == 0 then v % 2 == 1 else Bit(v / 2, k - 1)
  }

  /** The conversion of a (possibly negative) integer to a w-bit unsigned
      type. In two's complement a negative x has the bits of `~(-x - 1)`. */
  function ToUnsigned(x: int, w: nat): (r: nat)
    ensures r < Pow2(w)
  {
    if x >= 0 then Low(x, w) else NotW(-x - 1, w)
  }

  /** `v & (2^w - 1)`: the low w bits of v. */
  function Low(v: nat, w: nat): (r: nat)
    ensures r < Pow2(w)
    ensures forall k: nat {:trigger Bit(r, k)} :: Bit(r, k) <==> k < w && Bit(v, k)
  {
    if w == 0 then ZeroBits(); 0
    else
      var high := Low(v / 2, w - 1);
      BitOfDouble(high, v % 2, 2 * high + v % 2);
      2 * high + v % 2
  }

  /** `v >> s`. */
  function Shr(v: nat, s: nat): (r: nat)
    ensures forall k: nat {:trigger Bit(r, k)} :: Bit(r, k) <==> Bit(v, k + s)
  {
    if s == 0 then v else Shr(v / 2, s - 1)
  }

  /** Bitwise and. */
  function And(a: nat, b: nat): (r: nat)
    ensures forall k: nat {:trigger Bit(r, k)} :: Bit(r, k) <==> Bit(a, k) && Bit(b, k)
    ensures r <= a && r <= b
    decreases a + b
  {
    if a == 0 || b == 0 then ZeroBits(); 0
    else
      var low := if a % 2 == 1 && b % 2 == 1 then 1 else 0;
      BitOfDouble(And(a / 2, b / 2), low, 2 * And(a / 2, b / 2) + low);
      2 * And(a / 2, b / 2) + low
  }

  /** Bitwise or. */
  function Or(a: nat, b: nat): (r: nat)
    ensures forall k: nat {:trigger Bit(r, k)} :: Bit(r, k) <==> Bit(a, k) || Bit(b, k)
    decreases a + b
  {
    if a == 0 && b == 0 then ZeroBits(); 0
    else
      var low := if a % 2 == 1 || b % 2 == 1 then 1 else 0;
      BitOfDouble(Or(a / 2, b / 2), low, 2 * Or(a / 2, b / 2) + low);
      2 * Or(a / 2, b / 2) + low
  }

  /** Bitwise exclusive or. */
  function Xor(a: nat, b: nat): (r: nat)
    ensures forall k: nat {:trigger Bit(r, k)} :: Bit(r, k) <==> Bit(a, k) != Bit(b, k)
    decreases a + b
  {
    if a == 0 && b == 0 then ZeroBits(); 0
    else
      var low := if a % 2 != b % 2 then 1 else 0;
      BitOfDouble(Xor(a / 2, b / 2), low, 2 * Xor(a / 2, b / 2) + low);
      2 * Xor(a / 2, b / 2) + low
  }

  /** `~v` in a w-bit unsigned type. */
  function NotW(v: nat, w: nat): (r: nat)
    ensures r < Pow2(w)
    ensures forall k: nat {:trigger Bit(r, k)} :: Bit(r, k) <==> k < w && !Bit(v, k)
  {
    if w == 0 then ZeroBits(); 0
    else
      var high := NotW(v / 2, w - 1);
      BitOfDouble(high, 1 - v % 2, 2 * high + (1 - v % 2));
      2 * high + (1 - v % 2)
  }

  /** `v << s` without loss: v * 2^s, by repeated doubling. */
  function Shl(v: nat, s: nat): (r: nat)
    ensures forall k: nat {:trigger Bit(r, k)} :: k < s ==> !Bit(r, k)
    ensures forall k: nat {:trigger Bit(r, k)} :: k >= s ==> (Bit(r, k) <==> Bit(v, k - s))
  {
    if s == 0 then v
    else
      var half := Shl(v, s - 1);
      BitOfDouble(half, 0, 2 * half);
      2 * half
  }

  /** `v << s` in a w-bit unsigned type (high bits are dropped). */
  function ShlW(v: nat, s: nat, w: nat): (r: nat)
    ensures r < Pow2(w)
    ensures forall k: nat {:trigger Bit(r, k)} :: Bit(r, k) <==> s <= k < w && Bit(v, k - s)
  {
    Low(Shl(v, s), w)
  }

  /** Number of set bits, counted one bit at a time: the reference for
      every popcount in the model. */
  function Popcount(v: nat): (r: nat)
    ensures r == 0 <==> v == 0
  {
    if v == 0 then 0 else v % 2 + Popcount(v / 2)
  }

  /** `last_set`: the bit length of v, i.e. 2^(r-1) <= v < 2^r. */
  function LastSet(v: nat): (r: nat)
    ensures r == 0 <==> v == 0
    ensures v < Pow2(r)
    ensures v != 0 ==> Pow2(r - 1) <= v
  {
    if v == 0 then 0
    else
      var rest := LastSet(v / 2);
      assert Pow2(rest + 1) == 2 * Pow2(rest);
      1 + rest
  }

  /** All bits of v at or above w are zero. */
  predicate Fits(v: nat, w: nat) {
    v < Pow2(w)
  }

  /** Every bit set in a is set in b. */
  ghost predicate SubsetBits(a: nat, b: nat) {
    forall k: nat :: Bit(a, k) ==> Bit(b, k)
  }

  /** a and b have no set bit in common. */
  ghost predicate Disjoint(a: nat, b: nat) {
    forall k: nat :: !(Bit(a, k) && Bit(b, k))
  }

  // ---------------------------------------------------------------------
  // Lemmas

  /** No bit of 0 is set. */
  lemma ZeroBits()
    ensures forall k: nat :: !Bit(0, k)
  {
    forall k: nat ensures !Bit(0, k) { ZeroBit(k); }
  }

  lemma {:induction false} ZeroBit(k: nat)
    ensures !Bit(0, k)
  {
    if k > 0 { ZeroBit(k - 1); }
  }

  /** The bits of 2x + b are b followed by the bits of x. */
  lemma BitOfDouble(x: nat, b: nat, y: nat)
    requires b < 2 && y == 2 * x + b
    ensures Bit(y, 0) <==> b == 1
    ensures forall k: nat :: k > 0 ==> (Bit(y, k) <==> Bit(x, k - 1))
  {
    assert y / 2 == x;
  }

  /** A nat is determined by its bits. */
  lemma {:induction false} BitsEqual(a: nat, b: nat)
    requires forall k: nat :: Bit(a, k) == Bit(b, k)
    ensures a == b
    decreases a + b
  {
    if a != 0 || b != 0 {
      assert Bit(a, 0) == Bit(b, 0);
      forall k: nat ensures Bit(a / 2, k) == Bit(b / 2, k) {
        assert Bit(a, k + 1) == Bit(b, k + 1);
      }
      BitsEqual(a / 2, b / 2);
    }
  }

  /** v < 2^w exactly when no bit at or above w is set. */
  lemma {:induction false} FitsIffHighBitsClear(v: nat, w: nat)
    ensures Fits(v, w) ==> forall k: nat :: k >= w ==> !Bit(v, k)
    ensures (forall k: nat :: k >= w ==> !Bit(v, k)) ==> Fits(v, w)
  {
    if w == 0 {
      if v != 0 { LastSetBits(v); assert Bit(v, LastSet(v) - 1); } else { ZeroBits(); }
    } else {
      FitsIffHighBitsClear(v / 2, w - 1);
      assert Pow2(w) == 2 * Pow2(w - 1);
      assert Fits(v, w) <==> Fits(v / 2, w - 1);
      BitOfDouble(v / 2, v % 2, v);
      if Fits(v, w) {
        forall k: nat | k >= w ensures !Bit(v, k) {
          assert !Bit(v / 2, k - 1);
        }
      } else {
        var k: nat :| k >= w - 1 && Bit(v / 2, k);
        assert k + 1 >= w && Bit(v, k + 1);
        assert !(forall j: nat :: j >= w ==> !Bit(v, j));
        assert !Fits(v, w);
      }
    }
  }

  /** The bit length names the highest set bit: bit `LastSet(v) - 1` is set
      and no bit at or above `LastSet(v)` is. */
  lemma {:induction false} LastSetBits(v: nat)
    ensures v != 0 ==> Bit(v, LastSet(v) - 1)
    ensures forall j: nat :: j >= LastSet(v) ==> !Bit(v, j)
  {
    if v == 0 {
      ZeroBits();
    } else {
      LastSetBits(v / 2);
      BitOfDouble(v / 2, v % 2, v);
    }
  }

  /** Low(v, w) == v for a v that fits in w bits. */
  lemma LowOfFitting(v: nat, w: nat)
    requires Fits(v, w)
    ensures Low(v, w) == v
  {
    FitsIffHighBitsClear(v, w);
    BitsEqual(Low(v, w), v);
  }

  /** Shifting distributes over addition. */
  lemma {:induction false} ShlAdd(a: nat, b: nat, k: nat)
    ensures Shl(a + b, k) == Shl(a, k) + Shl(b, k)
  {
    if k > 0 { ShlAdd(a, b, k - 1); }
  }

  lemma {:induction false} ShlShl(v: nat, a: nat, b: nat)
    ensures Shl(Shl(v, a), b) == Shl(v, a + b)
  {
    if b > 0 { ShlShl(v, a, b - 1); }
  }

  /** `v << k` is v * 2^k. */
  lemma {:induction false} ShlIsMul(v: nat, k: nat)
    ensures Shl(v, k) == v * Pow2(k)
  {
    if k > 0 {
      ShlIsMul(v, k - 1);
      assert v * Pow2(k) == 2 * (v * Pow2(k - 1));
    }
  }

  /** 2^(a+b) == 2^a * 2^b. */
  lemma {:induction false} Pow2Add(a: nat, b: nat)
    ensures Pow2(a + b) == Pow2(a) * Pow2(b)
  {
    if a > 0 {
      Pow2Add(a - 1, b);
      assert Pow2(a + b) == 2 * Pow2(a - 1 + b);
    }
  }

  /** The bits of 2^w - 1 are exactly the low w bits. */
  lemma {:induction false} OnesBits(w: nat, ones: nat)
    requires ones == Pow2(w) - 1
    ensures forall k: nat :: Bit(ones, k) <==> k < w
  {
    if w == 0 {
      ZeroBits();
    } else {
      OnesBits(w - 1, Pow2(w - 1) - 1);
      BitOfDouble(Pow2(w - 1) - 1, 1, ones);
    }
  }

  /** The bits of m + (h << k), for m < 2^k, are those of m below k and those
      of h, moved up by k, from k on. */
  lemma {:induction false} ConcatBits(m: nat, h: nat, k: nat, y: nat)
    requires m < Pow2(k) && y == m + Shl(h, k)
    ensures forall j: nat {:trigger Bit(y, j)} :: j < k ==> (Bit(y, j) <==> Bit(m, j))
    ensures forall j: nat {:trigger Bit(y, j)} :: j >= k ==> (Bit(y, j) <==> Bit(h, j - k))
  {
    if k == 0 {
      assert m == 0;
    } else {
      var y' := m / 2 + Shl(h, k - 1);
      assert y == 2 * y' + m % 2;
      ConcatBits(m / 2, h, k - 1, y');
      BitOfDouble(y', m % 2, y);
      BitOfDouble(m / 2, m % 2, m);
    }
  }

  /** m + (h << k) fits in k + j bits when m fits in k and h in j. */
  lemma ConcatFits(m: nat, h: nat, k: nat, j: nat)
    requires m < Pow2(k) && h < Pow2(j)
    ensures m + Shl(h, k) < Pow2(k + j)
  {
    var y := m + Shl(h, k);
    ConcatBits(m, h, k, y);
    FitsIffHighBitsClear(h, j);
    forall i: nat | i >= k + j ensures !Bit(y, i) {
      assert !Bit(h, i - k);
    }
    FitsIffHighBitsClear(y, k + j);
  }

  /** Splitting m + (h << k) back into its low k bits and the rest. */
  lemma ConcatSplit(m: nat, h: nat, k: nat)
    requires m < Pow2(k)
    ensures Low(m + Shl(h, k), k) == m
    ensures Shr(m + Shl(h, k), k) == h
  {
    ConcatBits(m, h, k, m + Shl(h, k));
    FitsIffHighBitsClear(m, k);
    BitsEqual(Low(m + Shl(h, k), k), m);
    BitsEqual(Shr(m + Shl(h, k), k), h);
  }

  /** v is its low k bits followed by `v >> k`. */
  lemma LowShr(v: nat, k: nat)
    ensures v == Low(v, k) + Shl(Shr(v, k), k)
  {
    ConcatBits(Low(v, k), Shr(v, k), k, Low(v, k) + Shl(Shr(v, k), k));
    BitsEqual(v, Low(v, k) + Shl(Shr(v, k), k));
  }

  lemma ShrShr(v: nat, a: nat, b: nat)
    ensures Shr(Shr(v, a), b) == Shr(v, a + b)
  {
    BitsEqual(Shr(Shr(v, a), b), Shr(v, a + b));
  }

  lemma LowLow(v: nat, a: nat, b: nat)
    requires a <= b
    ensures Low(Low(v, b), a) == Low(v, a)
  {
    BitsEqual(Low(Low(v, b), a), Low(v, a));
  }

  /** The low a + b bits of v are its low a bits followed by the low b bits of `v >> a`. */
  lemma LowConcat(v: nat, a: nat, b: nat)
    ensures Low(v, a + b) == Low(v, a) + Shl(Low(Shr(v, a), b), a)
  {
    ConcatBits(Low(v, a), Low(Shr(v, a), b), a, Low(v, a) + Shl(Low(Shr(v, a), b), a));
    BitsEqual(Low(v, a + b), Low(v, a) + Shl(Low(Shr(v, a), b), a));
  }

  /** `x & (2^w - 1)` keeps the low w bits. */
  lemma AndOnes(x: nat, w: nat)
    ensures And(x, Pow2(w) - 1) == Low(x, w)
  {
    OnesBits(w, Pow2(w) - 1);
    BitsEqual(And(x, Pow2(w) - 1), Low(x, w));
  }

  /** And with a concatenated mask works part by part. */
  lemma AndConcat(x: nat, m: nat, h: nat, k: nat)
    requires m < Pow2(k)
    ensures And(x, m + Shl(h, k)) == And(Low(x, k), m) + Shl(And(Shr(x, k), h), k)
  {
    var lhs := And(x, m + Shl(h, k));
    var rhs := And(Low(x, k), m) + Shl(And(Shr(x, k), h), k);
    ConcatBits(m, h, k, m + Shl(h, k));
    ConcatBits(And(Low(x, k), m), And(Shr(x, k), h), k, rhs);
    forall j: nat ensures Bit(lhs, j) == Bit(rhs, j) {
      if j >= k { assert Bit(Shr(x, k), j - k) == Bit(x, j); }
    }
    BitsEqual(lhs, rhs);
  }

  /** Popcount of a concatenation is the sum of the popcounts. */
  lemma {:induction false} PopcountConcat(m: nat, h: nat, k: nat)
    requires m < Pow2(k)
    ensures Popcount(m + Shl(h, k)) == Popcount(m) + Popcount(h)
  {
    if k > 0 {
      var y := m + Shl(h, k);
      var y' := m / 2 + Shl(h, k - 1);
      assert y == 2 * y' + m % 2;
      PopcountConcat(m / 2, h, k - 1);
      assert Popcount(y) == m % 2 + Popcount(y');
    }
  }

  /** At most w of the low w bits are set, and w < 2^w. */
  lemma {:induction false} PopcountLow(v: nat, w: nat)
    ensures Popcount(Low(v, w)) <= w < Pow2(w)
  {
    if w > 0 {
      PopcountLow(v / 2, w - 1);
      var l := Low(v / 2, w - 1);
      assert Low(v, w) == 2 * l + v % 2;
      assert Popcount(2 * l + v % 2) == v % 2 + Popcount(l);
    }
  }

  /** 2^c - 1 has exactly c bits set. */
  lemma {:induction false} PopcountOnes(c: nat)
    ensures Popcount(Pow2(c) - 1) == c
  {
    if c > 0 {
      PopcountOnes(c - 1);
      assert Pow2(c) - 1 == 2 * (Pow2(c - 1) - 1) + 1;
    }
  }

  /** A subset of bits has no more set bits. */
  lemma {:induction false} PopcountSubset(a: nat, b: nat)
    requires SubsetBits(a, b)
    ensures Popcount(a) <= Popcount(b)
    decreases b
  {
    ZeroBits();
    if b == 0 {
      BitsEqual(a, 0);
    } else {
      assert Bit(a, 0) ==> Bit(b, 0);
      forall k: nat ensures Bit(a / 2, k) ==> Bit(b / 2, k) {
        assert Bit(a, k + 1) ==> Bit(b, k + 1);
      }
      PopcountSubset(a / 2, b / 2);
    }
  }

  /** No more bits are set than the bit length. */
  lemma {:induction false} PopcountAtMostLastSet(v: nat)
    ensures Popcount(v) <= LastSet(v)
  {
    if v > 0 { PopcountAtMostLastSet(v / 2); }
  }

  /** Powers of two grow with the exponent. */
  lemma {:induction false} Pow2Monotone(a: nat, b: nat)
    requires a <= b
    ensures Pow2(a) <= Pow2(b)
  {
    if a < b { Pow2Monotone(a, b - 1); }
  }

  /** The bit length of v is c when 2^(c-1) <= v < 2^c. */
  lemma LastSetBetween(v: nat, c: nat)
    requires 1 <= c && Pow2(c - 1) <= v < Pow2(c)
    ensures LastSet(v) == c
  {
    var r := LastSet(v);
    if r < c {
      Pow2Monotone(r, c - 1);
    } else if r > c {
      Pow2Monotone(c, r - 1);
    }
  }

  /** A value that fits in w bits has a bit length of at most w. */
  lemma LastSetAtMost(v: nat, w: nat)
    requires v < Pow2(w)
    ensures LastSet(v) <= w
  {
    if v != 0 && LastSet(v) > w {
      Pow2Monotone(w, LastSet(v) - 1);
    }
  }

  /** A value whose set bits are exactly those below c is 2^c - 1. */
  lemma OnesFromBits(r: nat, c: nat)
    requires forall k: nat :: Bit(r, k) <==> k < c
    ensures r == Pow2(c) - 1
  {
    OnesBits(c, Pow2(c) - 1);
    BitsEqual(r, Pow2(c) - 1);
  }

  /** `~v` in w bits is 2^w - 1 - v. */
  lemma {:induction false} NotWValue(v: nat, w: nat)
    requires v < Pow2(w)
    ensures NotW(v, w) == Pow2(w) - 1 - v
  {
    if w > 0 {
      NotWValue(v / 2, w - 1);
    }
  }

  /** The cast to a w-bit unsigned type keeps a non-negative value that fits
      and adds 2^w to a negative one. */
  lemma ToUnsignedInRange(x: int, w: nat)
    requires 0 <= x + Pow2(w) && x < Pow2(w)
    ensures x >= 0 ==> ToUnsigned(x, w) == x
    ensures x < 0 ==> ToUnsigned(x, w) == x + Pow2(w)
  {
    if x >= 0 {
      LowOfFitting(x, w);
    } else {
      NotWValue(-x - 1, w);
    }
  }

  /** A w-bit value is zero exactly when none of its w bits is set. */
  lemma ZeroIffNoBits(v: nat, w: nat)
    requires v < Pow2(w)
    ensures v == 0 <==> forall k: nat :: k < w ==> !Bit(v, k)
  {
    if v == 0 {
      forall k: nat | k < w ensures !Bit(v, k) { ZeroBit(k); }
    } else {
      SomeBitBelow(v, w);
    }
  }

  /** A non-zero w-bit value has a set bit below w. */
  lemma SomeBitBelow(v: nat, w: nat)
    requires v < Pow2(w) && v != 0
    ensures exists k: nat :: k < w && Bit(v, k)
  {
    LastSetBits(v);
    LastSetAtMost(v, w);
    var top: nat := LastSet(v) - 1;
    assert top < w && Bit(v, top);
  }

  /** `(a & b) == b` says that every bit of b is a bit of a. */
  lemma AndIsRightIff(a: nat, b: nat)
    ensures And(a, b) == b <==> SubsetBits(b, a)
  {
    if SubsetBits(b, a) {
      BitsEqual(And(a, b), b);
    }
  }

  /** `(a & b) == 0` says that a and b share no bit. */
  lemma AndIsZeroIff(a: nat, b: nat)
    ensures And(a, b) == 0 <==> Disjoint(a, b)
  {
    ZeroBits();
    LastSetBits(And(a, b));
    assert forall k: nat :: Bit(And(a, b), k) == (Bit(a, k) && Bit(b, k));
  }
}
