/** The population counts of `ez::intern`: the compile-time chain
    `const_bitcount_0 ... const_bitcount_4` used by the trait checks, and the
    four `bitcount` overloads used by `size()`. All of them are the same SWAR
    ("SIMD within a register") network: after the step with field width w,
    every field of 2w bits holds the number of set bits of the input in that
    field. */
module Swar {
  import opened Bits

  // ---------------------------------------------------------------------
  // The field view of a SWAR step

  /** n blocks of 2w bits, the low w bits of each set: 0x55.., 0x33.., 0x0F.., ... */
  function LoMask(w: nat, n: nat): nat {
    if n == 0 then 0 else (Pow2(w) - 1) + Shl(LoMask(w, n - 1), 2 * w)
  }

  /** The sums of neighbouring w-bit fields of x, one per 2w-bit block, for n blocks. */
  function PairSum(x: nat, w: nat, n: nat): nat
    decreases n
  {
    if n == 0 then 0
    else Low(x, w) + Low(Shr(x, w), w) + Shl(PairSum(Shr(x, 2 * w), w, n - 1), 2 * w)
  }

  /** m fields of w bits, the field j holding the number of set bits of
      v in bits [j*w, (j+1)*w). */
  function Packed(v: nat, w: nat, m: nat): nat
    decreases m
  {
    if m == 0 then 0 else Popcount(Low(v, w)) + Shl(Packed(Shr(v, w), w, m - 1), w)
  }

  /** One SWAR step `((x & hi) >> w) + (x & lo)` in an unsigned type of `width` bits. */
  function Step(x: nat, hi: nat, lo: nat, w: nat, width: nat): nat {
    Low(Shr(And(x, hi), w) + And(x, lo), width)
  }

  /** `(x & (m << w)) >> w` is `(x >> w) & m`: the odd fields of x moved down. */
  lemma HighFields(x: nat, w: nat, m: nat)
    ensures Shr(And(x, Shl(m, w)), w) == And(Shr(x, w), m)
  {
    var lhs := Shr(And(x, Shl(m, w)), w);
    var rhs := And(Shr(x, w), m);
    forall k: nat ensures Bit(lhs, k) == Bit(rhs, k) {
      assert Bit(lhs, k) == Bit(And(x, Shl(m, w)), k + w);
      assert Bit(Shl(m, w), k + w) == Bit(m, k);
    }
    BitsEqual(lhs, rhs);
  }

  /** `x & LoMask(w, n)` splits into the first field and the rest. */
  lemma LowFields(x: nat, w: nat, n: nat)
    requires n > 0
    ensures And(x, LoMask(w, n)) == Low(x, w) + Shl(And(Shr(x, 2 * w), LoMask(w, n - 1)), 2 * w)
  {
    var m := Pow2(w) - 1;
    var rest := LoMask(w, n - 1);
    assert LoMask(w, n) == m + Shl(rest, 2 * w);
    LowFits(w, 2 * w);
    AndConcat(x, m, rest, 2 * w);
    assert And(Low(x, 2 * w), m) == Low(x, w) by {
      AndOnes(Low(x, 2 * w), w);
      LowLow(x, w, 2 * w);
    }
  }

  /** 2^a - 1 < 2^b for a <= b. */
  lemma {:induction false} LowFits(a: nat, b: nat)
    requires a <= b
    ensures Pow2(a) - 1 < Pow2(b)
  {
    if a < b { LowFits(a, b - 1); }
  }

  /** A SWAR step over n blocks computes the pairwise field sums. */
  lemma {:induction false} StepIsPairSum(x: nat, w: nat, n: nat)
    ensures Shr(And(x, Shl(LoMask(w, n), w)), w) + And(x, LoMask(w, n)) == PairSum(x, w, n)
    decreases n
  {
    if n == 0 {
      NoFields(x, w);
    } else {
      var y := Shr(x, 2 * w);
      var l := LoMask(w, n - 1);
      var a := And(Shr(y, w), l);
      var b := And(y, l);
      HighHalf(x, w, n);
      LowFields(x, w, n);
      assert a + b == PairSum(y, w, n - 1) by {
        StepIsPairSum(y, w, n - 1);
        HighFields(y, w, l);
      }
      PairSumUnfold(x, w, n, a, b);
    }
  }

  /** The high half of a step over n blocks: the first odd field, then the
      odd fields of the remaining blocks. */
  lemma HighHalf(x: nat, w: nat, n: nat)
    requires n > 0
    ensures Shr(And(x, Shl(LoMask(w, n), w)), w)
         == Low(Shr(x, w), w) + Shl(And(Shr(Shr(x, 2 * w), w), LoMask(w, n - 1)), 2 * w)
  {
    HighFields(x, w, LoMask(w, n));
    LowFields(Shr(x, w), w, n);
    ShrShr(x, w, 2 * w);
    ShrShr(x, 2 * w, w);
  }

  /** With no blocks, both halves of a step are empty. */
  lemma NoFields(x: nat, w: nat)
    ensures Shr(And(x, Shl(LoMask(w, 0), w)), w) + And(x, LoMask(w, 0)) == PairSum(x, w, 0)
  {
    HighFields(x, w, 0);
    ZeroBits();
    BitsEqual(And(Shr(x, w), 0), 0);
    BitsEqual(And(x, 0), 0);
  }

  /** The first block of a pairwise sum and the sums of the rest, shifted up. */
  lemma PairSumUnfold(x: nat, w: nat, n: nat, a: nat, b: nat)
    requires n > 0 && a + b == PairSum(Shr(x, 2 * w), w, n - 1)
    ensures (Low(Shr(x, w), w) + Shl(a, 2 * w)) + (Low(x, w) + Shl(b, 2 * w)) == PairSum(x, w, n)
  {
    ShlAdd(a, b, 2 * w);
  }

  /** Summing neighbouring fields of a packed count doubles the field width. */
  lemma {:induction false} PackedStep(v: nat, w: nat, n: nat)
    ensures PairSum(Packed(v, w, 2 * n), w, n) == Packed(v, 2 * w, n)
    decreases n
  {
    if n > 0 {
      PackedFirstFields(v, w, n);
      PopcountLowDouble(v, w);
      PackedStep(Shr(v, 2 * w), w, n - 1);
    }
  }

  /** The first two w-bit fields of a packed count of 2n fields, and the
      2(n - 1) fields after them. */
  lemma PackedFirstFields(v: nat, w: nat, n: nat)
    requires n > 0
    ensures Low(Packed(v, w, 2 * n), w) == Popcount(Low(v, w))
    ensures Low(Shr(Packed(v, w, 2 * n), w), w) == Popcount(Low(Shr(v, w), w))
    ensures Shr(Packed(v, w, 2 * n), 2 * w) == Packed(Shr(v, 2 * w), w, 2 * (n - 1))
  {
    var p0 := Popcount(Low(v, w));
    var p1 := Popcount(Low(Shr(v, w), w));
    var rest := Packed(Shr(v, 2 * w), w, 2 * (n - 1));
    var x := Packed(v, w, 2 * n);
    assert x == p0 + Shl(p1 + Shl(rest, w), w) by {
      PackedTwoLevels(v, w, n);
      ShrTwice(v, w);
      assert 2 * n - 2 == 2 * (n - 1);
    }
    PopcountLow(v, w);
    PopcountLow(Shr(v, w), w);
    SplitTwoFields(p0, p1, rest, w, x);
  }

  /** Two levels of `Packed`. */
  lemma PackedTwoLevels(v: nat, w: nat, n: nat)
    requires n > 0
    ensures Packed(v, w, 2 * n)
         == Popcount(Low(v, w)) + Shl(Popcount(Low(Shr(v, w), w)) + Shl(Packed(Shr(Shr(v, w), w), w, 2 * n - 2), w), w)
  {
  }

  /** Shifting right by w twice is shifting by 2w. */
  lemma ShrTwice(v: nat, w: nat)
    ensures Shr(Shr(v, w), w) == Shr(v, 2 * w)
  {
    ShrShr(v, w, w);
    assert w + w == 2 * w;
  }

  /** Two w-bit fields below a rest are read back by `Low` and `Shr`. */
  lemma SplitTwoFields(p0: nat, p1: nat, rest: nat, w: nat, x: nat)
    requires p0 < Pow2(w) && p1 < Pow2(w) && x == p0 + Shl(p1 + Shl(rest, w), w)
    ensures Low(x, w) == p0 && Low(Shr(x, w), w) == p1 && Shr(x, 2 * w) == rest
  {
    ConcatSplit(p0, p1 + Shl(rest, w), w);
    ConcatSplit(p1, rest, w);
    ShrTwice(x, w);
  }

  /** The bits of a 2w-bit field are those of its two w-bit halves. */
  lemma PopcountLowDouble(v: nat, w: nat)
    ensures Popcount(Low(v, 2 * w)) == Popcount(Low(v, w)) + Popcount(Low(Shr(v, w), w))
  {
    var lo := Low(v, w);
    var hi := Low(Shr(v, w), w);
    var whole := Low(v, 2 * w);
    assert whole == lo + Shl(hi, w) by {
      LowConcat(v, w, w);
      assert w + w == 2 * w;
    }
    PopcountConcat(lo, hi, w);
    assert Popcount(lo + Shl(hi, w)) == Popcount(whole);
  }

  /** With one-bit fields, the packed counts are the bits themselves. */
  lemma {:induction false} PackedOnes(v: nat, m: nat)
    ensures Packed(v, 1, m) == Low(v, m)
    decreases m
  {
    if m > 0 {
      PackedOnes(v / 2, m - 1);
      assert Low(v, 1) == v % 2;
      assert Popcount(v % 2) == v % 2;
      assert Shr(v, 1) == v / 2;
      assert Shl(Packed(v / 2, 1, m - 1), 1) == 2 * Packed(v / 2, 1, m - 1);
    }
  }

  /** m fields of w bits fit in `total` == w * m bits. */
  lemma {:induction false} PackedFits(v: nat, w: nat, m: nat, total: nat)
    requires total == w * m
    ensures Packed(v, w, m) < Pow2(total)
    decreases m
  {
    if m > 0 {
      PopcountLow(v, w);
      assert total == w + w * (m - 1);
      PackedFits(Shr(v, w), w, m - 1, total - w);
      ConcatFits(Popcount(Low(v, w)), Packed(Shr(v, w), w, m - 1), w, total - w);
    }
  }

  /** `Step` with the masks of field width w maps the packed counts of width w
      to those of width 2w, with no overflow in a type of `width` bits. */
  lemma StepPacked(v: nat, x: nat, w: nat, n: nat, width: nat, hi: nat, lo: nat)
    requires lo == LoMask(w, n) && hi == Shl(lo, w)
    requires x == Packed(v, w, 2 * n) && 2 * w * n <= width
    ensures Step(x, hi, lo, w, width) == Packed(v, 2 * w, n)
  {
    var sum := Shr(And(x, hi), w) + And(x, lo);
    assert sum == PairSum(x, w, n) by { StepIsPairSum(x, w, n); }
    assert sum == Packed(v, 2 * w, n) by { PackedStep(v, w, n); }
    assert sum < Pow2(width) by {
      PackedFits(v, 2 * w, n, 2 * w * n);
      Pow2Monotone(2 * w * n, width);
    }
    LowOfFitting(sum, width);
  }

  /** Powers of two used by the masks. */
  lemma Pow2Values()
    ensures Pow2(1) == 2 && Pow2(2) == 4 && Pow2(4) == 16 && Pow2(8) == 0x100
    ensures Pow2(16) == 0x1_0000 && Pow2(32) == 0x1_0000_0000
    ensures Pow2(64) == 0x1_0000_0000_0000_0000
  {
    assert Pow2(2) == 4;
    Pow2Add(2, 2);
    Pow2Add(4, 4);
    Pow2Add(8, 8);
    Pow2Add(16, 16);
    Pow2Add(32, 32);
  }

  /** One block: the low w bits. */
  lemma LoMaskOne(w: nat)
    ensures LoMask(w, 1) == Pow2(w) - 1
  {
    ShlIsMul(0, 2 * w);
  }

  /** Doubling the number of blocks of a mask. */
  lemma LoMaskDoubled(w: nat, n: nat, shift: nat)
    requires shift == 2 * w * n
    ensures LoMask(w, 2 * n) == LoMask(w, n) + Shl(LoMask(w, n), shift)
  {
    LoMaskSplit(w, n, n, shift);
  }

  /** `m << w` for the low masks of the source, by value. */
  lemma HighMask(m: nat, w: nat, p: nat)
    requires p == Pow2(w)
    ensures Shl(m, w) == m * p
  {
    ShlIsMul(m, w);
  }

  /** The masks for field width 1, by value. */
  lemma Masks1()
    ensures LoMask(1, 1) == 0x01 && Shl(0x01, 1) == 0x02
    ensures LoMask(1, 2) == 0x05 && Shl(0x05, 1) == 0x0A
    ensures LoMask(1, 4) == 0x55 && Shl(0x55, 1) == 0xAA
    ensures LoMask(1, 8) == 0x5555 && Shl(0x5555, 1) == 0xAAAA
    ensures LoMask(1, 16) == 0x5555_5555 && Shl(0x5555_5555, 1) == 0xAAAA_AAAA
    ensures LoMask(1, 32) == 0x5555_5555_5555_5555 && Shl(0x5555_5555_5555_5555, 1) == 0xAAAA_AAAA_AAAA_AAAA
  {
    Pow2Values();
    LoMaskOne(1);
    HighMask(0x01, 1, Pow2(1));
    LoMaskDoubled(1, 1, 2);
    HighMask(0x01, 2, Pow2(2));
    HighMask(0x05, 1, Pow2(1));
    LoMaskDoubled(1, 2, 4);
    HighMask(0x05, 4, Pow2(4));
    HighMask(0x55, 1, Pow2(1));
    LoMaskDoubled(1, 4, 8);
    HighMask(0x55, 8, Pow2(8));
    HighMask(0x5555, 1, Pow2(1));
    LoMaskDoubled(1, 8, 16);
    HighMask(0x5555, 16, Pow2(16));
    HighMask(0x5555_5555, 1, Pow2(1));
    LoMaskDoubled(1, 16, 32);
    HighMask(0x5555_5555, 32, Pow2(32));
    HighMask(0x5555_5555_5555_5555, 1, Pow2(1));
  }

  /** The masks for field width 2, by value. */
  lemma Masks2()
    ensures LoMask(2, 1) == 0x03 && Shl(0x03, 2) == 0x0C
    ensures LoMask(2, 2) == 0x33 && Shl(0x33, 2) == 0xCC
    ensures LoMask(2, 4) == 0x3333 && Shl(0x3333, 2) == 0xCCCC
    ensures LoMask(2, 8) == 0x3333_3333 && Shl(0x3333_3333, 2) == 0xCCCC_CCCC
    ensures LoMask(2, 16) == 0x3333_3333_3333_3333 && Shl(0x3333_3333_3333_3333, 2) == 0xCCCC_CCCC_CCCC_CCCC
  {
    Pow2Values();
    LoMaskOne(2);
    HighMask(0x03, 2, Pow2(2));
    LoMaskDoubled(2, 1, 4);
    HighMask(0x03, 4, Pow2(4));
    HighMask(0x33, 2, Pow2(2));
    LoMaskDoubled(2, 2, 8);
    HighMask(0x33, 8, Pow2(8));
    HighMask(0x3333, 2, Pow2(2));
    LoMaskDoubled(2, 4, 16);
    HighMask(0x3333, 16, Pow2(16));
    HighMask(0x3333_3333, 2, Pow2(2));
    LoMaskDoubled(2, 8, 32);
    HighMask(0x3333_3333, 32, Pow2(32));
    HighMask(0x3333_3333_3333_3333, 2, Pow2(2));
  }

  /** The masks for field width 4, by value. */
  lemma Masks4()
    ensures LoMask(4, 1) == 0x0F && Shl(0x0F, 4) == 0xF0
    ensures LoMask(4, 2) == 0x0F0F && Shl(0x0F0F, 4) == 0xF0F0
    ensures LoMask(4, 4) == 0x0F0F_0F0F && Shl(0x0F0F_0F0F, 4) == 0xF0F0_F0F0
    ensures LoMask(4, 8) == 0x0F0F_0F0F_0F0F_0F0F && Shl(0x0F0F_0F0F_0F0F_0F0F, 4) == 0xF0F0_F0F0_F0F0_F0F0
  {
    Pow2Values();
    LoMaskOne(4);
    HighMask(0x0F, 4, Pow2(4));
    LoMaskDoubled(4, 1, 8);
    HighMask(0x0F, 8, Pow2(8));
    HighMask(0x0F0F, 4, Pow2(4));
    LoMaskDoubled(4, 2, 16);
    HighMask(0x0F0F, 16, Pow2(16));
    HighMask(0x0F0F_0F0F, 4, Pow2(4));
    LoMaskDoubled(4, 4, 32);
    HighMask(0x0F0F_0F0F, 32, Pow2(32));
    HighMask(0x0F0F_0F0F_0F0F_0F0F, 4, Pow2(4));
  }

  /** The masks for field width 8, by value. */
  lemma Masks8()
    ensures LoMask(8, 1) == 0x00FF && Shl(0x00FF, 8) == 0xFF00
    ensures LoMask(8, 2) == 0x00FF_00FF && Shl(0x00FF_00FF, 8) == 0xFF00_FF00
    ensures LoMask(8, 4) == 0x00FF_00FF_00FF_00FF && Shl(0x00FF_00FF_00FF_00FF, 8) == 0xFF00_FF00_FF00_FF00
  {
    Pow2Values();
    LoMaskOne(8);
    HighMask(0x00FF, 8, Pow2(8));
    LoMaskDoubled(8, 1, 16);
    HighMask(0x00FF, 16, Pow2(16));
    HighMask(0x00FF_00FF, 8, Pow2(8));
    LoMaskDoubled(8, 2, 32);
    HighMask(0x00FF_00FF, 32, Pow2(32));
    HighMask(0x00FF_00FF_00FF_00FF, 8, Pow2(8));
  }

  /** The masks for field width 16, by value. */
  lemma Masks16()
    ensures LoMask(16, 1) == 0x0000_FFFF && Shl(0x0000_FFFF, 16) == 0xFFFF_0000
    ensures LoMask(16, 2) == 0x0000_FFFF_0000_FFFF && Shl(0x0000_FFFF_0000_FFFF, 16) == 0xFFFF_0000_FFFF_0000
  {
    Pow2Values();
    LoMaskOne(16);
    HighMask(0x0000_FFFF, 16, Pow2(16));
    LoMaskDoubled(16, 1, 32);
    HighMask(0x0000_FFFF, 32, Pow2(32));
    HighMask(0x0000_FFFF_0000_FFFF, 16, Pow2(16));
  }

  /** The masks for field width 32, by value. */
  lemma Masks32()
    ensures LoMask(32, 1) == 0x0000_0000_FFFF_FFFF && Shl(0x0000_0000_FFFF_FFFF, 32) == 0xFFFF_FFFF_0000_0000
  {
    Pow2Values();
    LoMaskOne(32);
    HighMask(0x0000_0000_FFFF_FFFF, 32, Pow2(32));
  }

  lemma {:induction false} LoMaskSplit(w: nat, a: nat, b: nat, shift: nat)
    requires shift == 2 * w * a
    ensures LoMask(w, a + b) == LoMask(w, a) + Shl(LoMask(w, b), shift)
    decreases a
  {
    if a > 0 {
      assert shift == 2 * w + 2 * w * (a - 1);
      LoMaskSplit(w, a - 1, b, shift - 2 * w);
      ShlAdd(LoMask(w, a - 1), Shl(LoMask(w, b), shift - 2 * w), 2 * w);
      ShlShl(LoMask(w, b), shift - 2 * w, 2 * w);
    }
  }

  // ---------------------------------------------------------------------
  // const_bitcount: a chain of calls, each doing one step on a uint64_t

  /** `const_bitcount_4`: the last step; when the two 32-bit fields of `val`
      hold the numbers of set bits of the two halves of v, it yields the
      number of set bits of v. */
  function ConstBitcount4(val: nat): (r: nat)
    requires val < Pow2(64)
    ensures forall v: nat :: v < Pow2(64) && val == Packed(v, 32, 2) ==> r == Popcount(v)
  {
    LastStageCounts(val);
    Step(val, 0xFFFF_FFFF_0000_0000, 0x0000_0000_FFFF_FFFF, 32, 64)
  }

  /** `const_bitcount_3`: from four 16-bit fields holding the counts of v. */
  function ConstBitcount3(val: nat): (r: nat)
    requires val < Pow2(64)
    ensures forall v: nat :: v < Pow2(64) && val == Packed(v, 16, 4) ==> r == Popcount(v)
  {
    StageFields16(val);
    ConstBitcount4(Step(val, 0xFFFF_0000_FFFF_0000, 0x0000_FFFF_0000_FFFF, 16, 64))
  }

  /** `const_bitcount_2`: from eight 8-bit fields holding the counts of v. */
  function ConstBitcount2(val: nat): (r: nat)
    requires val < Pow2(64)
    ensures forall v: nat :: v < Pow2(64) && val == Packed(v, 8, 8) ==> r == Popcount(v)
  {
    StageFields8(val);
    ConstBitcount3(Step(val, 0xFF00_FF00_FF00_FF00, 0x00FF_00FF_00FF_00FF, 8, 64))
  }

  /** `const_bitcount_1`: from sixteen 4-bit fields holding the counts of v. */
  function ConstBitcount1(val: nat): (r: nat)
    requires val < Pow2(64)
    ensures forall v: nat :: v < Pow2(64) && val == Packed(v, 4, 16) ==> r == Popcount(v)
  {
    StageFields4(val);
    ConstBitcount2(Step(val, 0xF0F0_F0F0_F0F0_F0F0, 0x0F0F_0F0F_0F0F_0F0F, 4, 64))
  }

  /** `const_bitcount_0`: from thirty-two 2-bit fields holding the counts of v. */
  function ConstBitcount0(val: nat): (r: nat)
    requires val < Pow2(64)
    ensures forall v: nat :: v < Pow2(64) && val == Packed(v, 2, 32) ==> r == Popcount(v)
  {
    StageFields2(val);
    ConstBitcount1(Step(val, 0xCCCC_CCCC_CCCC_CCCC, 0x3333_3333_3333_3333, 2, 64))
  }

  /** `const_bitcount`: the number of set bits of a uint64_t. */
  function ConstBitcount(val: nat): (r: nat)
    requires val < Pow2(64)
    ensures r == Popcount(val)
  {
    ConstBitcountChainIsPopcount(val);
    ConstBitcount0(Step(val, 0xAAAA_AAAA_AAAA_AAAA, 0x5555_5555_5555_5555, 1, 64))
  }

  /** The step of `const_bitcount_4` turns two counted 32-bit fields into the count. */
  lemma LastStageCounts(x: nat)
    ensures forall v: nat :: v < Pow2(64) && x == Packed(v, 32, 2) ==>
      Step(x, 0xFFFF_FFFF_0000_0000, 0x0000_0000_FFFF_FFFF, 32, 64) == Popcount(v)
  {
    forall v: nat | v < Pow2(64) && x == Packed(v, 32, 2)
      ensures Step(x, 0xFFFF_FFFF_0000_0000, 0x0000_0000_FFFF_FFFF, 32, 64) == Popcount(v)
    {
      Stage64For32(v, x);
      PackedWhole(v, 64);
    }
  }

  /** The step of `const_bitcount_3` doubles the width of counted 16-bit fields. */
  lemma StageFields16(x: nat)
    ensures forall v: nat :: x == Packed(v, 16, 4) ==>
      Step(x, 0xFFFF_0000_FFFF_0000, 0x0000_FFFF_0000_FFFF, 16, 64) == Packed(v, 32, 2)
  {
    forall v: nat | x == Packed(v, 16, 4)
      ensures Step(x, 0xFFFF_0000_FFFF_0000, 0x0000_FFFF_0000_FFFF, 16, 64) == Packed(v, 32, 2)
    { Stage64For16(v, x); }
  }

  /** The step of `const_bitcount_2` doubles the width of counted 8-bit fields. */
  lemma StageFields8(x: nat)
    ensures forall v: nat :: x == Packed(v, 8, 8) ==>
      Step(x, 0xFF00_FF00_FF00_FF00, 0x00FF_00FF_00FF_00FF, 8, 64) == Packed(v, 16, 4)
  {
    forall v: nat | x == Packed(v, 8, 8)
      ensures Step(x, 0xFF00_FF00_FF00_FF00, 0x00FF_00FF_00FF_00FF, 8, 64) == Packed(v, 16, 4)
    { Stage64For8(v, x); }
  }

  /** The step of `const_bitcount_1` doubles the width of counted 4-bit fields. */
  lemma StageFields4(x: nat)
    ensures forall v: nat :: x == Packed(v, 4, 16) ==>
      Step(x, 0xF0F0_F0F0_F0F0_F0F0, 0x0F0F_0F0F_0F0F_0F0F, 4, 64) == Packed(v, 8, 8)
  {
    forall v: nat | x == Packed(v, 4, 16)
      ensures Step(x, 0xF0F0_F0F0_F0F0_F0F0, 0x0F0F_0F0F_0F0F_0F0F, 4, 64) == Packed(v, 8, 8)
    { Stage64For4(v, x); }
  }

  /** The step of `const_bitcount_0` doubles the width of counted 2-bit fields. */
  lemma StageFields2(x: nat)
    ensures forall v: nat :: x == Packed(v, 2, 32) ==>
      Step(x, 0xCCCC_CCCC_CCCC_CCCC, 0x3333_3333_3333_3333, 2, 64) == Packed(v, 4, 16)
  {
    forall v: nat | x == Packed(v, 2, 32)
      ensures Step(x, 0xCCCC_CCCC_CCCC_CCCC, 0x3333_3333_3333_3333, 2, 64) == Packed(v, 4, 16)
    { Stage64For2(v, x); }
  }

  /** The uint64_t step with field width 1. */
  lemma Stage64For1(v: nat, x: nat)
    requires x == Packed(v, 1, 64)
    ensures Step(x, 0xAAAA_AAAA_AAAA_AAAA, 0x5555_5555_5555_5555, 1, 64) == Packed(v, 2, 32)
  {
    Masks1();
    StepPacked(v, x, 1, 32, 64, 0xAAAA_AAAA_AAAA_AAAA, 0x5555_5555_5555_5555);
  }

  /** The uint64_t step with field width 2. */
  lemma Stage64For2(v: nat, x: nat)
    requires x == Packed(v, 2, 32)
    ensures Step(x, 0xCCCC_CCCC_CCCC_CCCC, 0x3333_3333_3333_3333, 2, 64) == Packed(v, 4, 16)
  {
    Masks2();
    StepPacked(v, x, 2, 16, 64, 0xCCCC_CCCC_CCCC_CCCC, 0x3333_3333_3333_3333);
  }

  /** The uint64_t step with field width 4. */
  lemma Stage64For4(v: nat, x: nat)
    requires x == Packed(v, 4, 16)
    ensures Step(x, 0xF0F0_F0F0_F0F0_F0F0, 0x0F0F_0F0F_0F0F_0F0F, 4, 64) == Packed(v, 8, 8)
  {
    Masks4();
    StepPacked(v, x, 4, 8, 64, 0xF0F0_F0F0_F0F0_F0F0, 0x0F0F_0F0F_0F0F_0F0F);
  }

  /** The uint64_t step with field width 8. */
  lemma Stage64For8(v: nat, x: nat)
    requires x == Packed(v, 8, 8)
    ensures Step(x, 0xFF00_FF00_FF00_FF00, 0x00FF_00FF_00FF_00FF, 8, 64) == Packed(v, 16, 4)
  {
    Masks8();
    StepPacked(v, x, 8, 4, 64, 0xFF00_FF00_FF00_FF00, 0x00FF_00FF_00FF_00FF);
  }

  /** The uint64_t step with field width 16. */
  lemma Stage64For16(v: nat, x: nat)
    requires x == Packed(v, 16, 4)
    ensures Step(x, 0xFFFF_0000_FFFF_0000, 0x0000_FFFF_0000_FFFF, 16, 64) == Packed(v, 32, 2)
  {
    Masks16();
    StepPacked(v, x, 16, 2, 64, 0xFFFF_0000_FFFF_0000, 0x0000_FFFF_0000_FFFF);
  }

  /** The uint64_t step with field width 32. */
  lemma Stage64For32(v: nat, x: nat)
    requires x == Packed(v, 32, 2)
    ensures Step(x, 0xFFFF_FFFF_0000_0000, 0x0000_0000_FFFF_FFFF, 32, 64) == Packed(v, 64, 1)
  {
    Masks32();
    StepPacked(v, x, 32, 1, 64, 0xFFFF_FFFF_0000_0000, 0x0000_0000_FFFF_FFFF);
  }

  /** The six steps of the `const_bitcount` chain compute the number of set
      bits of a uint64_t. */
  lemma ConstBitcountChainIsPopcount(v: nat)
    requires v < Pow2(64)
    ensures ConstBitcount0(Step(v, 0xAAAA_AAAA_AAAA_AAAA, 0x5555_5555_5555_5555, 1, 64)) == Popcount(v)
  {
    PackedOnes(v, 64);
    LowOfFitting(v, 64);
    Stage64For1(v, v);
  }

  /** A single field spanning all w bits holds the population count. */
  lemma PackedWhole(v: nat, w: nat)
    requires v < Pow2(w)
    ensures Packed(v, w, 1) == Popcount(v)
  {
    ShlIsMul(0, w);
    LowOfFitting(v, w);
  }
  // ---------------------------------------------------------------------
  // bitcount: the runtime overloads, one local reassigned step by step

  /** The uint8_t step with field width 1, computed in a uint32_t. */
  lemma Stage8For1(v: nat, x: nat)
    requires x == Packed(v, 1, 8)
    ensures Step(x, 0xAA, 0x55, 1, 32) == Packed(v, 2, 4)
  {
    Masks1();
    StepPacked(v, x, 1, 4, 32, 0xAA, 0x55);
  }

  /** The uint8_t step with field width 2, computed in a uint32_t. */
  lemma Stage8For2(v: nat, x: nat)
    requires x == Packed(v, 2, 4)
    ensures Step(x, 0xCC, 0x33, 2, 32) == Packed(v, 4, 2)
  {
    Masks2();
    StepPacked(v, x, 2, 2, 32, 0xCC, 0x33);
  }

  /** The uint8_t step with field width 4, computed in a uint32_t. */
  lemma Stage8For4(v: nat, x: nat)
    requires x == Packed(v, 4, 2)
    ensures Step(x, 0xF0, 0x0F, 4, 32) == Packed(v, 8, 1)
  {
    Masks4();
    StepPacked(v, x, 4, 1, 32, 0xF0, 0x0F);
  }

  /** The uint16_t step with field width 1, computed in a uint32_t. */
  lemma Stage16For1(v: nat, x: nat)
    requires x == Packed(v, 1, 16)
    ensures Step(x, 0xAAAA, 0x5555, 1, 32) == Packed(v, 2, 8)
  {
    Masks1();
    StepPacked(v, x, 1, 8, 32, 0xAAAA, 0x5555);
  }

  /** The uint16_t step with field width 2, computed in a uint32_t. */
  lemma Stage16For2(v: nat, x: nat)
    requires x == Packed(v, 2, 8)
    ensures Step(x, 0xCCCC, 0x3333, 2, 32) == Packed(v, 4, 4)
  {
    Masks2();
    StepPacked(v, x, 2, 4, 32, 0xCCCC, 0x3333);
  }

  /** The uint16_t step with field width 4, computed in a uint32_t. */
  lemma Stage16For4(v: nat, x: nat)
    requires x == Packed(v, 4, 4)
    ensures Step(x, 0xF0F0, 0x0F0F, 4, 32) == Packed(v, 8, 2)
  {
    Masks4();
    StepPacked(v, x, 4, 2, 32, 0xF0F0, 0x0F0F);
  }

  /** The uint16_t step with field width 8, computed in a uint32_t. */
  lemma Stage16For8(v: nat, x: nat)
    requires x == Packed(v, 8, 2)
    ensures Step(x, 0xFF00, 0x00FF, 8, 32) == Packed(v, 16, 1)
  {
    Masks8();
    StepPacked(v, x, 8, 1, 32, 0xFF00, 0x00FF);
  }

  /** The uint32_t step with field width 1, computed in a uint32_t. */
  lemma Stage32For1(v: nat, x: nat)
    requires x == Packed(v, 1, 32)
    ensures Step(x, 0xAAAA_AAAA, 0x5555_5555, 1, 32) == Packed(v, 2, 16)
  {
    Masks1();
    StepPacked(v, x, 1, 16, 32, 0xAAAA_AAAA, 0x5555_5555);
  }

  /** The uint32_t step with field width 2, computed in a uint32_t. */
  lemma Stage32For2(v: nat, x: nat)
    requires x == Packed(v, 2, 16)
    ensures Step(x, 0xCCCC_CCCC, 0x3333_3333, 2, 32) == Packed(v, 4, 8)
  {
    Masks2();
    StepPacked(v, x, 2, 8, 32, 0xCCCC_CCCC, 0x3333_3333);
  }

  /** The uint32_t step with field width 4, computed in a uint32_t. */
  lemma Stage32For4(v: nat, x: nat)
    requires x == Packed(v, 4, 8)
    ensures Step(x, 0xF0F0_F0F0, 0x0F0F_0F0F, 4, 32) == Packed(v, 8, 4)
  {
    Masks4();
    StepPacked(v, x, 4, 4, 32, 0xF0F0_F0F0, 0x0F0F_0F0F);
  }

  /** The uint32_t step with field width 8, computed in a uint32_t. */
  lemma Stage32For8(v: nat, x: nat)
    requires x == Packed(v, 8, 4)
    ensures Step(x, 0xFF00_FF00, 0x00FF_00FF, 8, 32) == Packed(v, 16, 2)
  {
    Masks8();
    StepPacked(v, x, 8, 2, 32, 0xFF00_FF00, 0x00FF_00FF);
  }

  /** The uint32_t step with field width 16, computed in a uint32_t. */
  lemma Stage32For16(v: nat, x: nat)
    requires x == Packed(v, 16, 2)
    ensures Step(x, 0xFFFF_0000, 0x0000_FFFF, 16, 32) == Packed(v, 32, 1)
  {
    Masks16();
    StepPacked(v, x, 16, 1, 32, 0xFFFF_0000, 0x0000_FFFF);
  }

  /** `bitcount(uint8_t)`, computed in a uint32_t. */
  method BitCount8(value: nat) returns (r: nat)
    requires value < Pow2(8)
    ensures r == Popcount(value)
  {
    PackedOnes(value, 8);
    LowOfFitting(value, 8);
    var val := value;
    Stage8For1(value, val);
    val := Step(val, 0xAA, 0x55, 1, 32);
    Stage8For2(value, val);
    val := Step(val, 0xCC, 0x33, 2, 32);
    Stage8For4(value, val);
    val := Step(val, 0xF0, 0x0F, 4, 32);
    PackedWhole(value, 8);
    r := val;
  }

  /** `bitcount(uint16_t)`, computed in a uint32_t. */
  method BitCount16(value: nat) returns (r: nat)
    requires value < Pow2(16)
    ensures r == Popcount(value)
  {
    PackedOnes(value, 16);
    LowOfFitting(value, 16);
    var val := value;
    Stage16For1(value, val);
    val := Step(val, 0xAAAA, 0x5555, 1, 32);
    Stage16For2(value, val);
    val := Step(val, 0xCCCC, 0x3333, 2, 32);
    Stage16For4(value, val);
    val := Step(val, 0xF0F0, 0x0F0F, 4, 32);
    Stage16For8(value, val);
    val := Step(val, 0xFF00, 0x00FF, 8, 32);
    PackedWhole(value, 16);
    r := val;
  }

  /** `bitcount(uint32_t)`. */
  method BitCount32(value: nat) returns (r: nat)
    requires value < Pow2(32)
    ensures r == Popcount(value)
  {
    PackedOnes(value, 32);
    LowOfFitting(value, 32);
    var val := value;
    Stage32For1(value, val);
    val := Step(val, 0xAAAA_AAAA, 0x5555_5555, 1, 32);
    Stage32For2(value, val);
    val := Step(val, 0xCCCC_CCCC, 0x3333_3333, 2, 32);
    Stage32For4(value, val);
    val := Step(val, 0xF0F0_F0F0, 0x0F0F_0F0F, 4, 32);
    Stage32For8(value, val);
    val := Step(val, 0xFF00_FF00, 0x00FF_00FF, 8, 32);
    Stage32For16(value, val);
    val := Step(val, 0xFFFF_0000, 0x0000_FFFF, 16, 32);
    PackedWhole(value, 32);
    r := val;
  }

  /** `bitcount(uint64_t)`. */
  method BitCount64(value: nat) returns (r: nat)
    requires value < Pow2(64)
    ensures r == Popcount(value)
  {
    PackedOnes(value, 64);
    LowOfFitting(value, 64);
    var val := value;
    Stage64For1(value, val);
    val := Step(val, 0xAAAA_AAAA_AAAA_AAAA, 0x5555_5555_5555_5555, 1, 64);
    Stage64For2(value, val);
    val := Step(val, 0xCCCC_CCCC_CCCC_CCCC, 0x3333_3333_3333_3333, 2, 64);
    Stage64For4(value, val);
    val := Step(val, 0xF0F0_F0F0_F0F0_F0F0, 0x0F0F_0F0F_0F0F_0F0F, 4, 64);
    Stage64For8(value, val);
    val := Step(val, 0xFF00_FF00_FF00_FF00, 0x00FF_00FF_00FF_00FF, 8, 64);
    Stage64For16(value, val);
    val := Step(val, 0xFFFF_0000_FFFF_0000, 0x0000_FFFF_0000_FFFF, 16, 64);
    Stage64For32(value, val);
    val := Step(val, 0xFFFF_FFFF_0000_0000, 0x0000_0000_FFFF_FFFF, 32, 64);
    PackedWhole(value, 64);
    r := val;
  }
}
