/** `ez::intern::EnumTraits`: the constants derived from the enumeration a
    `BitFlags` is instantiated with (`All`, `None`, `Last`) and the numeric
    parts of the compile-time checks made on it. The enumeration is described
    by the values of its special enumerators, not by its members' names. */
module Traits {
  import opened Bits
  import opened Swar

  datatype Option<T> = None | Some(value: T)

  /** What an enumeration tells `EnumTraits`: the width of its underlying
      integer type and whether that type is signed, the value of `_Count`,
      and the values of `_All` and `_None` when the enumeration declares them. */
  datatype EnumDecl = EnumDecl(
    width: nat,
    signed: bool,
    count: int,
    explicitAll: Option<int>,
    explicitNone: Option<int>)

  /** x is a value of the enumeration's underlying type. */
  predicate Representable(d: EnumDecl, x: int) {
    if d.signed then -(Pow2(d.width) / 2) <= x < Pow2(d.width) / 2
    else 0 <= x < Pow2(d.width)
  }

  /** What the C++ type system already guarantees about an enumeration: an
      underlying integer type of 8, 16, 32 or 64 bits holding every enumerator. */
  predicate WellFormed(d: EnumDecl) {
    && (d.width == 8 || d.width == 16 || d.width == 32 || d.width == 64)
    && Representable(d, d.count)
    && (d.explicitAll.Some? ==> Representable(d, d.explicitAll.value))
    && (d.explicitNone.Some? ==> Representable(d, d.explicitNone.value))
  }

  /** The width in which `~utype(1)` is evaluated: operands narrower than
      `int` are promoted to the 32-bit `int` first. */
  function PromotedWidth(w: nat): (r: nat)
    ensures r >= 32 && r >= w
  {
    if w < 32 then 32 else w
  }

  /** The default `All` shifts by `_Count - 1`; that shift is defined only for
      an amount in [0, PromotedWidth). */
  predicate AllDefined(d: EnumDecl) {
    d.explicitAll.Some? || 1 <= d.count <= PromotedWidth(d.width)
  }

  /** The default `all_value`: `~((~utype(1)) << (_Count - 1))`, computed in
      the promoted width p with C++20's modular left shift and truncated to
      the w bits of `utype`; it is the low min(c, w) bits. */
  function DefaultAll(c: nat, w: nat): (r: nat)
    requires 1 <= c <= PromotedWidth(w)
    ensures r < Pow2(w)
    ensures c <= w ==> r == Pow2(c) - 1
    ensures c > w ==> r == Pow2(w) - 1
  {
    var p := PromotedWidth(w);
    var r := Low(NotW(ShlW(NotW(1, p), c - 1, p), p), w);
    DefaultAllOnes(c, p, w, if c <= w then c else w, r);
    r
  }

  /** `all_value<Enum>::value`: the explicit `_All` cast to `utype`, or else
      the default, written here by its value, the low min(`_Count`, W) bits
      (`AllValueIsDefault` equates it with the shift expression). */
  function AllValue(d: EnumDecl): (r: nat)
    requires AllDefined(d)
    ensures r < Pow2(d.width)
    ensures d.explicitAll.None? && d.count <= d.width ==> r == Pow2(d.count) - 1
  {
    match d.explicitAll
    case Some(a) => ToUnsigned(a, d.width)
    case None =>
      if d.count <= d.width then Pow2Monotone(d.count, d.width); Pow2(d.count) - 1
      else Pow2(d.width) - 1
  }

  /** Without `_All`, `All` is the value `~((~utype(1)) << (_Count - 1))`
      takes. */
  lemma AllValueIsDefault(d: EnumDecl)
    requires AllDefined(d) && d.explicitAll.None?
    ensures AllValue(d) == DefaultAll(d.count, d.width)
  {
  }

  /** `none_value<Enum>::value`: the explicit `_None` cast to `utype`, or else 0. */
  function NoneValue(d: EnumDecl): (r: nat)
    ensures r < Pow2(d.width)
    ensures d.explicitNone.None? ==> r == 0
  {
    match d.explicitNone
    case Some(n) => ToUnsigned(n, d.width)
    case None => 0
  }

  /** `EnumTraits::Last`: the bit length of `All`. */
  function Last(d: EnumDecl): (r: nat)
    requires AllDefined(d)
    ensures r <= d.width
    ensures forall j: nat :: j >= r ==> !Bit(AllValue(d), j)
  {
    LastSetAtMost(AllValue(d), d.width);
    LastSetBits(AllValue(d));
    LastSet(AllValue(d))
  }

  /** `_Count` cast to `utype`, as the two numeric static assertions compare it. */
  function CountAsUtype(d: EnumDecl): nat {
    ToUnsigned(d.count, d.width)
  }

  /** The numeric checks of `EnumTraits`, as the static assertions state
      them: `_Count` as a `utype` is at most 64 and equals `const_bitcount(All)`.
      When they hold, the cast has lost nothing: a negative `_Count` would
      wrap to at least 2^(W-1), which is more than 64. */
  predicate ChecksPass(d: EnumDecl): (r: bool)
    ensures r ==> 0 <= d.count == CountAsUtype(d) <= 64
    ensures r ==> AllDefined(d) && d.count == Popcount(AllValue(d))
  {
    CountCast(d);
    && WellFormed(d)
    && AllDefined(d)
    && CountAsUtype(d) <= 64
    && (Pow2Monotone(d.width, 64);
        CountAsUtype(d) == ConstBitcount(AllValue(d)))
  }

  /** An enumeration `BitFlags` can be instantiated with: the checks read as
      "`_Count` is a number of at most 64 equal to the number of bits set in
      `All`" (`ChecksPassIffAccepted`). Then `_Count` is at most W. */
  predicate Accepted(d: EnumDecl): (r: bool)
    ensures r ==> 0 <= d.count <= d.width
  {
    AllBitsFit(d);
    && WellFormed(d)
    && AllDefined(d)
    && 0 <= d.count <= 64
    && d.count == Popcount(AllValue(d))
  }

  /** `All` has at most W bits set. */
  lemma AllBitsFit(d: EnumDecl)
    ensures AllDefined(d) ==> Popcount(AllValue(d)) <= d.width
  {
    if AllDefined(d) {
      PopcountLow(AllValue(d), d.width);
      LowOfFitting(AllValue(d), d.width);
    }
  }

  /** `_Count` cast to `utype`: itself when it is not negative, and otherwise
      wrapped to a value above 64. */
  lemma CountCast(d: EnumDecl)
    ensures WellFormed(d) && d.count >= 0 ==> CountAsUtype(d) == d.count
    ensures WellFormed(d) && d.count < 0 ==> CountAsUtype(d) > 64
  {
    if WellFormed(d) {
      Pow2Values();
      ToUnsignedInRange(d.count, d.width);
    }
  }

  // ---------------------------------------------------------------------
  // Properties of the derived constants

  /** `~((~1) << (c - 1))` in p bits, truncated to w bits, is the low min(c, w) bits. */
  lemma DefaultAllOnes(c: nat, p: nat, w: nat, m: nat, r: nat)
    requires 1 <= c <= p && m == (if c <= w then c else w)
    requires r == Low(NotW(ShlW(NotW(1, p), c - 1, p), p), w)
    ensures r == Pow2(m) - 1
  {
    OnesBits(1, 1);
    forall k: nat ensures Bit(r, k) <==> k < m {
      if k < w && k < p && c - 1 <= k {
        assert Bit(ShlW(NotW(1, p), c - 1, p), k) <==> Bit(NotW(1, p), k - (c - 1));
      }
    }
    OnesFromBits(r, m);
  }

  /** With neither `_All` nor a `_Count` above the type's width, the popcount
      check holds by construction, for every `_Count` in [1, W]. */
  lemma DefaultAllPassesChecks(d: EnumDecl)
    requires WellFormed(d) && d.explicitAll.None? && 1 <= d.count <= d.width
    ensures Accepted(d)
    ensures AllValue(d) == Pow2(d.count) - 1 && Last(d) == d.count
  {
    assert Popcount(AllValue(d)) == d.count by { PopcountOnes(d.count); }
    assert Last(d) == d.count by { LastSetOfOnes(d.count); }
  }

  /** The bit length of 2^c - 1 is c. */
  lemma {:induction false} LastSetOfOnes(c: nat)
    ensures LastSet(Pow2(c) - 1) == c
  {
    if c > 0 {
      LastSetOfOnes(c - 1);
      assert (Pow2(c) - 1) / 2 == Pow2(c - 1) - 1;
    }
  }

  /** `const_bitcount` in the check may be read as the set-bit count: the
      checks hold exactly when `_Count` is a non-negative number of at most
      64 equal to the number of bits of `All`. */
  lemma ChecksPassIffAccepted(d: EnumDecl)
    ensures ChecksPass(d) <==> Accepted(d)
  {
    CountCast(d);
  }

  /** For a valid enumeration, `_Count` is at most `Last`, which is at most W. */
  lemma AcceptedCountBounds(d: EnumDecl)
    requires Accepted(d)
    ensures 0 <= d.count <= Last(d) <= d.width
    ensures d.count == Popcount(AllValue(d))
  {
    PopcountAtMostLastSet(AllValue(d));
  }

  // ---------------------------------------------------------------------
  // The test enumerations

  /** `Test` and `foo::Bar`: four members Zero..Three and `_Count` 4, no
      `_All`; the underlying type is left open (it is `int` in the tests). */
  predicate IsDense(d: EnumDecl) {
    WellFormed(d) && d.count == 4 && d.explicitAll.None?
  }

  /** `Sparse` with its mask declared as `_All`: members 0, 2 and 4, so
      `_Count` must be 3 and `All` is 0b10101. */
  predicate IsSparse(d: EnumDecl) {
    WellFormed(d) && d.count == 3 && d.explicitAll == Some(0x15)
  }

  /** The dense enumerations pass the checks; `All` is 0b1111 and iteration
      ends at 4. */
  lemma DenseFacts(d: EnumDecl)
    requires IsDense(d)
    ensures Accepted(d) && AllValue(d) == 0xF && Last(d) == 4
  {
    DefaultAllPassesChecks(d);
    assert Pow2(4) == 16;
  }

  /** The bit count and bit length of the sparse mask 0b10101. */
  lemma SparseMaskBits()
    ensures Popcount(0x15) == 3 && LastSet(0x15) == 5
  {
    assert Pow2(4) == 16 && Pow2(5) == 32;
    LastSetBetween(0x15, 5);
  }

  /** Any underlying type of the sparse enumeration holds the mask unchanged. */
  lemma SparseMaskValue(d: EnumDecl)
    requires (d.width == 8 || d.width == 16 || d.width == 32 || d.width == 64) && d.explicitAll == Some(0x15)
    ensures AllValue(d) == 0x15
  {
    Pow2Values();
    Pow2Monotone(8, d.width);
    ToUnsignedInRange(0x15, d.width);
  }

  /** The sparse enumeration passes the checks; `All` is 0b10101 and
      iteration ends at 5, while `max_size()` is 3. */
  lemma SparseFacts(d: EnumDecl)
    requires IsSparse(d)
    ensures Accepted(d) && AllValue(d) == 0x15 && Last(d) == 5
  {
    assert AllValue(d) == 0x15 by { SparseMaskValue(d); }
    assert Accepted(d) by { SparseMaskValue(d); SparseMaskBits(); }
    assert Last(d) == 5 by { SparseMaskValue(d); SparseMaskBits(); }
  }

  /** `Sparse` with its mask read as `_All` 0b10101 but with the implicit
      `_Count` 5 (the enumerator after Four): `All` has three bits, so the
      popcount check rejects it. */
  lemma SparseWithAllRejected(d: EnumDecl)
    requires WellFormed(d) && d.count == 5 && d.explicitAll == Some(0x15)
    ensures !ChecksPass(d)
  {
    SparseMaskValue(d);
    SparseMaskBits();
  }

  /** `Sparse` exactly as declared, with no `_All` and the implicit `_Count`
      5, passes the numeric checks with the default `All` 0b11111; only the
      check on the enumerator name `All` rejects it. */
  lemma SparseAsDeclaredPassesNumericChecks(d: EnumDecl)
    requires WellFormed(d) && d.count == 5 && d.explicitAll.None?
    ensures ChecksPass(d) && AllValue(d) == 0x1F
  {
    DefaultAllPassesChecks(d);
    ChecksPassIffAccepted(d);
    Pow2Values();
  }
}
