/** The free operators on `BitFlags` (`|`, `&`, `^`, `~` and the overloads
    that promote an enumeration member to a container), on raw values: a
    `BitFlags<Enum>` value is its `utype` word, and `fromRawValue` and
    `rawValue` convert between the two without change. */
module Algebra {
  import opened Bits
  import opened Swar
  import opened Traits

  /** `_convert`: the word of member k, `utype(1) << k`. */
  function MemberBit(d: EnumDecl, k: int): (r: nat)
    requires 0 <= k < d.width
    ensures r < Pow2(d.width)
    ensures forall j: nat :: Bit(r, j) <==> j == k
  {
    OnesBits(1, 1);
    ShlW(1, k, d.width)
  }

  /** `operator|(BitFlags, BitFlags)`. */
  function Union(d: EnumDecl, a: nat, b: nat): (r: nat)
    requires a < Pow2(d.width) && b < Pow2(d.width)
    ensures r < Pow2(d.width)
    ensures forall k: nat :: Bit(r, k) <==> Bit(a, k) || Bit(b, k)
  {
    FitsIffHighBitsClear(a, d.width);
    FitsIffHighBitsClear(b, d.width);
    FitsIffHighBitsClear(Or(a, b), d.width);
    Or(a, b)
  }

  /** `operator&(BitFlags, BitFlags)`. */
  function Intersect(d: EnumDecl, a: nat, b: nat): (r: nat)
    requires a < Pow2(d.width) && b < Pow2(d.width)
    ensures r < Pow2(d.width)
    ensures forall k: nat :: Bit(r, k) <==> Bit(a, k) && Bit(b, k)
  {
    And(a, b)
  }

  /** `operator^(BitFlags, BitFlags)`: the exclusive or, masked with `All`. */
  function SymDiff(d: EnumDecl, a: nat, b: nat): (r: nat)
    requires AllDefined(d)
    ensures SubsetBits(r, AllValue(d)) && r < Pow2(d.width)
    ensures forall k: nat :: Bit(r, k) <==> (Bit(a, k) != Bit(b, k)) && Bit(AllValue(d), k)
  {
    var r := And(Xor(a, b), AllValue(d));
    r
  }

  /** `operator~(BitFlags)`: the complement within `All`. */
  function Complement(d: EnumDecl, a: nat): (r: nat)
    requires AllDefined(d)
    ensures SubsetBits(r, AllValue(d)) && r < Pow2(d.width)
    ensures forall k: nat :: Bit(r, k) <==> !Bit(a, k) && Bit(AllValue(d), k)
  {
    FitsIffHighBitsClear(AllValue(d), d.width);
    And(NotW(a, d.width), AllValue(d))
  }

  /** `operator|(BitFlags, Enum)`: adds member k. */
  function UnionMember(d: EnumDecl, a: nat, k: int): (r: nat)
    requires a < Pow2(d.width) && 0 <= k < d.width
    ensures r < Pow2(d.width)
    ensures forall j: nat :: Bit(r, j) <==> Bit(a, j) || j == k
  {
    Union(d, a, MemberBit(d, k))
  }

  /** `operator&(BitFlags, Enum)` as written: it returns `lh | BitFlags{rh}`,
      the union, not the intersection. */
  function AndMemberAsWritten(d: EnumDecl, a: nat, k: int): (r: nat)
    requires a < Pow2(d.width) && 0 <= k < d.width
    ensures r == UnionMember(d, a, k)
    ensures forall j: nat :: Bit(r, j) <==> Bit(a, j) || j == k
  {
    UnionMember(d, a, k)
  }

  /** Anding a set with member Zero under the as-written overload yields a
      set that still holds Two: the result is a union. */
  lemma AndMemberAsWrittenIsUnion(d: EnumDecl)
    requires IsDense(d)
    ensures AndMemberAsWritten(d, 0x4, 0) == 0x5
    ensures AndMemberAsWritten(d, 0x4, 0) != Intersect(d, 0x4, MemberBit(d, 0))
  {
    Pow2Values();
    var r := AndMemberAsWritten(d, 0x4, 0);
    OnesBits(3, 7);
    assert forall j: nat :: Bit(r, j) <==> Bit(5, j) by {
      forall j: nat ensures Bit(r, j) <==> Bit(5, j) {
        Bit4And5(j);
      }
    }
    BitsEqual(r, 5);
    assert Bit(r, 2);
    assert !Bit(Intersect(d, 0x4, MemberBit(d, 0)), 2);
  }

  /** The bits of 4 and of 5. */
  lemma Bit4And5(j: nat)
    ensures Bit(4, j) <==> j == 2
    ensures Bit(5, j) <==> j == 0 || j == 2
  {
    if j >= 3 {
      assert Bit(4, j) == Bit(2, j - 1) == Bit(5, j);
      assert Bit(2, j - 1) == Bit(1, j - 2) == Bit(0, j - 3);
      ZeroBit(j - 3);
    }
  }

  /** `operator&(BitFlags, Enum)` as evidently intended: the members of a
      that are k. */
  function AndMember(d: EnumDecl, a: nat, k: int): (r: nat)
    requires a < Pow2(d.width) && 0 <= k < d.width
    ensures r < Pow2(d.width)
    ensures forall j: nat :: Bit(r, j) <==> Bit(a, j) && j == k
  {
    Intersect(d, a, MemberBit(d, k))
  }

  /** `operator^(BitFlags, Enum)`: toggles member k, masked with `All`. */
  function SymDiffMember(d: EnumDecl, a: nat, k: int): (r: nat)
    requires AllDefined(d) && 0 <= k < d.width
    ensures SubsetBits(r, AllValue(d))
    ensures forall j: nat :: Bit(r, j) <==> (Bit(a, j) != (j == k)) && Bit(AllValue(d), j)
  {
    SymDiff(d, a, MemberBit(d, k))
  }

  /** `operator|(Enum, Enum)`, enabled by `_EnableOperators`. */
  function MemberUnion(d: EnumDecl, j: int, k: int): (r: nat)
    requires 0 <= j < d.width && 0 <= k < d.width
    ensures r < Pow2(d.width)
    ensures forall i: nat :: Bit(r, i) <==> i == j || i == k
  {
    Union(d, MemberBit(d, j), MemberBit(d, k))
  }

  /** `operator&(Enum, Enum)`: member j when j == k, empty otherwise. */
  function MemberIntersect(d: EnumDecl, j: int, k: int): (r: nat)
    requires 0 <= j < d.width && 0 <= k < d.width
    ensures r == 0 <==> j != k
    ensures forall i: nat :: Bit(r, i) <==> i == j && j == k
  {
    var r := Intersect(d, MemberBit(d, j), MemberBit(d, k));
    ZeroBits();
    LastSetBits(r);
    assert j == k ==> Bit(r, j);
    r
  }

  /** `operator^(Enum, Enum)`. */
  function MemberSymDiff(d: EnumDecl, j: int, k: int): (r: nat)
    requires AllDefined(d) && 0 <= j < d.width && 0 <= k < d.width
    ensures forall i: nat :: Bit(r, i) <==> ((i == j) != (i == k)) && Bit(AllValue(d), i)
  {
    SymDiff(d, MemberBit(d, j), MemberBit(d, k))
  }

  /** `operator~(Enum)`: every member of `All` except k. */
  function MemberComplement(d: EnumDecl, k: int): (r: nat)
    requires AllDefined(d) && 0 <= k < d.width
    ensures forall i: nat :: Bit(r, i) <==> i != k && Bit(AllValue(d), i)
  {
    Complement(d, MemberBit(d, k))
  }

  // ---------------------------------------------------------------------
  // Laws of the set algebra

  /** Complementing twice gives back any value inside `All`. */
  lemma ComplementInvolutive(d: EnumDecl, a: nat)
    requires AllDefined(d) && SubsetBits(a, AllValue(d))
    ensures Complement(d, Complement(d, a)) == a
  {
    var c := Complement(d, Complement(d, a));
    assert forall k: nat :: Bit(c, k) == Bit(a, k) by {
      forall k: nat ensures Bit(c, k) == Bit(a, k) {
        assert Bit(c, k) <==> !Bit(Complement(d, a), k) && Bit(AllValue(d), k);
      }
    }
    BitsEqual(c, a);
  }

  /** De Morgan within `All`: the complement of a union is the intersection
      of the complements. */
  lemma ComplementOfUnion(d: EnumDecl, a: nat, b: nat)
    requires AllDefined(d) && a < Pow2(d.width) && b < Pow2(d.width)
    ensures Complement(d, Union(d, a, b)) == Intersect(d, Complement(d, a), Complement(d, b))
  {
    var l := Complement(d, Union(d, a, b));
    var r := Intersect(d, Complement(d, a), Complement(d, b));
    assert forall k: nat :: Bit(l, k) == Bit(r, k) by {
      forall k: nat ensures Bit(l, k) == Bit(r, k) {
        assert Bit(Union(d, a, b), k) <==> Bit(a, k) || Bit(b, k);
        assert Bit(Complement(d, a), k) <==> !Bit(a, k) && Bit(AllValue(d), k);
        assert Bit(Complement(d, b), k) <==> !Bit(b, k) && Bit(AllValue(d), k);
      }
    }
    BitsEqual(l, r);
  }

  /** A value and its complement split `All`: their union is `All` for a
      value inside it, and they share no bit. */
  lemma ComplementPartitionsAll(d: EnumDecl, a: nat)
    requires AllDefined(d) && a < Pow2(d.width) && SubsetBits(a, AllValue(d))
    ensures Union(d, a, Complement(d, a)) == AllValue(d)
    ensures Intersect(d, a, Complement(d, a)) == 0
  {
    var u := Union(d, a, Complement(d, a));
    var i := Intersect(d, a, Complement(d, a));
    ZeroBits();
    assert forall k: nat :: Bit(u, k) == Bit(AllValue(d), k) by {
      forall k: nat ensures Bit(u, k) == Bit(AllValue(d), k) {
        assert Bit(Complement(d, a), k) <==> !Bit(a, k) && Bit(AllValue(d), k);
      }
    }
    BitsEqual(u, AllValue(d));
    assert forall k: nat :: Bit(i, k) == Bit(0, k) by {
      forall k: nat ensures Bit(i, k) == Bit(0, k) {
        assert Bit(Complement(d, a), k) <==> !Bit(a, k) && Bit(AllValue(d), k);
      }
    }
    BitsEqual(i, 0);
  }

  /** Union and intersection are idempotent and commutative. */
  lemma UnionIntersectLaws(d: EnumDecl, a: nat, b: nat)
    requires a < Pow2(d.width) && b < Pow2(d.width)
    ensures Union(d, a, a) == a && Intersect(d, a, a) == a
    ensures Union(d, a, b) == Union(d, b, a) && Intersect(d, a, b) == Intersect(d, b, a)
  {
    BitsEqual(Union(d, a, a), a);
    BitsEqual(Intersect(d, a, a), a);
    BitsEqual(Union(d, a, b), Union(d, b, a));
    BitsEqual(Intersect(d, a, b), Intersect(d, b, a));
  }

  /** Exclusive or with itself empties a set; within `All` it is an involution. */
  lemma SymDiffLaws(d: EnumDecl, a: nat, b: nat)
    requires AllDefined(d) && SubsetBits(a, AllValue(d))
    ensures SymDiff(d, a, a) == 0
    ensures SymDiff(d, SymDiff(d, a, b), b) == a
  {
    ZeroBits();
    var z := SymDiff(d, a, a);
    BitsEqual(z, 0);
    var t := SymDiff(d, SymDiff(d, a, b), b);
    assert forall k: nat :: Bit(t, k) == Bit(a, k) by {
      forall k: nat ensures Bit(t, k) == Bit(a, k) {
        assert Bit(SymDiff(d, a, b), k) <==> (Bit(a, k) != Bit(b, k)) && Bit(AllValue(d), k);
      }
    }
    BitsEqual(t, a);
  }

  // ---------------------------------------------------------------------
  // The sparse test enumeration

  /** `Sparse::Two | Sparse::Four` is the word 0b10100, and its complement
      within the mask 0b10101 is the word 1, member Zero. */
  lemma SparseUnionAndComplement(d: EnumDecl)
    requires IsSparse(d)
    ensures MemberUnion(d, 2, 4) == 0x14
    ensures Complement(d, MemberUnion(d, 2, 4)) == 1
  {
    SparseFacts(d);
    var u := MemberUnion(d, 2, 4);
    assert forall j: nat :: Bit(u, j) == Bit(0x14, j) by {
      forall j: nat ensures Bit(u, j) == Bit(0x14, j) {
        SparseWordBits(j);
      }
    }
    BitsEqual(u, 0x14);
    var c := Complement(d, u);
    assert forall j: nat :: Bit(c, j) == Bit(1, j) by {
      forall j: nat ensures Bit(c, j) == Bit(1, j) {
        SparseWordBits(j);
        assert Bit(c, j) <==> !Bit(0x14, j) && Bit(0x15, j);
      }
    }
    BitsEqual(c, 1);
  }

  /** The bits of the words 1, 0b10100 and 0b10101. */
  lemma SparseWordBits(j: nat)
    ensures Bit(1, j) <==> j == 0
    ensures Bit(0x14, j) <==> j == 2 || j == 4
    ensures Bit(0x15, j) <==> j == 0 || j == 2 || j == 4
  {
    if j >= 5 {
      assert Bit(0x14, j) == Bit(0xA, j - 1) == Bit(5, j - 2) == Bit(2, j - 3) == Bit(1, j - 4) == Bit(0, j - 5);
      assert Bit(0x15, j) == Bit(0xA, j - 1);
      assert Bit(1, j) == Bit(0, j - 1);
      ZeroBit(j - 5);
      ZeroBit(j - 1);
    } else {
      assert !Bit(0x14, 0) && !Bit(0x14, 1) && Bit(0x14, 2) && !Bit(0x14, 3) && Bit(0x14, 4);
      assert Bit(0x15, 0) && !Bit(0x15, 1) && Bit(0x15, 2) && !Bit(0x15, 3) && Bit(0x15, 4);
      if j >= 1 {
        assert Bit(1, j) == Bit(0, j - 1);
        ZeroBit(j - 1);
      }
    }
  }
}
