/** `ez::BitFlags<Enum>` and its `const_iterator`. A container stores one
    `utype` word, bit k standing for member k; the iterator holds the
    container it walks and an `int` index in [-1, Last]. */
module Flags {
  import opened Bits
  import opened Swar
  import opened Traits
  import opened Algebra

  // ---------------------------------------------------------------------
  // What the iterator loops compute

  /** Where `++` stops when it resumes its search at i: the first set bit of
      v in [i, last), else last; an index already at or past last stays. */
  function Scan(v: nat, i: int, last: nat): (r: int)
    requires i >= 0
    ensures i >= last ==> r == i
    ensures i < last ==> i <= r <= last
    ensures r >= i && (r < last ==> Bit(v, r))
    ensures forall j: nat :: i <= j < r && j < last ==> !Bit(v, j)
    decreases last - i
  {
    if i >= last then i
    else if Bit(v, i) then i
    else Scan(v, i + 1, last)
  }

  /** Where `--` stops when it resumes its search at i: the last set bit of
      v in [0, i], else -1; an index already at or below -1 stays. */
  function ScanDown(v: nat, i: int): (r: int)
    ensures i <= -1 ==> r == i
    ensures i > -1 ==> -1 <= r <= i
    ensures r > -1 ==> Bit(v, r)
    ensures forall j: nat :: r < j <= i ==> !Bit(v, j)
    decreases if i <= -1 then 0 else i + 1
  {
    if i <= -1 then i
    else if Bit(v, i) then i
    else ScanDown(v, i - 1)
  }

  /** The set bits of v in [lo, last), ascending (`MembersAreSetBits`). */
  function Members(v: nat, lo: nat, last: nat): seq<nat>
    decreases last - lo
  {
    if lo >= last then []
    else (if Bit(v, lo) then [lo] else []) + Members(v, lo + 1, last)
  }

  /** Members lists exactly the set bits of v in [lo, last), each once, in
      strictly ascending order. */
  lemma {:induction false} MembersAreSetBits(v: nat, lo: nat, last: nat)
    ensures forall x :: x in Members(v, lo, last) <==> lo <= x < last && Bit(v, x)
    ensures forall a, b :: 0 <= a < b < |Members(v, lo, last)| ==> Members(v, lo, last)[a] < Members(v, lo, last)[b]
    ensures forall a :: 0 <= a < |Members(v, lo, last)| ==> lo <= Members(v, lo, last)[a] < last
    decreases last - lo
  {
    if lo < last {
      MembersAreSetBits(v, lo + 1, last);
      var rest := Members(v, lo + 1, last);
      if Bit(v, lo) {
        var s := [lo] + rest;
        assert Members(v, lo, last) == s;
        forall a | 0 < a < |s| ensures s[a] == rest[a - 1] && lo < s[a] {
        }
      } else {
        assert Members(v, lo, last) == rest;
      }
    }
  }

  /** The indices an iterator standing at i designates before it reaches
      last, advancing with `++`. */
  function Walk(v: nat, i: nat, last: nat): seq<nat>
    decreases last - i
  {
    if i >= last then []
    else
      var next := Scan(v, i + 1, last);
      [i] + Walk(v, next, last)
  }

  /** `a - b` computed in the 64-bit `size_t`. */
  function SizeDiff(a: int, b: int): (r: nat)
    ensures r < Pow2(64)
    ensures 0 <= a - b < Pow2(64) ==> r == a - b
    ensures 0 <= a - b + Pow2(64) && a - b < 0 ==> r == a - b + Pow2(64)
  {
    if 0 <= a - b + Pow2(64) && a - b < Pow2(64) then ToUnsignedInRange(a - b, 64); ToUnsigned(a - b, 64)
    else ToUnsigned(a - b, 64)
  }

  /** For a word inside `All`, `_Count - size()` counts the members not set. */
  lemma UnsetInsideAll(d: EnumDecl, v: nat)
    requires Accepted(d) && SubsetBits(v, AllValue(d))
    ensures SizeDiff(d.count, Popcount(v)) + Popcount(v) == d.count
  {
    AcceptedCountBounds(d);
    PopcountSubset(v, AllValue(d));
    Pow2Values();
  }

  /** Anding with the word of member k leaves a non-zero value exactly when
      bit k is set. */
  lemma AndMemberIffBit(d: EnumDecl, v: nat, k: int)
    requires 0 <= k < d.width
    ensures And(v, MemberBit(d, k)) != 0 <==> Bit(v, k)
  {
    ZeroBits();
    LastSetBits(And(v, MemberBit(d, k)));
    assert Bit(v, k) ==> Bit(And(v, MemberBit(d, k)), k);
  }

  /** From where `++` first stops at or after i, the walk visits exactly the
      set bits in [i, last), in ascending order. */
  lemma {:induction false} WalkIsMembers(v: nat, i: nat, last: nat)
    requires i <= last
    ensures Scan(v, i, last) >= 0
    ensures Walk(v, Scan(v, i, last), last) == Members(v, i, last)
    decreases last - i
  {
    if i < last {
      WalkIsMembers(v, i + 1, last);
      if Bit(v, i) {
        assert Scan(v, i, last) == i;
        assert Walk(v, i, last) == [i] + Walk(v, Scan(v, i + 1, last), last);
        assert Members(v, i, last) == [i] + Members(v, i + 1, last);
      } else {
        assert Scan(v, i, last) == Scan(v, i + 1, last);
        assert Members(v, i, last) == [] + Members(v, i + 1, last);
      }
    }
  }

  // ---------------------------------------------------------------------
  // The container

  class BitFlags {
    /** The enumeration the container is instantiated with. */
    const decl: EnumDecl
    /** The word of set members. */
    var value: nat

    /** The class invariant: the trait checks passed and the word is a `utype`. */
    ghost predicate Valid()
      reads this
    {
      Accepted(decl) && value < Pow2(decl.width)
    }

    /** `BitFlags()`: the `None` value. */
    constructor (d: EnumDecl)
      requires Accepted(d)
      ensures Valid() && decl == d && value == NoneValue(d)
    {
      decl := d;
      value := NoneValue(d);
    }

    /** `BitFlags(none_t)`. */
    constructor OfNone(d: EnumDecl)
      requires Accepted(d)
      ensures Valid() && decl == d && value == NoneValue(d)
    {
      decl := d;
      value := NoneValue(d);
    }

    /** `BitFlags(all_t)`. */
    constructor OfAll(d: EnumDecl)
      requires Accepted(d)
      ensures Valid() && decl == d && value == AllValue(d)
    {
      decl := d;
      value := AllValue(d);
    }

    /** `BitFlags(const Enum&)`: the single member k. */
    constructor OfMember(d: EnumDecl, k: int)
      requires Accepted(d) && 0 <= k < d.width
      ensures Valid() && decl == d && value == MemberBit(d, k)
    {
      decl := d;
      value := MemberBit(d, k);
    }

    /** The copy constructor. */
    constructor Copy(other: BitFlags)
      requires other.Valid()
      ensures Valid() && decl == other.decl && value == other.value
    {
      decl := other.decl;
      value := other.value;
    }

    /** `fromRawValue`: default-constructs, then stores the word as given. */
    static method FromRawValue(d: EnumDecl, v: nat) returns (flags: BitFlags)
      requires Accepted(d) && v < Pow2(d.width)
      ensures fresh(flags) && flags.Valid() && flags.decl == d && flags.value == v
    {
      flags := new BitFlags(d);
      flags.value := v;
    }

    /** `operator=(const Enum&)`. */
    method AssignMember(k: int)
      requires Valid() && 0 <= k < decl.width
      modifies this
      ensures Valid() && value == MemberBit(decl, k)
    {
      value := MemberBit(decl, k);
    }

    /** The copy assignment. */
    method Assign(other: BitFlags)
      requires Valid() && other.Valid() && other.decl == decl
      modifies this
      ensures Valid() && value == old(other.value)
    {
      value := other.value;
    }

    /** `clear()`: no member is left. */
    method Clear()
      requires Valid()
      modifies this
      ensures Valid() && value == 0 && Empty()
    {
      value := 0;
      ZeroBits();
    }

    /** `empty()`: no member is set. */
    function Empty(): (r: bool)
      requires Valid()
      reads this
      ensures r <==> forall k: nat :: k < decl.width ==> !Bit(value, k)
    {
      ZeroIffNoBits(value, decl.width);
      value == 0
    }

    /** `rawValue()`: the stored word, a `utype`. */
    function RawValue(): (r: nat)
      requires Valid()
      reads this
      ensures r == value && r < Pow2(decl.width)
    {
      value
    }

    /** `size()`: `bitcount` of the word, through the overload for the width
      of `utype`. */
    method Size() returns (n: nat)
      requires Valid()
      ensures n == Popcount(value)
    {
      Pow2Values();
      if decl.width == 8 {
        n := BitCount8(value);
      } else if decl.width == 16 {
        n := BitCount16(value);
      } else if decl.width == 32 {
        n := BitCount32(value);
      } else {
        n := BitCount64(value);
      }
    }

    /** `max_size()`: `_Count` as a `size_t`. */
    function MaxSize(): (r: nat)
      requires Valid()
      reads this
      ensures r == decl.count
    {
      AcceptedCountBounds(decl);
      Pow2Values();
      ToUnsignedInRange(decl.count, 64);
      ToUnsigned(decl.count, 64)
    }

    /** `numSet()`. */
    method NumSet() returns (n: nat)
      requires Valid()
      ensures n == Popcount(value)
    {
      n := Size();
    }

    /** `numUnset()`: `max_size() - size()` in `size_t`, which wraps when
      `size()` exceeds `max_size()` (only a word with bits outside `All` can
      have that); for a word inside `All` it is the number of members of
      `All` not set. */
    method NumUnset() returns (n: nat)
      requires Valid()
      ensures n == SizeDiff(decl.count, Popcount(value))
      ensures SubsetBits(value, AllValue(decl)) ==> n + Popcount(value) == MaxSize() && n <= MaxSize()
    {
      var size := Size();
      var max := MaxSize();
      n := SizeDiff(max, size);
      if SubsetBits(value, AllValue(decl)) {
        UnsetInsideAll(decl, value);
      }
    }

    /** `set(val)`: `*this |= val`. */
    method Set(other: BitFlags)
      requires Valid() && other.Valid() && other.decl == decl
      modifies this
      ensures Valid() && value == Union(decl, old(value), old(other.value))
    {
      UnionWith(other);
    }

    /** `unset(val)`: `*this &= ~val`. */
    method Unset(other: BitFlags)
      requires Valid() && other.Valid() && other.decl == decl
      modifies this
      ensures Valid()
      ensures value == Intersect(decl, old(value), Complement(decl, old(other.value)))
    {
      var inverse := FromRawValue(decl, Complement(decl, other.value));
      IntersectWith(inverse);
    }

    /** `contains(val)`: member k is set. */
    function Contains(k: int): (r: bool)
      requires Valid() && 0 <= k < decl.width
      reads this
      ensures r <==> Bit(value, k)
    {
      AndMemberIffBit(decl, value, k);
      And(value, MemberBit(decl, k)) != 0
    }

    /** `allOf(other)`: every member of other is set here. */
    function AllOf(other: BitFlags): (r: bool)
      requires Valid() && other.Valid() && other.decl == decl
      reads this, other
      ensures r <==> SubsetBits(other.value, value)
    {
      AndIsRightIff(value, other.value);
      And(value, other.value) == other.value
    }

    /** `noneOf(other)`: no member of other is set here. */
    function NoneOf(other: BitFlags): (r: bool)
      requires Valid() && other.Valid() && other.decl == decl
      reads this, other
      ensures r <==> Disjoint(value, other.value)
    {
      AndIsZeroIff(value, other.value);
      And(value, other.value) == 0
    }

    /** `anyOf(other)`: some member of other is set here. */
    function AnyOf(other: BitFlags): (r: bool)
      requires Valid() && other.Valid() && other.decl == decl
      reads this, other
      ensures r == !NoneOf(other)
      ensures r <==> !Disjoint(value, other.value)
    {
      AndIsZeroIff(value, other.value);
      And(value, other.value) != 0
    }

    /** `operator|=`. */
    method UnionWith(other: BitFlags)
      requires Valid() && other.Valid() && other.decl == decl
      modifies this
      ensures Valid() && value == Union(decl, old(value), old(other.value))
    {
      value := Union(decl, value, other.value);
    }

    /** `operator&=`. */
    method IntersectWith(other: BitFlags)
      requires Valid() && other.Valid() && other.decl == decl
      modifies this
      ensures Valid() && value == Intersect(decl, old(value), old(other.value))
    {
      value := Intersect(decl, value, other.value);
    }

    /** `operator^=`: exclusive or, then the mask. The mask named in the
      source does not exist in `EnumTraits`; `All` is used, as the free
      `operator^` does. */
    method SymmetricDifferenceWith(other: BitFlags)
      requires Valid() && other.Valid() && other.decl == decl
      modifies this
      ensures Valid() && value == SymDiff(decl, old(value), old(other.value))
    {
      value := Xor(value, other.value);
      value := And(value, AllValue(decl));
    }

    /** `operator==`. */
    function Equals(other: BitFlags): (r: bool)
      requires Valid() && other.Valid() && other.decl == decl
      reads this, other
      ensures r <==> forall k: nat :: Bit(value, k) == Bit(other.value, k)
    {
      if value == other.value then true
      else (BitsEqualContra(value, other.value); false)
    }

    /** `operator!=`. */
    function NotEquals(other: BitFlags): (r: bool)
      requires Valid() && other.Valid() && other.decl == decl
      reads this, other
      ensures r == !Equals(other)
      ensures r <==> exists k: nat :: Bit(value, k) != Bit(other.value, k)
    {
      if value != other.value then (BitsEqualContra(value, other.value); true)
      else false
    }

    /** `begin()`: an iterator at -1, advanced once to the first set member. */
    method Begin() returns (it: ConstIterator)
      requires Valid()
      ensures fresh(it) && it.source == this
      ensures it.index == Scan(value, 0, Last(decl))
    {
      it := new ConstIterator(this, -1);
      it.Increment();
    }

    /** `end()`: an iterator at `Last`. */
    method End() returns (it: ConstIterator)
      requires Valid()
      ensures fresh(it) && it.source == this && it.index == Last(decl)
    {
      it := new ConstIterator(this, Last(decl));
    }

    /** `front()`: `*begin()`, the lowest set member. */
    method Front() returns (k: int)
      requires Valid() && !Empty()
      ensures k == Scan(value, 0, Last(decl))
      ensures SubsetBits(value, AllValue(decl)) ==>
        0 <= k < Last(decl) && Bit(value, k) && forall j: nat :: j < k ==> !Bit(value, j)
    {
      var it := Begin();
      k := it.index;
      if SubsetBits(value, AllValue(decl)) {
        HasBitBelowLast(this);
      }
    }

    /** `back()`: `*(--end())`, the highest set member. */
    method Back() returns (k: int)
      requires Valid() && !Empty()
      ensures k == ScanDown(value, Last(decl) - 1)
      ensures SubsetBits(value, AllValue(decl)) ==>
        0 <= k < Last(decl) && Bit(value, k) && forall j: nat :: j > k ==> !Bit(value, j)
    {
      var it := End();
      it.Decrement();
      k := it.index;
      if SubsetBits(value, AllValue(decl)) {
        HasBitBelowLast(this);
      }
    }
  }

  /** Different words differ in some bit. */
  lemma BitsEqualContra(a: nat, b: nat)
    requires a != b
    ensures exists k: nat :: Bit(a, k) != Bit(b, k)
  {
    if forall k: nat :: Bit(a, k) == Bit(b, k) {
      BitsEqual(a, b);
    }
  }

  /** A non-empty word inside `All` has a set bit below `Last`, and none at
      or above it. */
  lemma HasBitBelowLast(f: BitFlags)
    requires f.Valid() && f.value != 0 && SubsetBits(f.value, AllValue(f.decl))
    ensures Bit(f.value, LastSet(f.value) - 1) && LastSet(f.value) - 1 < Last(f.decl)
    ensures forall j: nat :: j >= Last(f.decl) ==> !Bit(f.value, j)
  {
    LastSetBits(f.value);
  }

  // ---------------------------------------------------------------------
  // The iterator

  class ConstIterator {
    /** The container walked; the iterator never changes it. */
    const source: BitFlags
    /** The member designated, -1 before the first and `Last` at the end. */
    var index: int

    /** `const_iterator(source, index)`. */
    constructor (s: BitFlags, i: int)
      ensures source == s && index == i
    {
      source := s;
      index := i;
    }

    /** The copy constructor. */
    constructor Copy(other: ConstIterator)
      ensures source == other.source && index == other.index
    {
      source := other.source;
      index := other.index;
    }

    /** `operator==`: compares the indices only, not the containers. */
    function Equals(other: ConstIterator): (r: bool)
      reads this, other
      ensures r <==> index == other.index
    {
      index == other.index
    }

    /** `operator!=`. */
    function NotEquals(other: ConstIterator): (r: bool)
      reads this, other
      ensures r <==> index != other.index
    {
      index != other.index
    }

    /** Prefix `operator++`: one step up, then up past unset members until
      `Last`. */
    method Increment()
      requires source.Valid() && index >= -1
      modifies this
      ensures index == Scan(source.value, old(index) + 1, Last(source.decl))
    {
      var last := Last(source.decl);
      index := index + 1;
      while index < last && !source.Contains(index)
        invariant old(index) + 1 <= index
        invariant Scan(source.value, index, last) == Scan(source.value, old(index) + 1, last)
        decreases last - index
      {
        index := index + 1;
      }
    }

    /** Prefix `operator--`: one step down, then down past unset members
      until -1. */
    method Decrement()
      requires source.Valid() && index <= source.decl.width
      modifies this
      ensures index == ScanDown(source.value, old(index) - 1)
    {
      index := index - 1;
      while index > -1 && !source.Contains(index)
        invariant index <= old(index) - 1
        invariant ScanDown(source.value, index) == ScanDown(source.value, old(index) - 1)
        decreases index + 1
      {
        index := index - 1;
      }
    }

    /** Postfix `operator++`: a copy of the iterator before the step. */
    method PostIncrement() returns (copy: ConstIterator)
      requires source.Valid() && index >= -1
      modifies this
      ensures fresh(copy) && copy.source == source && copy.index == old(index)
      ensures index == Scan(source.value, old(index) + 1, Last(source.decl))
    {
      copy := new ConstIterator.Copy(this);
      Increment();
    }

    /** Postfix `operator--`. */
    method PostDecrement() returns (copy: ConstIterator)
      requires source.Valid() && index <= source.decl.width
      modifies this
      ensures fresh(copy) && copy.source == source && copy.index == old(index)
      ensures index == ScanDown(source.value, old(index) - 1)
    {
      copy := new ConstIterator.Copy(this);
      Decrement();
    }
  }

  // ---------------------------------------------------------------------
  // Walking a container

  /** A range-based `for` over the container: `begin()`, then `++` until the
      iterator equals `end()`, collecting `*it`. It visits exactly the set
      members below `Last`, in ascending order. */
  method Elements(flags: BitFlags) returns (s: seq<nat>)
    requires flags.Valid()
    ensures s == Members(flags.value, 0, Last(flags.decl))
  {
    var v := flags.value;
    var last := Last(flags.decl);
    var it := flags.Begin();
    var stop := flags.End();
    WalkIsMembers(v, 0, last);
    s := [];
    assert s + Walk(v, it.index, last) == Members(v, 0, last);
    while it.NotEquals(stop)
      invariant fresh(it) && it != stop && it.source == flags && stop.index == last
      invariant flags.value == v && flags.Valid()
      invariant 0 <= it.index <= last
      invariant s + Walk(v, it.index, last) == Members(v, 0, last)
      decreases last - it.index
    {
      var i: nat := it.index;
      it.Increment();
      assert it.index == Scan(v, i + 1, last);
      WalkStep(v, i, last, s);
      s := s + [i];
    }
  }

  /** One step of the walk moves its first index to the visited prefix. */
  lemma WalkStep(v: nat, i: nat, last: nat, s: seq<nat>)
    requires i < last
    ensures s + Walk(v, i, last) == (s + [i]) + Walk(v, Scan(v, i + 1, last), last)
  {
    var next := Scan(v, i + 1, last);
    assert Walk(v, i, last) == [i] + Walk(v, next, last);
  }

  /** `begin() == end()` exactly when no member below `Last` is set. */
  lemma BeginIsEnd(v: nat, last: nat)
    ensures Scan(v, 0, last) == last ==> forall j: nat :: j < last ==> !Bit(v, j)
    ensures (forall j: nat :: j < last ==> !Bit(v, j)) ==> Scan(v, 0, last) == last
  {
    var r := Scan(v, 0, last);
    if r < last {
      assert Bit(v, r);
    }
  }

  // ---------------------------------------------------------------------
  // The operator test

  /** The container `Zero | Two` of a dense enumeration contains Zero, has
      some member of `Zero | One` but not all of them, and the container
      assigned Zero is not empty. */
  method OperatorsTest(d: EnumDecl)
    returns (containsZero: bool, anyOfZeroOne: bool, allOfZeroOne: bool, emptyAfterAssign: bool)
    requires IsDense(d)
    ensures containsZero && anyOfZeroOne && !allOfZeroOne && !emptyAfterAssign
  {
    DenseFacts(d);
    var flags := BitFlags.FromRawValue(d, MemberUnion(d, 0, 2));
    var zeroOne := BitFlags.FromRawValue(d, MemberUnion(d, 0, 1));
    containsZero := flags.Contains(0);
    assert Bit(flags.value, 0) && Bit(zeroOne.value, 0);
    anyOfZeroOne := flags.AnyOf(zeroOne);
    assert Bit(zeroOne.value, 1) && !Bit(flags.value, 1);
    allOfZeroOne := flags.AllOf(zeroOne);
    flags.AssignMember(0);
    assert Bit(flags.value, 0);
    emptyAfterAssign := flags.Empty();
  }

  /** For a dense enumeration `One | Three` iterates as One, Three and its
      complement as Zero, Two. */
  lemma DenseIteration(d: EnumDecl)
    requires IsDense(d)
    ensures Members(MemberUnion(d, 1, 3), 0, Last(d)) == [1, 3]
    ensures Members(Complement(d, MemberUnion(d, 1, 3)), 0, Last(d)) == [0, 2]
  {
    DenseFacts(d);
    DenseIterationWords(MemberUnion(d, 1, 3), Complement(d, MemberUnion(d, 1, 3)), AllValue(d), Last(d));
  }

  /** The members of the words with bits {1, 3} and with the other bits of
      0b1111, below 4. */
  lemma DenseIterationWords(u: nat, c: nat, all: nat, last: nat)
    requires all == 15 && last == 4
    requires forall i: nat :: Bit(u, i) <==> i == 1 || i == 3
    requires forall i: nat :: Bit(c, i) <==> !Bit(u, i) && Bit(all, i)
    ensures Members(u, 0, last) == [1, 3]
    ensures Members(c, 0, last) == [0, 2]
  {
    MembersBelowFour(u, last);
    OnesBits(4, 15);
    assert Bit(c, 0) && !Bit(c, 1) && Bit(c, 2) && !Bit(c, 3);
    MembersBelowFour(c, last);
  }

  /** The members of v below 4, bit by bit. */
  lemma MembersBelowFour(v: nat, last: nat)
    requires last == 4
    ensures Members(v, 0, last)
         == (if Bit(v, 0) then [0] else []) + (if Bit(v, 1) then [1] else [])
          + (if Bit(v, 2) then [2] else []) + (if Bit(v, 3) then [3] else [])
  {
    assert Members(v, 3, 4) == (if Bit(v, 3) then [3] else []) + [];
  }

  /** The values test on the dense enumeration: a default container holds 0
      and equals `None`; or-ing in One gives 1 << 1, and then or-ing in
      `Two | Three | Zero` gives 0b1111. */
  method ValuesTest(d: EnumDecl) returns (initial: nat, equalsNone: bool, afterOne: nat, afterAll: nat)
    requires IsDense(d) && d.explicitNone.None?
    ensures initial == 0 && equalsNone
    ensures afterOne == 2 && afterAll == 0xF
  {
    DenseFacts(d);
    var bars := new BitFlags(d);
    var none := new BitFlags.OfNone(d);
    initial := bars.RawValue();
    equalsNone := bars.Equals(none);
    var one := new BitFlags.OfMember(d, 1);
    bars.UnionWith(one);
    afterOne := bars.RawValue();
    var rest := BitFlags.FromRawValue(d, UnionMember(d, MemberUnion(d, 2, 3), 0));
    bars.UnionWith(rest);
    afterAll := bars.RawValue();
    ValuesWords(d, afterOne, afterAll);
  }

  /** Or-ing One into 0 gives 2, and or-ing `Two | Three | Zero` into that
      gives 0b1111. */
  lemma ValuesWords(d: EnumDecl, one: nat, all: nat)
    requires d.width >= 4
    requires one == Union(d, 0, MemberBit(d, 1))
    requires all == Union(d, one, UnionMember(d, MemberUnion(d, 2, 3), 0))
    ensures one == 2 && all == 0xF
  {
    ZeroBits();
    assert forall j: nat :: Bit(one, j) == Bit(2, j) by {
      forall j: nat ensures Bit(one, j) == Bit(2, j) {
        TwoBits(j);
      }
    }
    BitsEqual(one, 2);
    OnesBits(4, 15);
    assert forall j: nat :: Bit(all, j) == Bit(15, j);
    BitsEqual(all, 15);
  }

  /** The bits of 2. */
  lemma TwoBits(j: nat)
    ensures Bit(2, j) <==> j == 1
  {
    if j >= 2 {
      assert Bit(2, j) == Bit(1, j - 1) == Bit(0, j - 2);
      ZeroBit(j - 2);
    }
  }
}
