# ez-bitflags in Dafny

A model of `ez::BitFlags<Enum>` from the header-only C++ library
ez-bitflags. The container turns a scoped enumeration into a set of flags
stored in one unsigned word, with bit k standing for member k. The model
covers:

- `EnumTraits`, which derives the constants of an enumeration and checks
  it (`traits.dfy`). The constants are `All` (the mask of legal bits),
  `None` and `Last` (the bit length of `All`). The checks are the numeric
  static assertions: `_Count` is at most 64 and equals the popcount of
  `All`.
- The population counts (`swar.dfy`): the compile-time `const_bitcount`
  chain and the four run-time `bitcount` overloads. Each is a SWAR ("SIMD
  within a register") computation that adds neighbouring bit fields
  through masks. Each is proved equal to a bit-by-bit reference count.
- The container `BitFlags` (`flags.dfy`): a class with a `value` field,
  its constructors, queries and compound assignments.
- Its bidirectional `const_iterator` (`flags.dfy`), with `++` and `--` as
  the scanning loops the source uses. Walking `begin()` to `end()` visits
  exactly the set members below `Last`, in ascending order.
- The free operators `| & ^ ~` (`algebra.dfy`), both on containers and on
  bare enumeration members, and the set-algebra laws they satisfy.
- `operator<<` (`render.dfy`), which writes `[Name, Name]`.

Raw words are `nat`s (`bits.dfy`). `&`, `|`, `^`, `~`, `<<` and `>>` in a
w-bit unsigned type are recursive functions, and each one's contract says
what it does to every bit. An enumeration is described by the datatype
`EnumDecl`. It holds the width and signedness of the underlying type, the
value of `_Count`, and the values of `_All` and `_None` when they are
declared. The enumeration's own `operator<<` is a parameter
`name: nat -> string`, and the output stream is a string.

Points where the library behaves other than one might expect, and which the model follows:

- Iteration runs up to `Last`, the bit length of `All`, not up to `_Count`.
  For a sparse mask the two differ.
- `numUnset()` is `max_size() - size()` in `size_t`. It wraps around when
  `size()` exceeds `max_size()`, which needs bits outside `All`; the
  identity `size() + numUnset() == max_size()`, read over the integers,
  then fails. It holds for every word inside `All`.
- The storage type is the unsigned version of the enumeration's own
  underlying type. It is not the smallest type that holds `_Count` bits.
- Without `_All`, `_Count == 0` makes the default mask shift by -1. That
  shift is undefined in C++; it does not produce an empty mask.
- The sparse enumeration in `test/basic.cpp` names its mask `All`, not
  `_All`, and its implicit `_Count` is 5. As declared it passes the
  numeric checks, with the default `All` 0b11111
  (`Traits.SparseAsDeclaredPassesNumericChecks`), and is rejected only by
  the static assertion on the enumerator name `All`, which this model
  leaves out. With the mask read as `_All` 0b10101 and the implicit
  `_Count` 5, the popcount check fails (`Traits.SparseWithAllRejected`).
  The test scenarios use the enumeration as evidently meant: `_Count` 3
  and `_All` 0b10101 (`Traits.IsSparse`).

## Model

| member | source | states |
|---|---|---|
| Bits.LastSet | include/ez/BitFlags.hpp:28-30 | `last_set` is the bit length: 0 exactly for 0, and otherwise 2^(r-1) <= v < 2^r |
| Swar.ConstBitcount | include/ez/BitFlags.hpp:9-26 | `const_bitcount` of a uint64_t is the number of its set bits |
| Swar.ConstBitcount0 | include/ez/BitFlags.hpp:21-23 | `const_bitcount_0`: when the 2-bit fields of its argument hold the set-bit counts of the matching fields of a uint64_t v, it returns the number of set bits of v |
| Swar.ConstBitcount1 | include/ez/BitFlags.hpp:18-20 | `const_bitcount_1`: from 4-bit fields holding the counts of v, it returns the number of set bits of v |
| Swar.ConstBitcount2 | include/ez/BitFlags.hpp:15-17 | `const_bitcount_2`: from 8-bit fields holding the counts of v, it returns the number of set bits of v |
| Swar.ConstBitcount3 | include/ez/BitFlags.hpp:12-14 | `const_bitcount_3`: from 16-bit fields holding the counts of v, it returns the number of set bits of v |
| Swar.ConstBitcount4 | include/ez/BitFlags.hpp:9-11 | `const_bitcount_4`: from two 32-bit fields holding the counts of the halves of v, it returns the number of set bits of v |
| Swar.ConstBitcountChainIsPopcount | include/ez/BitFlags.hpp:9-25 | the six mask-and-add steps of the chain, from field width 1 to 32, leave the number of set bits |
| Swar.BitCount8 | include/ez/BitFlags.hpp:109-115 | `bitcount(uint8_t)`, computed in a uint32_t, returns the number of set bits |
| Swar.BitCount16 | include/ez/BitFlags.hpp:116-124 | `bitcount(uint16_t)` returns the number of set bits |
| Swar.BitCount32 | include/ez/BitFlags.hpp:125-133 | `bitcount(uint32_t)` returns the number of set bits |
| Swar.BitCount64 | include/ez/BitFlags.hpp:134-143 | `bitcount(uint64_t)` returns the number of set bits |
| Traits.DefaultAll | include/ez/BitFlags.hpp:62 | `~((~utype(1)) << (_Count - 1))`, evaluated in the promoted width and truncated to W bits, is the low min(_Count, W) bits |
| Traits.AllValue | include/ez/BitFlags.hpp:59-68 | `All` is a W-bit word; without `_All` and with `_Count` <= W it is 2^_Count - 1 |
| Traits.AllValueIsDefault | include/ez/BitFlags.hpp:59-63 | without `_All`, `All` is the value of the default shift expression |
| Traits.NoneValue | include/ez/BitFlags.hpp:70-79 | `None` is a W-bit word, 0 unless `_None` is declared |
| Traits.Last | include/ez/BitFlags.hpp:102 | `Last` is at most W and no bit of `All` is set at or above it |
| Traits.ChecksPass | include/ez/BitFlags.hpp:97-105 | the two numeric static assertions (`_Count` as `utype` at most 64, and equal to `const_bitcount(All)`); when they hold the cast loses nothing, so `_Count` is non-negative and is the popcount of `All` |
| Traits.Accepted | include/ez/BitFlags.hpp:97-105 | the reading of the checks that every container relies on: `_Count` in [0, 64] and equal to the popcount of `All`; it implies `_Count` <= W |
| Traits.ChecksPassIffAccepted | include/ez/BitFlags.hpp:97-105 | the two numeric static assertions hold exactly when `_Count` is in [0, 64] and equals the popcount of `All` |
| Traits.DefaultAllPassesChecks | include/ez/BitFlags.hpp:59-105 | without `_All`, every `_Count` in [1, W] passes the checks, with `All` = 2^_Count - 1 and `Last` = `_Count` |
| Traits.AcceptedCountBounds | include/ez/BitFlags.hpp:97-105 | for an accepted enumeration, 0 <= `_Count` <= `Last` <= W |
| Traits.DenseFacts | test/ops.cpp:6-16 | the four-member test enumeration is accepted, with `All` 0b1111 and `Last` 4 |
| Traits.SparseFacts | test/basic.cpp:30-37 | the sparse enumeration with `_All` 0b10101 and `_Count` 3 is accepted, with `Last` 5 |
| Traits.SparseWithAllRejected | test/basic.cpp:30-37 | with the mask read as `_All` 0b10101 and the implicit `_Count` 5, the popcount check fails |
| Traits.SparseAsDeclaredPassesNumericChecks | test/basic.cpp:30-37 | as declared, with no `_All` and the implicit `_Count` 5, the numeric checks pass with the default `All` 0b11111 |
| Algebra.MemberBit | include/ez/BitFlags.hpp:347-349 | `_convert(k)` is the W-bit word whose only set bit is k |
| Algebra.Union | include/ez/BitFlags.hpp:353-356 | bit k of the union of two containers is set iff it is set in either, and the result is a W-bit word |
| Algebra.Intersect | include/ez/BitFlags.hpp:357-360 | bit k of `a & b` is set iff it is set in both |
| Algebra.SymDiff | include/ez/BitFlags.hpp:361-364 | bit k of `a ^ b` is set iff a and b differ there and `All` has it; the result lies inside `All` |
| Algebra.Complement | include/ez/BitFlags.hpp:365-368 | bit k of `~a` is set iff a lacks it and `All` has it |
| Algebra.UnionMember | include/ez/BitFlags.hpp:370-373 | the union of a container with member k adds bit k |
| Algebra.AndMemberAsWritten | include/ez/BitFlags.hpp:374-377 | the and of a container with member k, as written, adds bit k exactly as the union does |
| Algebra.AndMemberAsWrittenIsUnion | include/ez/BitFlags.hpp:374-377 | for the dense enumeration, {Two} & Zero gives {Zero, Two} under the written overload, not the intersection |
| Algebra.AndMember | include/ez/BitFlags.hpp:374-377 | the intersection with member k keeps bit k of a and nothing else |
| Algebra.SymDiffMember | include/ez/BitFlags.hpp:378-381 | `a ^ member` toggles bit k, then masks with `All` |
| Algebra.MemberUnion | include/ez/BitFlags.hpp:383-386 | the union of members j and k has exactly bits j and k |
| Algebra.MemberIntersect | include/ez/BitFlags.hpp:387-390 | `j & k` on members is empty iff j != k, and otherwise holds just bit j |
| Algebra.MemberSymDiff | include/ez/BitFlags.hpp:391-394 | `j ^ k` on members has the bits of `All` that are exactly one of j and k |
| Algebra.MemberComplement | include/ez/BitFlags.hpp:395-398 | `~k` on a member is every member of `All` except k |
| Algebra.ComplementInvolutive | include/ez/BitFlags.hpp:365-368 | `~~a == a` for every word inside `All` |
| Algebra.ComplementOfUnion | include/ez/BitFlags.hpp:353-368 | the complement of a union is the intersection of the complements |
| Algebra.ComplementPartitionsAll | include/ez/BitFlags.hpp:353-368 | for a word inside `All`, its union with its complement is `All` and their intersection is 0 |
| Algebra.UnionIntersectLaws | include/ez/BitFlags.hpp:353-360 | union and intersection are idempotent and commutative |
| Algebra.SymDiffLaws | include/ez/BitFlags.hpp:361-364 | `a ^ a == 0`, and `(a ^ b) ^ b == a` for a inside `All` |
| Algebra.SparseUnionAndComplement | test/basic.cpp:106-116 | the union of Two and Four is 0b10100, and its complement is 1 |
| Flags.Scan | include/ez/BitFlags.hpp:206-213 | where `++` stops: the first set bit at or after i and below `Last`, or `Last` |
| Flags.ScanDown | include/ez/BitFlags.hpp:214-221 | where `--` stops: the last set bit at or below i, or -1 |
| Flags.MembersAreSetBits | include/ez/BitFlags.hpp:206-213 | the members below `Last` are exactly the set bits, strictly ascending |
| Flags.WalkIsMembers | include/ez/BitFlags.hpp:330-336 | repeating `++` from `begin()` visits exactly the members below `Last` |
| Flags.SizeDiff | include/ez/BitFlags.hpp:270-272 | `a - b` in `size_t` is below 2^64; it equals a - b when that is in [0, 2^64), and a - b + 2^64 when that is in [-2^64, 0) |
| Flags.UnsetInsideAll | include/ez/BitFlags.hpp:270-272 | for a word inside `All`, `numUnset() + size() == _Count` |
| Flags.AndMemberIffBit | include/ez/BitFlags.hpp:290-292 | `(value & _convert(k)) != 0` iff bit k is set |
| Flags.BitFlags.constructor | include/ez/BitFlags.hpp:233-235 | the default container holds `None` |
| Flags.BitFlags.OfNone | include/ez/BitFlags.hpp:236-238 | `BitFlags(None)` holds `None` |
| Flags.BitFlags.OfAll | include/ez/BitFlags.hpp:239-241 | `BitFlags(All)` holds `All` |
| Flags.BitFlags.OfMember | include/ez/BitFlags.hpp:243-245 | `BitFlags(member)` holds just bit k |
| Flags.BitFlags.Copy | include/ez/BitFlags.hpp:251 | the copy holds the same word |
| Flags.BitFlags.FromRawValue | include/ez/BitFlags.hpp:227-231 | a fresh container holding the word unchanged |
| Flags.BitFlags.AssignMember | include/ez/BitFlags.hpp:246-249 | after `= member` the container holds just bit k |
| Flags.BitFlags.Assign | include/ez/BitFlags.hpp:252 | after copy assignment the container holds the other's word |
| Flags.BitFlags.Clear | include/ez/BitFlags.hpp:254-256 | after `clear()` the word is 0 and the container is empty |
| Flags.BitFlags.Empty | include/ez/BitFlags.hpp:257-259 | `empty()` iff no bit below W is set |
| Flags.BitFlags.RawValue | include/ez/BitFlags.hpp:326-328 | the stored word, a W-bit value |
| Flags.BitFlags.Size | include/ez/BitFlags.hpp:260-262 | `size()`, through the overload for W, is the number of set bits |
| Flags.BitFlags.MaxSize | include/ez/BitFlags.hpp:263-265 | `max_size()` is `_Count` |
| Flags.BitFlags.NumSet | include/ez/BitFlags.hpp:267-269 | `numSet()` is the number of set bits |
| Flags.BitFlags.NumUnset | include/ez/BitFlags.hpp:270-272 | `numUnset()` is `_Count - size()` wrapped to `size_t`; inside `All`, `numUnset() + size() == max_size()` |
| Flags.BitFlags.Set | include/ez/BitFlags.hpp:274-276 | `set(o)` leaves the union |
| Flags.BitFlags.Unset | include/ez/BitFlags.hpp:277-279 | `unset(o)` leaves the word and'ed with the complement of o |
| Flags.BitFlags.Front | include/ez/BitFlags.hpp:281-284 | `front()` is where `begin()` stops; inside `All` it is the lowest set member |
| Flags.BitFlags.Back | include/ez/BitFlags.hpp:285-288 | `back()` is where `--end()` stops; inside `All` it is the highest set member |
| Flags.BitFlags.Contains | include/ez/BitFlags.hpp:290-292 | `contains(k)` iff bit k is set |
| Flags.BitFlags.AllOf | include/ez/BitFlags.hpp:293-295 | `allOf(o)` iff every bit of o is set here |
| Flags.BitFlags.NoneOf | include/ez/BitFlags.hpp:296-298 | `noneOf(o)` iff the two share no bit |
| Flags.BitFlags.AnyOf | include/ez/BitFlags.hpp:299-301 | `anyOf(o)` iff they share a bit, i.e. iff not `noneOf(o)` |
| Flags.BitFlags.UnionWith | include/ez/BitFlags.hpp:303-306 | after the or-assignment the word is the union |
| Flags.BitFlags.IntersectWith | include/ez/BitFlags.hpp:308-311 | after `&=` the word is the intersection |
| Flags.BitFlags.SymmetricDifferenceWith | include/ez/BitFlags.hpp:313-317 | after `^=` the word is the exclusive or, masked with `All` |
| Flags.BitFlags.Equals | include/ez/BitFlags.hpp:319-321 | `==` iff the words agree in every bit |
| Flags.BitFlags.NotEquals | include/ez/BitFlags.hpp:322-324 | `!=` iff the words differ in some bit |
| Flags.BitFlags.Begin | include/ez/BitFlags.hpp:330-333 | `begin()` stands at the first set member below `Last`, or at `Last` |
| Flags.BitFlags.End | include/ez/BitFlags.hpp:334-336 | `end()` stands at `Last` |
| Flags.ConstIterator.constructor | include/ez/BitFlags.hpp:167-170 | the iterator holds its source and index |
| Flags.ConstIterator.Copy | include/ez/BitFlags.hpp:177 | the copy has the same source and index |
| Flags.ConstIterator.Equals | include/ez/BitFlags.hpp:181-183 | `==` compares the indices only |
| Flags.ConstIterator.NotEquals | include/ez/BitFlags.hpp:184-186 | `!=` iff the indices differ |
| Flags.ConstIterator.Increment | include/ez/BitFlags.hpp:206-213 | prefix `++` moves to the next set member below `Last`, or to `Last` |
| Flags.ConstIterator.Decrement | include/ez/BitFlags.hpp:214-221 | prefix `--` moves to the previous set member, or to -1 |
| Flags.ConstIterator.PostIncrement | include/ez/BitFlags.hpp:195-199 | postfix `++` returns the old position and advances as `++` does |
| Flags.ConstIterator.PostDecrement | include/ez/BitFlags.hpp:200-204 | postfix `--` returns the old position and steps back as `--` does |
| Flags.Elements | include/ez/BitFlags.hpp:330-336 | a loop from `begin()` to `end()` collects exactly the set members below `Last`, in ascending order |
| Flags.BeginIsEnd | include/ez/BitFlags.hpp:330-336 | `begin() == end()` iff no member below `Last` is set |
| Flags.OperatorsTest | test/ops.cpp:37-48 | the set {Zero, Two} contains Zero, has some but not all of {Zero, One}, and is not empty after `= Zero` |
| Flags.ValuesTest | test/multi_namespace.cpp:23-42 | a default container holds 0 and equals `None`; or-ing in One gives 1 << 1, then or-ing in Two, Three and Zero gives 0b1111 |
| Flags.DenseIteration | test/multi_namespace.cpp:44-64 | the set {One, Three} iterates as One, Three; its complement iterates as Zero, Two |
| Render.RenderMember | include/ez/BitFlags.hpp:411-419 | one turn writes the name of a member of `All`, followed by ", " iff `++` on a copy does not reach the end |
| Render.Render | include/ez/BitFlags.hpp:400-424 | `os << val` writes '[', then the item of each visited member, then ']' |
| Render.ItemsInsideAll | include/ez/BitFlags.hpp:410-420 | when every visited member is in `All`, the items are the names joined by ", " |
| Render.TrailingSeparator | include/ez/BitFlags.hpp:414-418 | the sparse word 0b11 prints "[Zero, ]" |
| Render.RenderMemberFixed | include/ez/BitFlags.hpp:411-419 | the corrected turn writes ", " before a member of `All` unless it is the first written |
| Render.RenderFixed | include/ez/BitFlags.hpp:400-424 | the corrected operator prints the names of the members inside `All`, joined by ", " |
| Render.RenderAgreesInsideAll | include/ez/BitFlags.hpp:400-424 | for a word inside `All`, the operator as written and the corrected one print the same |
| Render.PrintingEmpty | include/ez/BitFlags.hpp:409-421 | an empty container prints "[]" |
| Render.PrintingZero | test/basic.cpp:91-99 | the set {Zero} prints "[Zero]" |
| Render.PrintingOneTwo | test/basic.cpp:101-103 | the set {One, Two} prints "[One, Two]" |
| Render.PrintingSparse | test/basic.cpp:106-112 | the sparse set {Two, Four} prints "[Two, Four]" |

## Left out

- `cbegin()` and `cend()` (include/ez/BitFlags.hpp:338-344) have the bodies of `begin()` and `end()`. `Flags.BitFlags.Begin` and `Flags.BitFlags.End` stand for both.
- `operator*` and `operator->` of the iterator (:188-193) cast the index to `Enum`. The model reads `index` directly, and a member is its bit index.
- The default `const_iterator()` (:172-175) has a null source. The `assert(source != nullptr)` in `++` and `--` guards against it. Every iterator in the model has a source, so neither is modelled.
- The `assert(!empty())` in `front()` and `back()` is the precondition `!Empty()`.
- The type-level checks are properties of C++ types, not of values, so they are left out: `is_scoped_enum`, `has_count`, `has_improper_all`, `has_improper_none` and `has_ostream_operator` (:32-57, :83-93), and the `_EnableOperators` template guard on the member operators (:383-398). The model assumes they hold.
- `std::ostream` is a string. The enumeration's own `operator<<` is the parameter `name`. The unused constant `maxval` in `operator<<` (:405) is left out.
- Underlying types are limited to widths 8, 16, 32 and 64. Other widths would not be valid C++ integer types.
- Flags.BitFlags.SymmetricDifferenceWith: the source masks with `traits::mask` (:315). `EnumTraits` has no such member, so `^=` as written does not compile once instantiated. The model masks with `All`, as the free `operator^` does.
- Traits.DefaultAll: the model gives the shift C++20 semantics (modular) in the promoted width. For 8- and 16-bit underlying types, `~utype(1)` is the `int` -2, and before C++20 shifting a negative value left is undefined, so the `constexpr` initializer at :62 is rejected. Under C++17 such enumerations without `_All` do not compile; `Traits.DefaultAllPassesChecks` accepts them.
- Traits.AllValue: without `_All`, a `_Count` of 0 or one beyond the promoted width makes the shift undefined. The model requires `AllDefined` instead of modelling undefined behaviour.
- Flags.ConstIterator.Decrement: requires the index to be at most W. From a larger index, `contains()` would shift past the type's width. `end()` stands at `Last`, which is at most W.
- Flags.ConstIterator.Increment: requires the index to be at least -1, as every iterator the container hands out is.
- Flags.ConstIterator: `source` is fixed when the iterator is constructed. The source's `const_iterator` holds a plain `const BitFlags*` (include/ez/BitFlags.hpp:158-179), so its defaulted copy assignment (:179) can rebind an iterator to another container. That copy assignment is not modelled.
- Overflow of the iterator's `int` index is not modelled, because indices stay in [-1, 64].
- `constexpr` and `noexcept` say nothing about values and are left out.

## Findings

| source | as written | input that shows it | evidently intended | confidence | as-written member | corrected member |
|---|---|---|---|---|---|---|
| include/ez/BitFlags.hpp:374-377 | the and of a container with a member returns their union | `{Two} & Zero` on the four-member enumeration gives {Zero, Two} (0b101) | the intersection `lh & BitFlags{rh}`, which gives {} | not executed | Algebra.AndMemberAsWrittenIsUnion | Algebra.AndMember |
| include/ez/BitFlags.hpp:414-418 | the separator is written when the iterator has another set bit, even one `All` lacks and that prints nothing | `fromRawValue(0b11)` on the sparse enumeration prints "[Zero, ]" | a separator only between two printed names: "[Zero]" | not executed | Render.TrailingSeparator | Render.RenderFixed |
