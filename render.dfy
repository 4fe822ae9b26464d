/** `operator<<(std::ostream&, BitFlags<Enum>)`: the set members in brackets,
    each followed by ", " when the iterator has a next member. The output
    operator of the enumeration itself is a parameter, `name`. */
module Render {
  import opened Bits
  import opened Traits
  import opened Flags

  /** What one turn of the loop writes for member k: nothing unless `All`
      contains k, else its name and, when `more`, the separator. */
  function Item(name: nat -> string, all: nat, k: nat, more: bool): string {
    if Bit(all, k) then name(k) + (if more then ", " else "") else ""
  }

  /** What the loop writes for the members ms, visited in order: the
      separator after an item depends on whether any member follows it,
      inside `All` or not. */
  function Items(name: nat -> string, all: nat, ms: seq<nat>): string
    decreases |ms|
  {
    if ms == [] then "" else Item(name, all, ms[0], |ms| > 1) + Items(name, all, ms[1..])
  }

  /** The names of ms separated by ", ". */
  function JoinNames(name: nat -> string, ms: seq<nat>): string
    decreases |ms|
  {
    if |ms| == 0 then ""
    else if |ms| == 1 then name(ms[0])
    else name(ms[0]) + ", " + JoinNames(name, ms[1..])
  }

  /** The members of ms that `All` contains, in order. */
  function Kept(all: nat, ms: seq<nat>): seq<nat>
    decreases |ms|
  {
    if ms == [] then []
    else (if Bit(all, ms[0]) then [ms[0]] else []) + Kept(all, ms[1..])
  }

  // ---------------------------------------------------------------------
  // The operator as written

  /** One turn of the loop: an iterator at i writes Item for i, with the
      separator exactly when `++` on a copy does not reach the end. */
  lemma RenderStep(name: nat -> string, all: nat, v: nat, i: nat, last: nat)
    requires i < last
    ensures Scan(v, i + 1, last) <= last
    ensures Items(name, all, Walk(v, i, last))
         == Item(name, all, i, Scan(v, i + 1, last) != last)
            + Items(name, all, Walk(v, Scan(v, i + 1, last), last))
  {
    var next := Scan(v, i + 1, last);
    var rest := Walk(v, next, last);
    assert Walk(v, i, last) == [i] + rest;
    assert ([i] + rest)[1..] == rest;
    assert next >= last ==> rest == [];
    assert next < last ==> |rest| >= 1;
  }

  /** The loop invariant of `Render` survives one turn. */
  lemma RenderTurn(name: nat -> string, all: nat, v: nat, i: nat, last: nat,
                   out: string, written: string, total: string)
    requires i < last
    requires out + Items(name, all, Walk(v, i, last)) == total
    requires written == Item(name, all, i, Scan(v, i + 1, last) != last)
    ensures (out + written) + Items(name, all, Walk(v, Scan(v, i + 1, last), last)) == total
  {
    RenderStep(name, all, v, i, last);
    var rest := Items(name, all, Walk(v, Scan(v, i + 1, last), last));
    assert out + (written + rest) == total;
  }

  /** The body of the loop of `os << val` for the iterator `it`: the name of
      its member when `All` contains it, followed by ", " when `++` on a copy
      of `it` does not reach `last`. */
  method RenderMember(name: nat -> string, all: BitFlags, it: ConstIterator, last: ConstIterator)
    returns (written: string)
    requires all.Valid() && it.source.Valid() && all.decl == it.source.decl
    requires 0 <= it.index < Last(all.decl)
    ensures written == Item(name, all.value, it.index,
                            Scan(it.source.value, it.index + 1, Last(all.decl)) != last.index)
  {
    var flag := it.index;
    written := "";
    if all.Contains(flag) {
      written := name(flag);
      var copy := new ConstIterator.Copy(it);
      copy.Increment();
      if copy.NotEquals(last) {
        written := written + ", ";
      }
    }
  }

  /** `os << val`: writes '[', walks `val.begin()` to `val.end()` writing
      each member `All` contains followed by ", " unless the next position
      is the end, then writes ']'. */
  method Render(name: nat -> string, val: BitFlags) returns (out: string)
    requires val.Valid()
    ensures out == "[" + Items(name, AllValue(val.decl), Members(val.value, 0, Last(val.decl))) + "]"
  {
    var all := new BitFlags.OfAll(val.decl);
    ghost var v := val.value;
    ghost var stopAt := Last(val.decl);
    ghost var a := all.value;
    ghost var total := "[" + Items(name, a, Members(v, 0, stopAt));
    out := "[";
    var it := val.Begin();
    var last := val.End();
    WalkIsMembers(v, 0, stopAt);
    assert out + Items(name, a, Walk(v, it.index, stopAt)) == total;
    while it.NotEquals(last)
      invariant fresh(it) && it != last && it.source == val && last.index == stopAt
      invariant val.value == v && all.value == a && all.decl == val.decl
      invariant 0 <= it.index <= stopAt
      invariant out + Items(name, a, Walk(v, it.index, stopAt)) == total
      decreases stopAt - it.index
    {
      var flag := it.index;
      var written := RenderMember(name, all, it, last);
      it.Increment();
      ghost var next := Scan(v, flag + 1, stopAt);
      assert it.index == next;
      RenderTurn(name, a, v, flag, stopAt, out, written, total);
      out := out + written;
    }
    assert out == total;
    out := out + "]";
  }

  /** For a value inside `All` the output is the members' names separated by
      ", ", with nothing after the last. */
  lemma {:induction false} ItemsInsideAll(name: nat -> string, all: nat, ms: seq<nat>)
    requires forall i :: 0 <= i < |ms| ==> Bit(all, ms[i])
    ensures Items(name, all, ms) == JoinNames(name, ms)
    decreases |ms|
  {
    if ms != [] {
      ItemsInsideAll(name, all, ms[1..]);
    }
  }

  /** The names of the sparse test enumeration. */
  function SparseName(k: nat): string {
    if k == 0 then "Zero" else if k == 2 then "Two" else if k == 4 then "Four" else ""
  }

  /** The names of the dense test enumeration. */
  function TestName(k: nat): string {
    if k == 0 then "Zero" else if k == 1 then "One" else if k == 2 then "Two"
    else if k == 3 then "Three" else ""
  }

  /** A sparse set holding member Zero and the stray bit 1 (`fromRawValue(3)`)
      prints "[Zero, ]": the separator is written because the iterator still
      has bit 1 to visit, though bit 1 itself prints nothing. */
  lemma TrailingSeparator(d: EnumDecl)
    requires IsSparse(d)
    ensures "[" + Items(SparseName, AllValue(d), Members(3, 0, Last(d))) + "]" == "[Zero, ]"
  {
    SparseFacts(d);
    TrailingSeparatorItems(AllValue(d), Last(d));
  }

  /** The items of 3 under the sparse mask 0b10101, iterating up to 5. */
  lemma TrailingSeparatorItems(all: nat, last: nat)
    requires all == 0x15 && last == 5
    ensures "[" + Items(SparseName, all, Members(3, 0, last)) + "]" == "[Zero, ]"
  {
    assert Bit(3, 0) && Bit(3, 1) && !Bit(3, 2) && !Bit(3, 3) && !Bit(3, 4);
    assert Members(3, 0, 5) == [0, 1];
    assert Bit(0x15, 0) && !Bit(0x15, 1);
    assert Item(SparseName, 0x15, 0, true) == "Zero, ";
    assert Items(SparseName, 0x15, [1]) == "";
    assert Items(SparseName, 0x15, [0, 1]) == "Zero, " + Items(SparseName, 0x15, [1]);
  }

  // ---------------------------------------------------------------------
  // The operator as evidently intended

  /** Extending the visited prefix by one member extends the kept members by
      it when `All` contains it. */
  lemma {:induction false} KeptAppend(all: nat, s: seq<nat>, i: nat)
    ensures Kept(all, s + [i]) == Kept(all, s) + (if Bit(all, i) then [i] else [])
    decreases |s|
  {
    if s == [] {
      assert [i][1..] == [];
    } else {
      KeptAppend(all, s[1..], i);
      assert (s + [i])[1..] == s[1..] + [i];
    }
  }

  /** The members of v that `All` contains are the members of `v & All`. */
  lemma {:induction false} KeptMembers(all: nat, v: nat, lo: nat, last: nat)
    ensures Kept(all, Members(v, lo, last)) == Members(And(v, all), lo, last)
    decreases last - lo
  {
    if lo < last {
      KeptMembers(all, v, lo + 1, last);
      var ms := Members(v, lo, last);
      var rest := Members(v, lo + 1, last);
      assert Bit(And(v, all), lo) <==> Bit(v, lo) && Bit(all, lo);
      if Bit(v, lo) {
        assert ms == [lo] + rest && ms[1..] == rest;
      } else {
        assert ms == rest;
      }
    }
  }

  /** Appending a name to a non-empty list writes a separator before it. */
  lemma {:induction false} JoinAppend(name: nat -> string, s: seq<nat>, i: nat)
    ensures JoinNames(name, s + [i]) == if s == [] then name(i) else JoinNames(name, s) + ", " + name(i)
    decreases |s|
  {
    if |s| >= 1 {
      JoinAppend(name, s[1..], i);
      assert (s + [i])[1..] == s[1..] + [i];
      assert (s + [i])[0] == s[0];
    }
  }

  /** The output invariant of `RenderFixed` survives one turn: a kept
      member is written after a separator unless it is the first. */
  lemma FixedTurn(name: nat -> string, keep: bool, kept: seq<nat>, i: nat, first: bool,
                  out: string, written: string)
    requires first <==> kept == []
    requires out == "[" + JoinNames(name, kept)
    requires written == if keep then (if first then "" else ", ") + name(i) else ""
    ensures out + written == "[" + JoinNames(name, kept + (if keep then [i] else []))
  {
    if keep {
      JoinAppend(name, kept, i);
      assert "[" + (JoinNames(name, kept) + written) == out + written;
    } else {
      assert kept + [] == kept;
    }
  }

  /** One turn of the corrected loop keeps its three invariants: the walk
      still covers the members, the kept members are those of `All`, and
      the output lists them. */
  lemma FixedStep(name: nat -> string, a: nat, v: nat, stopAt: nat, seen: seq<nat>,
                  kept: seq<nat>, flag: nat, first: bool, out: string, written: string)
    requires flag < stopAt && seen + Walk(v, flag, stopAt) == Members(v, 0, stopAt)
    requires kept == Kept(a, seen) && (first <==> kept == [])
    requires out == "[" + JoinNames(name, kept)
    requires written == if Bit(a, flag) then (if first then "" else ", ") + name(flag) else ""
    ensures (seen + [flag]) + Walk(v, Scan(v, flag + 1, stopAt), stopAt) == Members(v, 0, stopAt)
    ensures kept + (if Bit(a, flag) then [flag] else []) == Kept(a, seen + [flag])
    ensures (first && !Bit(a, flag)) <==> kept + (if Bit(a, flag) then [flag] else []) == []
    ensures out + written == "[" + JoinNames(name, kept + (if Bit(a, flag) then [flag] else []))
  {
    FixedTurn(name, Bit(a, flag), kept, flag, first, out, written);
    KeptAppend(a, seen, flag);
    WalkStep(v, flag, stopAt, seen);
  }

  /** The body of the corrected loop: a member `All` contains is written,
      after ", " unless it is the first written. */
  method RenderMemberFixed(name: nat -> string, all: BitFlags, flag: nat, first: bool)
    returns (written: string, nowFirst: bool)
    requires all.Valid() && flag < all.decl.width
    ensures written == if Bit(all.value, flag) then (if first then "" else ", ") + name(flag) else ""
    ensures nowFirst <==> first && !Bit(all.value, flag)
  {
    written := "";
    nowFirst := first;
    if all.Contains(flag) {
      if !first {
        written := ", ";
      }
      written := written + name(flag);
      nowFirst := false;
    }
  }

  /** `os << val` writing the separator before every member but the first:
      the names of the members inside `All`, separated by ", ". */
  method RenderFixed(name: nat -> string, val: BitFlags) returns (out: string)
    requires val.Valid()
    ensures out == "[" + JoinNames(name, Members(And(val.value, AllValue(val.decl)), 0, Last(val.decl))) + "]"
  {
    var all := new BitFlags.OfAll(val.decl);
    ghost var v := val.value;
    ghost var stopAt := Last(val.decl);
    ghost var a := all.value;
    ghost var seen: seq<nat> := [];
    ghost var kept: seq<nat> := [];
    out := "[";
    var first := true;
    var it := val.Begin();
    var last := val.End();
    WalkIsMembers(v, 0, stopAt);
    assert seen + Walk(v, it.index, stopAt) == Members(v, 0, stopAt);
    while it.NotEquals(last)
      invariant fresh(it) && it != last && it.source == val && last.index == stopAt
      invariant val.value == v && all.value == a && all.decl == val.decl
      invariant 0 <= it.index <= stopAt
      invariant seen + Walk(v, it.index, stopAt) == Members(v, 0, stopAt)
      invariant kept == Kept(a, seen)
      invariant first <==> kept == []
      invariant out == "[" + JoinNames(name, kept)
      decreases stopAt - it.index
    {
      var flag: nat := it.index;
      var written, nowFirst := RenderMemberFixed(name, all, flag, first);
      ghost var kept' := kept + (if Bit(a, flag) then [flag] else []);
      it.Increment();
      ghost var next := Scan(v, flag + 1, stopAt);
      assert it.index == next;
      FixedStep(name, a, v, stopAt, seen, kept, flag, first, out, written);
      first := nowFirst;
      out := out + written;
      seen := seen + [flag];
      kept := kept';
    }
    assert seen == Members(v, 0, stopAt);
    KeptMembers(a, v, 0, stopAt);
    out := out + "]";
  }

  /** On every value inside `All` the operator as written and the corrected
      one print the same text. */
  lemma RenderAgreesInsideAll(name: nat -> string, all: nat, v: nat, last: nat)
    requires SubsetBits(v, all)
    ensures Items(name, all, Members(v, 0, last)) == JoinNames(name, Members(And(v, all), 0, last))
  {
    var ms := Members(v, 0, last);
    MembersAreSetBits(v, 0, last);
    assert forall i :: 0 <= i < |ms| ==> Bit(v, ms[i]) by {
      forall i | 0 <= i < |ms| ensures Bit(v, ms[i]) {
        assert ms[i] in ms;
      }
    }
    ItemsInsideAll(name, all, ms);
    KeptMembers(all, v, 0, last);
    KeptAll(all, ms);
  }

  /** Kept leaves a list inside `All` unchanged. */
  lemma {:induction false} KeptAll(all: nat, ms: seq<nat>)
    requires forall i :: 0 <= i < |ms| ==> Bit(all, ms[i])
    ensures Kept(all, ms) == ms
    decreases |ms|
  {
    if ms != [] {
      KeptAll(all, ms[1..]);
    }
  }

  // ---------------------------------------------------------------------
  // The printing tests

  /** An empty container prints as "[]". */
  lemma PrintingEmpty(name: nat -> string, d: EnumDecl)
    requires Accepted(d)
    ensures "[" + Items(name, AllValue(d), Members(0, 0, Last(d))) + "]" == "[]"
  {
    NoMembersOfZero(0, Last(d));
  }

  /** The word 0 has no members. */
  lemma {:induction false} NoMembersOfZero(lo: nat, last: nat)
    ensures Members(0, lo, last) == []
    decreases last - lo
  {
    if lo < last {
      ZeroBit(lo);
      NoMembersOfZero(lo + 1, last);
    }
  }

  /** `[Zero]` for the dense set holding Zero. */
  lemma PrintingZero(d: EnumDecl)
    requires IsDense(d)
    ensures "[" + Items(TestName, AllValue(d), Members(1, 0, Last(d))) + "]" == "[Zero]"
  {
    DenseFacts(d);
    PrintingZeroItems(AllValue(d), Last(d));
  }

  /** The items of 1 under the dense mask 0b1111. */
  lemma PrintingZeroItems(all: nat, last: nat)
    requires all == 15 && last == 4
    ensures "[" + Items(TestName, all, Members(1, 0, last)) + "]" == "[Zero]"
  {
    assert Bit(1, 0) && !Bit(1, 1) && !Bit(1, 2) && !Bit(1, 3);
    assert Members(1, 0, 4) == [0];
    assert Bit(15, 0);
  }

  /** `[One, Two]` for the dense set `One | Two`. */
  lemma PrintingOneTwo(d: EnumDecl)
    requires IsDense(d)
    ensures "[" + Items(TestName, AllValue(d), Members(6, 0, Last(d))) + "]" == "[One, Two]"
  {
    DenseFacts(d);
    PrintingOneTwoItems(AllValue(d), Last(d));
  }

  /** The items of 6 under the dense mask 0b1111. */
  lemma PrintingOneTwoItems(all: nat, last: nat)
    requires all == 15 && last == 4
    ensures "[" + Items(TestName, all, Members(6, 0, last)) + "]" == "[One, Two]"
  {
    assert !Bit(6, 0) && Bit(6, 1) && Bit(6, 2) && !Bit(6, 3);
    assert Members(6, 0, 4) == [1, 2];
    assert Bit(15, 1) && Bit(15, 2);
    assert Items(TestName, 15, [2]) == "Two";
  }

  /** `[Two, Four]` for the sparse set 0b10100. */
  lemma PrintingSparse(d: EnumDecl)
    requires IsSparse(d)
    ensures "[" + Items(SparseName, AllValue(d), Members(0x14, 0, Last(d))) + "]" == "[Two, Four]"
  {
    SparseFacts(d);
    PrintingSparseItems(AllValue(d), Last(d));
  }

  /** The items of 0b10100 under the sparse mask 0b10101. */
  lemma PrintingSparseItems(all: nat, last: nat)
    requires all == 0x15 && last == 5
    ensures "[" + Items(SparseName, all, Members(0x14, 0, last)) + "]" == "[Two, Four]"
  {
    assert !Bit(0x14, 0) && !Bit(0x14, 1) && Bit(0x14, 2) && !Bit(0x14, 3) && Bit(0x14, 4);
    assert Members(0x14, 0, 5) == [2, 4];
    assert Bit(0x15, 2) && Bit(0x15, 4);
    assert Items(SparseName, 0x15, [4]) == "Four";
  }
}
