/** The integer side of the cartesian-product data source: one flat entry
    index walks every (left row, right row) pair, the left source being the
    outer loop and the right source the inner one. */
module IndexSplit {

  /** `ULong64_t` and `unsigned int`. */
  const U64_LIMIT: nat := 0x1_0000_0000_0000_0000
  const U32_LIMIT: nat := 0x1_0000_0000

  type u64 = x: nat | x < U64_LIMIT
  type u32 = x: nat | x < U32_LIMIT

  /** Unsigned 64-bit arithmetic keeps its result modulo 2^64. */
  function Wrap64(x: nat): (r: u64)
    ensures x < U64_LIMIT ==> r == x
  {
    x % U64_LIMIT
  }

  /** The entries handed to the left and the right sub-source. */
  datatype EntryPair = EntryPair(left: u64, right: u64)

  /** A half-open range [begin, end) of flat entries. */
  datatype EntryRange = EntryRange(begin: u64, end: u64)

  /** `SetEntry`'s split of a flat entry: the left row is the quotient and the
      right row the remainder by the right row count. */
  function Split(rightCount: u64, entry: u64): (p: EntryPair)
    requires rightCount > 0
    ensures p.left * rightCount + p.right == entry
    ensures p.right < rightCount
  {
    EntryPair(entry / rightCount, entry % rightCount)
  }

  /** The flat entry of the pair (left row, right row): the inverse of Split. */
  function Join(rightCount: u64, left: nat, right: nat): nat
  {
    left * rightCount + right
  }

  /** `InitSlot`'s split as written: the left row divides by the LEFT count. */
  function InitSlotSplit(leftCount: u64, rightCount: u64, entry: u64): (p: EntryPair)
    requires leftCount > 0 && rightCount > 0
    ensures p.left * leftCount <= entry < (p.left + 1) * leftCount
    ensures p.right == Split(rightCount, entry).right
  {
    EntryPair(entry / leftCount, entry % rightCount)
  }

  /** The i-th range `Initialise` appends: [rightCount * i, rightCount * (i + 1)),
      both products computed in 64-bit unsigned arithmetic. The caller keeps
      i below the left row count, so i + 1 itself never wraps. */
  function RangeAt(rightCount: u64, i: u64): EntryRange
  {
    EntryRange(Wrap64(rightCount * i), Wrap64(rightCount * (i + 1)))
  }

  /** Every range `Initialise` appends, one per left row, in order. */
  function EntryRanges(leftCount: u64, rightCount: u64): (rs: seq<EntryRange>)
    ensures |rs| == leftCount
  {
    seq(leftCount, i requires 0 <= i < leftCount => RangeAt(rightCount, i))
  }

  // ---------------------------------------------------------------------
  // Arithmetic helpers

  lemma MulMonotone(a: nat, b: nat, c: nat)
    requires a <= b
    ensures a * c <= b * c
  {
  }

  /** Quotient and remainder are unique. */
  lemma DivModUnique(e: nat, d: nat, q: nat, m: nat)
    requires d > 0 && m < d && e == q * d + m
    ensures e / d == q && e % d == m
  {
    var q', m' := e / d, e % d;
    assert q' * d + m' == q * d + m;
    if q' > q {
      MulMonotone(1, q' - q, d);
      assert false;
    } else if q' < q {
      MulMonotone(1, q - q', d);
      assert false;
    }
  }

  // ---------------------------------------------------------------------
  // The split is a bijection onto the left x right grid

  /** Joining the split of an entry gives the entry back. */
  lemma JoinSplit(rightCount: u64, entry: u64)
    requires rightCount > 0
    ensures Join(rightCount, Split(rightCount, entry).left, Split(rightCount, entry).right) == entry
  {
  }

  /** Splitting the entry of any grid cell gives that cell back. */
  lemma {:induction false} SplitJoin(rightCount: u64, left: u64, right: u64)
    requires right < rightCount
    requires Join(rightCount, left, right) < U64_LIMIT
    ensures Split(rightCount, Join(rightCount, left, right) as u64) == EntryPair(left, right)
  {
    DivModUnique(Join(rightCount, left, right), rightCount, left, right);
  }

  /** An entry inside the product space splits into a row of each source. */
  lemma SplitInGrid(leftCount: u64, rightCount: u64, entry: u64)
    requires entry < leftCount * rightCount
    ensures rightCount > 0
    ensures Split(rightCount, entry).left < leftCount
    ensures Split(rightCount, entry).right < rightCount
  {
  }

  // ---------------------------------------------------------------------
  // The ranges tile [0, leftCount * rightCount)

  /** Without wrap-around, the i-th range is exactly
      [rightCount * i, rightCount * (i + 1)) and ends inside the product space. */
  lemma RangeAtExact(leftCount: u64, rightCount: u64, i: u64)
    requires leftCount * rightCount < U64_LIMIT
    requires i < leftCount
    ensures RangeAt(rightCount, i).begin == rightCount * i
    ensures RangeAt(rightCount, i).end == rightCount * (i + 1)
    ensures rightCount * (i + 1) <= leftCount * rightCount
  {
    MulMonotone(i + 1, leftCount, rightCount);
    MulMonotone(i, i + 1, rightCount);
  }

  /** Without wrap-around the i-th range is exactly
      [rightCount * i, rightCount * (i + 1)), consecutive ranges meet, the
      first starts at 0 and the last ends at leftCount * rightCount. */
  lemma {:induction false} RangesTile(leftCount: u64, rightCount: u64)
    requires leftCount * rightCount < U64_LIMIT
    ensures forall i :: 0 <= i < leftCount ==>
              EntryRanges(leftCount, rightCount)[i].begin == rightCount * i &&
              EntryRanges(leftCount, rightCount)[i].end == rightCount * (i + 1)
    ensures forall i :: 0 <= i < leftCount ==>
              EntryRanges(leftCount, rightCount)[i].end <= leftCount * rightCount
    ensures forall i :: 0 < i < leftCount ==>
              EntryRanges(leftCount, rightCount)[i].begin == EntryRanges(leftCount, rightCount)[i - 1].end
    ensures leftCount > 0 ==> EntryRanges(leftCount, rightCount)[0].begin == 0
    ensures leftCount > 0 ==> EntryRanges(leftCount, rightCount)[leftCount - 1].end == leftCount * rightCount
  {
    var rs := EntryRanges(leftCount, rightCount);
    forall i | 0 <= i < leftCount
      ensures rs[i].begin == rightCount * i && rs[i].end == rightCount * (i + 1)
      ensures rs[i].end <= leftCount * rightCount
    {
      RangeAtExact(leftCount, rightCount, i);
    }
    forall i | 0 < i < leftCount
      ensures rs[i].begin == rs[i - 1].end
    {
      var k := i - 1;
      assert rs[k].end == rightCount * (k + 1);
      assert k + 1 == i;
    }
    if leftCount > 0 {
      var k := leftCount - 1;
      assert rs[k].end == rightCount * (k + 1);
      assert k + 1 == leftCount;
    }
  }

  /** Every entry of the product space lies in exactly one range: the one of
      the left row `SetEntry` gives the entry to. */
  lemma {:induction false} RangeOfEntry(leftCount: u64, rightCount: u64, entry: u64)
    requires leftCount * rightCount < U64_LIMIT
    requires entry < leftCount * rightCount
    ensures rightCount > 0 && Split(rightCount, entry).left < leftCount
    ensures var i := Split(rightCount, entry).left;
            EntryRanges(leftCount, rightCount)[i].begin <= entry < EntryRanges(leftCount, rightCount)[i].end
    ensures forall j :: 0 <= j < leftCount &&
              EntryRanges(leftCount, rightCount)[j].begin <= entry < EntryRanges(leftCount, rightCount)[j].end
              ==> j == Split(rightCount, entry).left
  {
    SplitInGrid(leftCount, rightCount, entry);
    RangesTile(leftCount, rightCount);
    var rs := EntryRanges(leftCount, rightCount);
    var i := Split(rightCount, entry).left;
    assert rs[i].begin == rightCount * i && rs[i].end == rightCount * (i + 1);
    forall j | 0 <= j < leftCount && rs[j].begin <= entry < rs[j].end
      ensures j == i
    {
      assert rs[j].begin == rightCount * j && rs[j].end == rightCount * (j + 1);
      DivModUnique(entry, rightCount, j, entry - rightCount * j);
    }
  }

  /** No range reaches past the product space, so an entry lies in some range
      exactly when it is below leftCount * rightCount. */
  lemma {:induction false} RangesCoverExactly(leftCount: u64, rightCount: u64, entry: u64)
    requires leftCount * rightCount < U64_LIMIT
    ensures (exists j :: 0 <= j < leftCount &&
               EntryRanges(leftCount, rightCount)[j].begin <= entry < EntryRanges(leftCount, rightCount)[j].end)
            <==> entry < leftCount * rightCount
  {
    RangesTile(leftCount, rightCount);
    if entry < leftCount * rightCount {
      RangeOfEntry(leftCount, rightCount, entry);
      var i := Split(rightCount, entry).left;
      assert 0 <= i < leftCount &&
        EntryRanges(leftCount, rightCount)[i].begin <= entry < EntryRanges(leftCount, rightCount)[i].end;
    }
  }

  // ---------------------------------------------------------------------
  // InitSlot divides by the wrong count

  /** A concrete entry on which `InitSlot` and `SetEntry` disagree:
      with 3 left rows and 2 right rows, entry 4 is the pair (2, 0), but
      `InitSlot` hands the left source row 1. */
  lemma InitSlotMismatch()
    ensures 4 < 3 * 2
    ensures Split(2, 4) == EntryPair(2, 0)
    ensures InitSlotSplit(3, 2, 4) == EntryPair(1, 0)
  {
  }

  /** `InitSlot` agrees with `SetEntry` on every entry of the product space
      exactly when both sources have the same number of rows. */
  lemma {:induction false} InitSlotAgreesIff(leftCount: u64, rightCount: u64)
    requires leftCount > 0 && rightCount > 0
    requires leftCount * rightCount < U64_LIMIT
    ensures (forall e: u64 :: e < leftCount * rightCount ==>
               InitSlotSplit(leftCount, rightCount, e) == Split(rightCount, e))
            <==> leftCount == rightCount
  {
    if leftCount < rightCount {
      MulMonotone(1, leftCount, rightCount);
      var e: u64 := leftCount;
      DivModUnique(e, leftCount, 1, 0);
      DivModUnique(e, rightCount, 0, e);
      assert InitSlotSplit(leftCount, rightCount, e).left == 1;
      assert Split(rightCount, e).left == 0;
    } else if leftCount > rightCount {
      MulMonotone(1, leftCount, rightCount);
      var e: u64 := rightCount;
      DivModUnique(e, rightCount, 1, 0);
      DivModUnique(e, leftCount, 0, e);
      assert InitSlotSplit(leftCount, rightCount, e).left == 0;
      assert Split(rightCount, e).left == 1;
    }
  }
}
