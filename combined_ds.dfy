/** The cartesian-product data source (`RCombinedDS`): it joins a left and a
    right source so that one flat entry index walks every (left row, right row)
    pair, the left source being the outer loop. */
module Combined {
  import opened Wrappers
  import opened IndexSplit
  import opened Routing
  import opened SubSource

  class CombinedSource {
    const left: DataSource
    const right: DataSource
    const leftPrefix: string
    const rightPrefix: string
    /** Row counts of the two sources, fixed at construction. */
    const leftCount: u64
    const rightCount: u64

    var columnNames: seq<string>
    var entryRanges: seq<EntryRange>
    var nSlots: u32

    /** The two sources are distinct objects, and the exposed columns are the
        left ones under the left prefix followed by the right ones under the
        right prefix. */
    ghost predicate Valid()
      reads this
    {
      && left != right
      && columnNames == Prefixed(leftPrefix, left.names) + Prefixed(rightPrefix, right.names)
    }

    constructor (inLeft: DataSource, inRight: DataSource, inLeftPrefix: string, inRightPrefix: string,
                 inLeftCount: u64, inRightCount: u64)
      requires inLeft != inRight
      ensures Valid()
      ensures left == inLeft && right == inRight
      ensures leftPrefix == inLeftPrefix && rightPrefix == inRightPrefix
      ensures leftCount == inLeftCount && rightCount == inRightCount
      ensures columnNames == Prefixed(inLeftPrefix, inLeft.names) + Prefixed(inRightPrefix, inRight.names)
      ensures entryRanges == [] && nSlots == 0
    {
      left, right := inLeft, inRight;
      leftPrefix, rightPrefix := inLeftPrefix, inRightPrefix;
      leftCount, rightCount := inLeftCount, inRightCount;
      columnNames, entryRanges, nSlots := [], [], 0;
      new;
      var i := 0;
      while i < |left.names|
        invariant 0 <= i <= |left.names|
        modifies this`columnNames
        invariant columnNames == Prefixed(leftPrefix, left.names[..i])
      {
        PrefixedSnoc(leftPrefix, left.names, i);
        columnNames := columnNames + [leftPrefix + left.names[i]];
        i := i + 1;
      }
      assert left.names[..i] == left.names;
      var j := 0;
      while j < |right.names|
        invariant 0 <= j <= |right.names|
        modifies this`columnNames
        invariant columnNames == Prefixed(leftPrefix, left.names) + Prefixed(rightPrefix, right.names[..j])
      {
        PrefixedSnoc(rightPrefix, right.names, j);
        columnNames := columnNames + [rightPrefix + right.names[j]];
        j := j + 1;
      }
      assert right.names[..j] == right.names;
    }

    /** The exposed column list: each left column under the left prefix, in
        order, then each right column under the right prefix. */
    function GetColumnNames(): (names: seq<string>)
      reads this
      requires Valid()
      ensures |names| == |left.names| + |right.names|
      ensures forall i :: 0 <= i < |left.names| ==> names[i] == leftPrefix + left.names[i]
      ensures forall j :: 0 <= j < |right.names| ==> names[|left.names| + j] == rightPrefix + right.names[j]
    {
      columnNames
    }

    /** Hands over the ranges accumulated so far and leaves none behind. */
    method GetEntryRanges() returns (ranges: seq<EntryRange>)
      requires Valid()
      modifies this`entryRanges
      ensures Valid()
      ensures ranges == old(entryRanges)
      ensures entryRanges == []
    {
      ranges := entryRanges;
      entryRanges := [];
    }

    /** The type of a prefixed column, asked of the source its prefix names;
        the left prefix is tested first, and a name with neither prefix is an
        error. */
    function GetTypeName(colName: string): (r: Result<string>)
      ensures leftPrefix <= colName ==> r == left.GetTypeName(colName[|leftPrefix|..])
      ensures !(leftPrefix <= colName) && rightPrefix <= colName ==>
                r == right.GetTypeName(colName[|rightPrefix|..])
      ensures !(leftPrefix <= colName) && !(rightPrefix <= colName) ==>
                r == Err("Column not found: " + colName)
    {
      match Route(leftPrefix, rightPrefix, colName)
      case None => Err("Column not found: " + colName)
      case Some(Routed(Left, rest)) => left.GetTypeName(rest)
      case Some(Routed(Right, rest)) => right.GetTypeName(rest)
    }

    /** Whether a prefixed column exists in the source its prefix names, by the
        same left-first routing; a name with neither prefix has no column. */
    function HasColumn(colName: string): (b: bool)
      ensures leftPrefix <= colName ==> (b <==> left.HasColumn(colName[|leftPrefix|..]))
      ensures !(leftPrefix <= colName) && rightPrefix <= colName ==>
                (b <==> right.HasColumn(colName[|rightPrefix|..]))
      ensures !(leftPrefix <= colName) && !(rightPrefix <= colName) ==> !b
      ensures b <==> GetTypeName(colName).Ok?
    {
      match Route(leftPrefix, rightPrefix, colName)
      case None => false
      case Some(Routed(Left, rest)) => left.HasColumn(rest)
      case Some(Routed(Right, rest)) => right.HasColumn(rest)
    }

    /** Positions the left source on the row `entry / rightCount` and the right
        source on the row `entry % rightCount`, for the same slot. */
    method SetEntry(slot: u32, entry: u64) returns (ok: bool)
      requires Valid() && rightCount > 0
      modifies left`lastSetEntry, right`lastSetEntry
      ensures ok
      ensures left.lastSetEntry == Some(SlotEntry(slot, Split(rightCount, entry).left))
      ensures right.lastSetEntry == Some(SlotEntry(slot, Split(rightCount, entry).right))
      ensures left.lastSetEntry.value.entry * rightCount + right.lastSetEntry.value.entry == entry
      ensures right.lastSetEntry.value.entry < rightCount
      ensures entry < leftCount * rightCount ==> left.lastSetEntry.value.entry < leftCount
    {
      var leftEntry: u64 := entry / rightCount;
      var rightEntry: u64 := entry % rightCount;
      left.SetEntry(slot, leftEntry);
      right.SetEntry(slot, rightEntry);
      if entry < leftCount * rightCount {
        SplitInGrid(leftCount, rightCount, entry);
      }
      ok := true;
    }

    /** Initialises a slot on an entry; as written, the left row is the entry
        divided by the LEFT row count. */
    method InitSlot(slot: u32, entry: u64)
      requires Valid() && leftCount > 0 && rightCount > 0
      modifies left`lastInitSlot, right`lastInitSlot
      ensures left.lastInitSlot == Some(SlotEntry(slot, InitSlotSplit(leftCount, rightCount, entry).left))
      ensures right.lastInitSlot == Some(SlotEntry(slot, InitSlotSplit(leftCount, rightCount, entry).right))
    {
      var leftEntry: u64 := entry / leftCount;
      var rightEntry: u64 := entry % rightCount;
      left.InitSlot(slot, leftEntry);
      right.InitSlot(slot, rightEntry);
    }

    /** Forwards the number of slots unchanged to both sources; its own slot
        count is never set, so the guard holds on every call. */
    method SetNSlots(n: u32)
      requires Valid() && nSlots == 0
      modifies left`nSlots, right`nSlots
      ensures left.nSlots == n && right.nSlots == n
      ensures nSlots == 0
    {
      left.SetNSlots(n);
      right.SetNSlots(n);
    }

    /** Appends one range per left row, each as long as the right row count,
        then initialises both sources. */
    method Initialise()
      requires Valid()
      modifies this`entryRanges, left`initialiseCalls, right`initialiseCalls
      ensures Valid()
      ensures entryRanges == old(entryRanges) + EntryRanges(leftCount, rightCount)
      ensures left.initialiseCalls == old(left.initialiseCalls) + 1
      ensures right.initialiseCalls == old(right.initialiseCalls) + 1
    {
      var i: u64 := 0;
      while i < leftCount
        invariant i <= leftCount
        modifies this`entryRanges
        invariant entryRanges == old(entryRanges) + EntryRanges(leftCount, rightCount)[..i]
      {
        entryRanges := entryRanges + [EntryRange((rightCount * i) % U64_LIMIT, (rightCount * (i + 1)) % U64_LIMIT)];
        assert EntryRanges(leftCount, rightCount)[..i + 1]
            == EntryRanges(leftCount, rightCount)[..i] + [RangeAt(rightCount, i)];
        i := i + 1;
      }
      assert EntryRanges(leftCount, rightCount)[..i] == EntryRanges(leftCount, rightCount);
      left.Initialise();
      right.Initialise();
    }
  }

  // ---------------------------------------------------------------------
  // The exposed columns and the routing agree

  /** With distinguishable prefixes, every exposed column is found, and its
      type is the type its own source gives the unprefixed column. */
  lemma ListedColumnResolves(ds: CombinedSource, k: nat)
    requires ds.Valid() && ds.left.Valid() && ds.right.Valid()
    requires Distinguishable(ds.leftPrefix, ds.rightPrefix)
    requires k < |ds.columnNames|
    ensures ds.HasColumn(ds.columnNames[k])
    ensures k < |ds.left.names| ==>
              ds.GetTypeName(ds.columnNames[k]) == Ok(ds.left.types[ds.left.names[k]])
    ensures k >= |ds.left.names| ==>
              ds.GetTypeName(ds.columnNames[k]) == Ok(ds.right.types[ds.right.names[k - |ds.left.names|]])
  {
  }

  /** Whatever the prefixes, a name that is found is one of the exposed
      columns. */
  lemma ResolvedColumnIsListed(ds: CombinedSource, colName: string)
    requires ds.Valid() && ds.left.Valid() && ds.right.Valid()
    requires ds.HasColumn(colName)
    ensures colName in ds.columnNames
  {
  }
}
