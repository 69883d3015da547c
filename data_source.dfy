/** One of the two row sources the cartesian-product data source joins, reduced
    to what the combined source observes of it: its columns, the type of each
    column, and the last calls the combined source forwarded to it. */
module SubSource {
  import opened Wrappers
  import opened IndexSplit

  /** A slot and the entry the source was positioned on for it. */
  datatype SlotEntry = SlotEntry(slot: u32, entry: u64)

  class DataSource {
    /** Its column names, in its own order, and the type name of each column. */
    const names: seq<string>
    const types: map<string, string>

    /** What the last `SetEntry`, `InitSlot`, `SetNSlots` and `Initialise`
        calls did to it. */
    var lastSetEntry: Option<SlotEntry>
    var lastInitSlot: Option<SlotEntry>
    var nSlots: u32
    var initialiseCalls: nat

    constructor(names: seq<string>, types: map<string, string>)
      ensures this.names == names && this.types == types
      ensures lastSetEntry == None && lastInitSlot == None
      ensures nSlots == 0 && initialiseCalls == 0
    {
      this.names, this.types := names, types;
      lastSetEntry, lastInitSlot := None, None;
      nSlots, initialiseCalls := 0, 0;
    }

    /** Its column list and its type lookup describe the same columns. */
    ghost predicate Valid()
    {
      forall n :: n in types <==> n in names
    }

    predicate HasColumn(colName: string)
    {
      colName in types
    }

    function GetTypeName(colName: string): (r: Result<string>)
      ensures r.Ok? <==> HasColumn(colName)
      ensures r.Ok? ==> r.value == types[colName]
    {
      if colName in types then Ok(types[colName]) else Err("Column not found: " + colName)
    }

    method SetEntry(slot: u32, entry: u64)
      modifies this`lastSetEntry
      ensures lastSetEntry == Some(SlotEntry(slot, entry))
    {
      lastSetEntry := Some(SlotEntry(slot, entry));
    }

    method InitSlot(slot: u32, entry: u64)
      modifies this`lastInitSlot
      ensures lastInitSlot == Some(SlotEntry(slot, entry))
    {
      lastInitSlot := Some(SlotEntry(slot, entry));
    }

    method SetNSlots(n: u32)
      modifies this`nSlots
      ensures nSlots == n
    {
      nSlots := n;
    }

    method Initialise()
      modifies this`initialiseCalls
      ensures initialiseCalls == old(initialiseCalls) + 1
    {
      initialiseCalls := initialiseCalls + 1;
    }
  }
}
