# Cartesian-product data source, modelled in Dafny

This project models `RCombinedDS`, the RDataSource of the O2 analysis framework
that joins two row sources into their cartesian product. One flat entry index
walks every (left row, right row) pair: the left source is the outer loop and
the right source the inner one. The combined source exposes the left source's
columns under a left prefix and the right source's columns under a right
prefix, and it routes a prefixed column name back to the source it came from.

Layout:

- `wrappers.dfy`: `Option`, and `Result` whose error carries the message of the
  `std::runtime_error` the source throws.
- `index_split.dfy` (module `IndexSplit`): the integer side. `ULong64_t` and
  `unsigned int` are the subset types `u64` and `u32`. The module holds the
  div/mod split of a flat entry (`Split`), its inverse (`Join`), the ranges
  `Initialise` builds (`EntryRanges`, with the 64-bit wrap-around of
  `fRightCount * i` written out), and `InitSlot`'s split as written. The lemmas
  prove that the split is a bijection onto the grid and that the ranges tile
  the product space.
- `routing.dfy` (module `Routing`): the prefix test and removal of
  `GetTypeName`/`HasColumn` (`Route`), the prefixed column list (`Prefixed`),
  and when right columns are reachable given that the left prefix is tested
  first.
- `data_source.dfy` (module `SubSource`): the two joined sources as abstract
  objects. Each has an ordered column list and a map from column name to type
  name. It also records the last `SetEntry`/`InitSlot` (slot, entry) it
  received, the last slot count it was given, and how often it was initialised.
- `combined_ds.dfy` (module `Combined`): the class `CombinedSource` with the
  fields of `RCombinedDS` and its methods. It also holds the lemmas that the
  exposed column list and the routing agree.

`C++`'s `colName.compare(0, p.size(), p) == 0` holds exactly when `p` is a
prefix of `colName` (a shorter name never matches), so it is Dafny's `p <= colName`.
Division by zero is undefined in C++, so `SetEntry` requires a non-zero right
count and `InitSlot` requires non-zero counts on both sides.
The row counts, which the source obtains from `RDataFrame::Count()`, are
constructor parameters.

## Model

| member | source | states |
|---|---|---|
| `Combined.CombinedSource.constructor` | Framework/Core/src/RCombinedDS.cxx:49-69 | the column list is every left name with the left prefix, in order, followed by every right name with the right prefix; no ranges yet; prefixes and counts stored as given |
| `Combined.CombinedSource.GetColumnNames` | Framework/Core/src/RCombinedDS.cxx:77-80 | the list's length is the sum of the two sources' column counts; position i holds left name i prefixed, position nLeft + j holds right name j prefixed |
| `Combined.CombinedSource.GetEntryRanges` | Framework/Core/src/RCombinedDS.cxx:82-86 | returns the accumulated ranges and leaves the stored list empty, so a second call with no `Initialise` in between returns nothing |
| `Combined.CombinedSource.GetTypeName` | Framework/Core/src/RCombinedDS.cxx:88-99 | a name with the left prefix is asked of the left source without it (even if it also has the right prefix); otherwise a name with the right prefix is asked of the right source; otherwise the error "Column not found: " + name |
| `Combined.CombinedSource.HasColumn` | Framework/Core/src/RCombinedDS.cxx:101-112 | same left-first routing, false when neither prefix matches, and true exactly when `GetTypeName` succeeds |
| `Combined.CombinedSource.SetEntry` | Framework/Core/src/RCombinedDS.cxx:114-121 | returns true; both sources get the same slot; left row * rightCount + right row == entry, right row < rightCount, and left row < leftCount when the entry is inside the product space |
| `Combined.CombinedSource.InitSlot` | Framework/Core/src/RCombinedDS.cxx:123-129 | both sources get the slot; the right source gets entry % rightCount, the left source entry / leftCount (as written) |
| `Combined.CombinedSource.SetNSlots` | Framework/Core/src/RCombinedDS.cxx:131-138 | requires the combined slot count to be zero, forwards n unchanged to both sources, and changes nothing else |
| `Combined.CombinedSource.Initialise` | Framework/Core/src/RCombinedDS.cxx:154-162 | appends exactly `EntryRanges(leftCount, rightCount)` to the stored ranges and initialises each source once |
| `Combined.ListedColumnResolves` | Framework/Core/src/RCombinedDS.cxx:62-112 | with prefixes neither of which starts the other, every exposed column is found and has the type its own source gives the unprefixed name |
| `Combined.ResolvedColumnIsListed` | Framework/Core/src/RCombinedDS.cxx:62-112 | whatever the prefixes, every name `HasColumn` accepts is in the exposed column list |
| `Routing.Route` | Framework/Core/src/RCombinedDS.cxx:90-97 | a name is routed iff it starts with one of the prefixes; it goes left iff it starts with the left prefix; the prefix followed by the remainder is the name |
| `Routing.Prefixed` | Framework/Core/src/RCombinedDS.cxx:63-68 | same length as the names; element i is the prefix followed by name i |
| `Routing.PrefixedAppend` | Framework/Core/src/RCombinedDS.cxx:63-68 | prefixing a concatenation is the concatenation of the prefixed parts, which is what appending one name at a time relies on |
| `Routing.PrefixedSnoc` | Framework/Core/src/RCombinedDS.cxx:63-68 | prefixing one more name of a source extends the prefixed list by exactly that name with the prefix in front |
| `Routing.RouteLeftColumn` | Framework/Core/src/RCombinedDS.cxx:90-93 | an exposed left column is routed back to the left source under its own name |
| `Routing.RouteRightColumn` | Framework/Core/src/RCombinedDS.cxx:94-97 | an exposed right column is routed back to the right source under its own name when the prefixes are distinguishable |
| `Routing.RightColumnsReachableIff` | Framework/Core/src/RCombinedDS.cxx:88-112 | every right column is routed to the right source if and only if neither prefix starts the other; otherwise the left-first test shadows some right column |
| `IndexSplit.Split` | Framework/Core/src/RCombinedDS.cxx:116-117 | left * rightCount + right == entry and right < rightCount |
| `IndexSplit.JoinSplit` | Framework/Core/src/RCombinedDS.cxx:116-117 | joining the split of an entry gives the entry back |
| `IndexSplit.SplitJoin` | Framework/Core/src/RCombinedDS.cxx:116-117 | splitting the entry of any grid cell (right < rightCount) gives that cell back |
| `IndexSplit.SplitInGrid` | Framework/Core/src/RCombinedDS.cxx:116-117 | an entry below leftCount * rightCount splits into a left row below leftCount and a right row below rightCount |
| `IndexSplit.InitSlotSplit` | Framework/Core/src/RCombinedDS.cxx:125-126 | the left entry is the quotient by the left count; the right entry is the same as `SetEntry`'s |
| `IndexSplit.InitSlotMismatch` | Framework/Core/src/RCombinedDS.cxx:125 | with 3 left rows and 2 right rows, entry 4 is the pair (2, 0) but `InitSlot` gives the left source row 1 |
| `IndexSplit.InitSlotAgreesIff` | Framework/Core/src/RCombinedDS.cxx:123-129 | `InitSlot` and `SetEntry` split every entry of the product space alike if and only if both sources have the same row count |
| `IndexSplit.EntryRanges` | Framework/Core/src/RCombinedDS.cxx:156-158 | one range per left row |
| `IndexSplit.RangeAtExact` | Framework/Core/src/RCombinedDS.cxx:157 | without wrap-around, range i is [rightCount * i, rightCount * (i + 1)) and ends inside the product space |
| `IndexSplit.RangesTile` | Framework/Core/src/RCombinedDS.cxx:156-158 | when leftCount * rightCount < 2^64, range i is [rightCount * i, rightCount * (i + 1)), each starts where the previous one ends, the first starts at 0 and the last ends at leftCount * rightCount |
| `IndexSplit.RangeOfEntry` | Framework/Core/src/RCombinedDS.cxx:156-158 | every entry of the product space lies in exactly one range, the one of the left row `SetEntry` gives it to |
| `IndexSplit.RangesCoverExactly` | Framework/Core/src/RCombinedDS.cxx:156-158 | an entry lies in some range if and only if it is below leftCount * rightCount |

## Left out

- Construction of the two `RDataFrame` objects and the `Count()` calls: the row counts are constructor parameters.
- `GetColumnReadersImpl`: reader plumbing through `void*` that ends in `assert(false)`; it is not modelled.
- `MakeCombinedDataFrame`, a one-line factory, and the destructor: not modelled.
- The `#define protected public` hack: a compilation trick with no behaviour.
- Concurrent slots: slots are opaque numbers that are only forwarded.
- The sub-sources: they are abstract objects. Their `HasColumn` and `GetTypeName` are lookups in a name-to-type map. Their `SetEntry`, `InitSlot`, `SetNSlots` and `Initialise` only record the call. `SetEntry`'s own return value is ignored by the combined source, as in the source.
- `fNSlots`: its declaration is in `RCombinedDS.h`, which is not part of this model. It is taken to start at 0. Nothing in `RCombinedDS.cxx` assigns it, so the model's `SetNSlots` leaves it at 0. The assertion therefore never fires, even on a second call.
- `GetEntryRanges`: a moved-from `std::vector` is left valid but unspecified by the C++ standard. The model takes it to be empty, as the source's comment says and common library implementations do.
- `Initialise`: when leftCount * rightCount reaches 2^64, the products wrap around. The model computes the wrapped values, but the tiling lemmas are stated only below that bound.
- `CCDB/src/BackendRiak.cxx` (zlib and protobuf glue), `Detectors/TPC/reconstruction/test/testTPCFastTransform.cxx` (floating-point tests) and `Detectors/MUON/MID/Base/include/MIDBase/HitFinder.h` (declarations only) are not part of this model.

## Findings

| source | as written | input that shows it | evidently intended | confidence | as-written member | corrected member |
|---|---|---|---|---|---|---|
| Framework/Core/src/RCombinedDS.cxx:125 | `InitSlot` gives the left source `entry / fLeftCount` | 3 left rows, 2 right rows, entry 4: `InitSlot` gives left row 1, but entry 4 is the pair (2, 0) that `SetEntry` uses | `entry / fRightCount`, the same split as `SetEntry` | not executed; high, because the two agree on every entry only when both row counts are equal (`InitSlotAgreesIff`) | `IndexSplit.InitSlotMismatch` | `IndexSplit.SplitJoin` |

`Combined.CombinedSource.InitSlot` keeps the split as written, so the model stays faithful to the source. `SetEntry` and the range lemmas use the corrected split, `Split`, which `SplitJoin` and `JoinSplit` prove to be a bijection onto the grid.
