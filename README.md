# SN-923 production tracker: a Dafny model of its record-keeping rules

SN-923 tracks 3D-printed parts through production. A project has parts. A
part (a part number within a project) has part items: physical copies, each
kept in a storage case and moving through the stages UNPRINTED, PRINTED,
CUTTING, SURFACE_TREATMENT, PAINTING and ASSEMBLED, with DEFECTIVE as a side
state. This project models the rules that decide names, labels and records,
and proves what they guarantee:

- **STL filename parser** (`stlService.ts`, and its copy in
  `lib/utils/parseFileName.ts`). `PART-1_x5.stl` becomes part number `PART-1`
  and quantity 5, or an invalid result saying why. The regular expression
  `^(.+?)_[xX](\d+)$` is modelled by a scan from the end. That scan is proved
  to match exactly when the expression does, with the same groups.
- **Storage-box allocator** (`boxService.ts`). It collects the labels in use
  and hands out the lowest free `BOX-NNN` labels, one call at a time or as a
  preview per file.
- **Parts and items registry** over the Firestore collections `parts` and
  `partItems`:
  - get-or-create of a part;
  - `max + 1` ids;
  - item creation with its length check;
  - stage changes, where `completed_at` is tied to ASSEMBLED;
  - the per-part progress summary;
  - print registration and `createPrinted`;
  - STL import, one file, many files, and preview;
  - defect reporting with its ` (RE)` rework copy;
  - release of a storage case and the storage-box board.
- **Mock-data era**:
  - the array-backed `mockStore`;
  - its `reportDefect` and `consumeItem` actions;
  - the older `aggregateProgress` of `app/utils.ts`.

How the model is laid out:

- **Collections.** Each collection is a sequence of records held by the class
  `Store.Db`. Its invariant `Valid()` keeps ids ascending, so "the first
  document of a query" and "the document iterated last" are well defined.
- **Blob store.** The upload is a function parameter, `Uploader`, that maps a
  storage path to a download URL or an error message.
- **Clock.** Every clock reading (`Date.now()`, `serverTimestamp()`,
  `new Date()`) is one `now` parameter.
- **Document keys.** A document's key is its record's `id`. Every writer
  keys a document by `String(id)` (itemService.ts:63, partService.ts:69,
  productionService.ts:67 and 90), and readers turn keys back into numbers
  with `Number(d.id)` (itemService.ts:27, partService.ts:60) or address a
  document by `String(id)` (reportDefect.ts:22, storageActions.ts:18).
- **Errors.** A thrown error is a `Result.Err` carrying the kind of failure
  (`Errors.ServiceError`).

Operations that change state in the source are methods. Each method is proved
against a function that gives the new state: `ImportOne`/`ImportAll`,
`Allocation`/`Preview`, `Updated`, `Board` and so on. The promises of the
source are lemmas about those functions.

Two behaviours of the source are kept as written:

- `importStl.ts` passes the project id on as a string, while print
  registration passes a number. A part created by one is therefore never
  found by the other (`Store.Part.projectId` is an `IdArg`).
- Item labels `AUTO-<part>-<n>` and `<case> (RE)` are never `BOX-NNN` labels,
  so they never occupy a box on the board
  (`StorageActions.ForeignItemLeavesBoardAlone`).

## Model

| member | source | states |
|---|---|---|
| Common.TrimSpec | src/modules/engineering/services/stlService.ts:41 | `trim()` removes exactly the white space and line terminators at both ends and keeps the middle intact |
| Common.BlankIffAllWhitespace | src/modules/inventory/services/boxService.ts:20 | a string trims to `''` exactly when every character is white space |
| Common.DecimalRoundTrip | src/modules/engineering/services/stlService.ts:42 | the digits of `String(n)` read back as `n` |
| Common.DecimalInjective | src/modules/engineering/services/stlService.ts:42 | different numbers have different decimal spellings |
| Common.ParseIntOfDecimal | src/modules/production/actions/reportDefect.ts:19 | `parseInt(String(n), 10)` is `n`, whatever non-digit text follows |
| Common.DistinctSpec | src/modules/production/services/itemService.ts:129 | `Array.from(new Set(xs))` holds each value once, in first-occurrence order |
| Stages.IndexOf | app/constants.ts:3-10 | a stage's position in PROCESSES; -1 exactly for DEFECTIVE, which PROCESSES lacks |
| Stages.IndexOfInjective | app/constants.ts:3-10 | no two statuses share a position |
| AppTypes.IndexOf | app/types.ts:1-7 | `indexOf` on PROCESSES keys compares spellings, so READY and DEFECTIVE sit at -1 and every other process at its stage |
| StlService.StripStlSpec | src/modules/engineering/services/stlService.ts:24 | only a trailing `.stl` or `.STL` is removed; `.Stl` stays in the stem; the stem is the name or the name less one of the two suffixes |
| StlService.MatchIffRegex | src/modules/engineering/services/stlService.ts:37-38 | the scan matches with groups (prefix, digits) exactly when `^(.+?)_[xX](\d+)$` does |
| StlService.NoMatchMeansNoSplit | src/modules/engineering/services/stlService.ts:37-40 | when the scan finds nothing, no split of the stem fits the pattern |
| StlService.ParseFileName | src/modules/engineering/services/stlService.ts:22-91 | `originalFileName` is the input on every branch; quantity is at least 1; valid iff no error message; a valid result has a non-empty part number and quantity at most 1000 |
| StlService.ParseEmptyStem | src/modules/engineering/services/stlService.ts:26-34 | an empty stem is invalid with part number `''` and quantity 1 |
| StlService.ParseWithQuantity | src/modules/engineering/services/stlService.ts:40-69 | with a `_x<N>` suffix the part number is the trimmed prefix and the quantity N; an empty prefix is invalid; N outside 1..1000 is invalid, keeps the part number and falls back to quantity 1 |
| StlService.ParseWithoutQuantity | src/modules/engineering/services/stlService.ts:73-90 | without a suffix the part number is the trimmed stem, quantity 1, valid iff that is non-empty |
| StlService.FormatThenParse | src/modules/engineering/services/stlService.ts:22-91 | round trip: parsing `<pn>_x<q>.stl` for a clean part number and 1 <= q <= 1000 gives back `pn` and `q` |
| StlService.FormatPlainThenParse | src/modules/engineering/services/stlService.ts:22-91 | round trip: parsing `<pn>.stl` gives back `pn` with quantity 1 |
| StlService.ParseFileNames | src/modules/engineering/services/stlService.ts:99-101 | one result per name, in order, each the parse of that name |
| StlService.FilterValidParsedInfos | src/modules/engineering/services/stlService.ts:109-111 | keeps only valid entries, and every valid entry |
| StlService.FilterAppend | src/modules/engineering/services/stlService.ts:109-111 | filtering distributes over concatenation, so the original order is kept |
| StlService.FilterIndex | src/modules/engineering/services/stlService.ts:109-111 | a valid entry lands in the filtered list at the number of valid entries before it |
| StlService.StoragePathPerTime | src/modules/production/services/productionService.ts:34-35 | uploads of one part at different times get different storage paths |
| ParseFileNameUtil.ParseFileName | lib/utils/parseFileName.ts:32-101 | this copy of the parser gives the same result as the stlService parser for every input |
| ParseFileNameUtil.ParseFileNames | lib/utils/parseFileName.ts:109-111 | agrees with the stlService `parseFileNames` on every input |
| ParseFileNameUtil.FilterValidParsedInfos | lib/utils/parseFileName.ts:119-121 | agrees with the stlService filter on every input |
| Store.NextId | src/modules/production/services/itemService.ts:25-29 | the next id is 1 for an empty table and otherwise one more than the largest id, so it is above every id in use |
| Store.FindItem | src/modules/production/services/itemService.ts:82 | the document with an id: none exactly when no record has it, else the first that has it |
| BoxService.LabelRoundTrip | src/modules/inventory/services/boxService.ts:37 | `BOX-` plus the padded number reads back as the number |
| BoxService.BoxLabelInjective | src/modules/inventory/services/boxService.ts:37 | different numbers give different labels |
| BoxService.LabelsBelowBound | src/modules/inventory/services/boxService.ts:35-42 | pigeonhole: if labels 1..k are all used, the used set has at least k members |
| BoxService.NextBox | src/modules/inventory/services/boxService.ts:34-43 | the label found is not in the used set |
| BoxService.NextBoxLowest | src/modules/inventory/services/boxService.ts:34-43 | the label found is `BOX-` plus the least n >= 1 whose label is free, and n <= size of the used set + 1, so the loop ends |
| BoxService.UsedBoxesSpec | src/modules/inventory/services/boxService.ts:18-23 | a label is in use iff it is some item's storage case, exactly as stored, and not blank |
| BoxService.GetUsedBoxes | src/modules/inventory/services/boxService.ts:14-26 | the `forEach` loop builds exactly `UsedBoxes` |
| BoxService.FindNextAvailableBox | src/modules/inventory/services/boxService.ts:34-43 | the `while` loop returns `NextBox`, a label not in the set; the set is a value and is not changed |
| BoxService.UsedAfterSpec | src/modules/inventory/services/boxService.ts:55-59 | after allocating, the used set is the old one plus exactly the labels handed out |
| BoxService.AllocationFresh | src/modules/inventory/services/boxService.ts:51-63 | the labels handed out are pairwise distinct and none was in use |
| BoxService.AllocationLabels | src/modules/inventory/services/boxService.ts:55-59 | each label handed out is `BOX-` plus a number >= 1 |
| BoxService.AllocationLowest | src/modules/inventory/services/boxService.ts:55-59 | labels come in strictly increasing numeric order and are the lowest free numbers: a free number is handed out iff it is at most the last one |
| BoxService.AllocationSplit | src/modules/inventory/services/boxService.ts:55-59 | allocating a + b equals allocating a and then b against the grown set |
| BoxService.AllocateFrom | src/modules/inventory/services/boxService.ts:55-59 | the `for` loop yields `Allocation` of max(quantity, 0) and the grown used set |
| BoxService.BoxLabelNonBlank | src/modules/inventory/services/boxService.ts:37 | no box label is blank, so an allocated label counts as used afterwards |
| BoxService.AllocationUnshared | src/modules/inventory/services/boxService.ts:51-63 | no allocated label is any existing item's storage case |
| BoxService.AllocateBoxes | src/modules/inventory/services/boxService.ts:51-63 | `allocateBoxes` returns the allocation of max(quantity, 0) labels against the labels in use |
| BoxService.Preview | src/modules/inventory/services/boxService.ts:71-86 | one list per quantity |
| BoxService.PreviewIsAllocation | src/modules/inventory/services/boxService.ts:75-83 | the preview lists joined together are `allocateBoxes` of the summed quantities against the same used set |
| BoxService.PreviewSizes | src/modules/inventory/services/boxService.ts:77-81 | list i has max(quantities[i], 0) labels |
| BoxService.PreviewFresh | src/modules/inventory/services/boxService.ts:71-86 | across all lists the labels are distinct and unused |
| BoxService.PreviewFreeAt | src/modules/inventory/services/boxService.ts:77-81 | no label of list k is in use |
| BoxService.PreviewApart | src/modules/inventory/services/boxService.ts:75-83 | two positions in the lists, in the same list or different lists, never hold the same label |
| BoxService.PreviewBoxAllocation | src/modules/inventory/services/boxService.ts:71-86 | the nested loops return `Preview` of the labels in use |
| PartService.FindPartByNumber | src/modules/inventory/services/partService.ts:24-45 | null iff no part has both the part number and the project id; a result has both |
| PartService.FindPartFirst | src/modules/inventory/services/partService.ts:40 | the result is the first matching document |
| PartService.FindAfterAppend | src/modules/inventory/services/partService.ts:24-45 | appending a part changes the answer only when nothing matched before and the new part matches |
| PartService.NewPart | src/modules/inventory/services/partService.ts:59-67 | the created part has a fresh id and the given number and project |
| PartService.AppendNewPartValid | src/modules/inventory/services/partService.ts:59-69 | writing the new part keeps part ids unique and ascending |
| PartService.CreatePart | src/modules/inventory/services/partService.ts:54-73 | adds exactly `NewPart` at the end; other parts and all items unchanged |
| PartService.EnsuredPart | src/modules/inventory/services/partService.ts:82-94 | the part returned matches the number and project |
| PartService.EnsuredParts | src/modules/inventory/services/partService.ts:82-94 | the table after the call holds that part, is the old table with at most one part appended |
| PartService.EnsureIdempotent | src/modules/inventory/services/partService.ts:82-94 | afterwards a lookup finds the part; a second call returns the same part and writes nothing |
| PartService.EnsurePartExists | src/modules/inventory/services/partService.ts:82-94 | returns the existing match with no write, or creates one; items unchanged |
| ItemService.NewItems | src/modules/production/services/itemService.ts:53-66 | one new item per storage box |
| ItemService.NewItemsAt | src/modules/production/services/itemService.ts:53-66 | item i has id first + i, box i, the status, no completion time, the update time |
| ItemService.NewItemsSnoc | src/modules/production/services/itemService.ts:53-66 | one more box adds one item with the next id |
| ItemService.AppendNewItemsValid | src/modules/production/services/itemService.ts:50-66 | new items from `generateNextItemId` onward keep ids unique and ascending |
| ItemService.CreateItems | src/modules/production/services/itemService.ts:40-70 | a box count other than the quantity fails before any write; otherwise it appends and returns exactly `NewItems` from the next id |
| ItemService.WriteItems | src/modules/production/services/itemService.ts:53-66 | the loop writes and returns `NewItems` in creation order |
| ItemService.WithStatus | src/modules/production/services/itemService.ts:84-88 | the status is set; `completed_at` is set iff the status is ASSEMBLED and cleared otherwise; id, part, storage case and URL untouched |
| ItemService.WithStatusKeepsIds | src/modules/production/services/itemService.ts:84-88 | a status change leaves every id in place |
| ItemService.UpdateItemStatus | src/modules/production/services/itemService.ts:78-91 | a missing document fails with no write; otherwise exactly that item takes `WithStatus` |
| ItemService.UpdateAll | src/modules/production/services/itemService.ts:103-104 | applying the updates in turn keeps every id |
| ItemService.FirstMissing | src/modules/production/services/itemService.ts:103-104 | none iff every listed id names an item; otherwise a listed id naming none |
| ItemService.UpdateAllSpec | src/modules/production/services/itemService.ts:99-107 | every item whose id is listed ends in the new status (by `WithStatus`); every other item is unchanged |
| ItemService.UpdateMultipleItemsStatus | src/modules/production/services/itemService.ts:99-107 | one update per id; the table becomes `UpdateAll`; fails iff some id names no item |
| ItemService.ItemsOfPart | src/modules/production/services/itemService.ts:113 | an item is kept iff it has the part's id; no longer than the input |
| ItemService.ItemsOfPartAppend | src/modules/production/services/itemService.ts:113 | the filter distributes over concatenation, so it keeps the part's items in their original order, each as often as it occurs |
| ItemService.ItemsOfPartCount | src/modules/production/services/itemService.ts:113 | the filtered list is as long as the number of positions holding an item with the part's id |
| ItemService.PositionsLast | src/modules/production/services/itemService.ts:113 | one more item adds one matching position exactly when it has the part's id |
| ItemService.EarliestStatusSpec | src/modules/production/services/itemService.ts:116-123 | the ASSEMBLED-seeded reduce returns one of the items' statuses, of least rank; DEFECTIVE (rank -1) wins |
| ItemService.AggregateProgress | src/modules/production/services/itemService.ts:111-133 | one row per part, in the parts' order; row i names part i and counts the items with its id |
| ItemService.ProgressStatusSpec | src/modules/production/services/itemService.ts:112-133 | a row names its part; its count is the number of positions holding an item with the part's id; no items means UNPRINTED; otherwise the least advanced item's status |
| ItemService.ProgressCasesSpec | src/modules/production/services/itemService.ts:129 | `storage_cases` lists each case of the part's items once, and no other, ordered by where each first occurs among the part's items |
| AppUtils.ItemsOfPart | app/utils.ts:7 | an item is kept iff it has the part's id; no longer than the input |
| AppUtils.ItemsOfPartAppend | app/utils.ts:7 | the filter distributes over concatenation, so it keeps the part's items in their original order, each as often as it occurs |
| AppUtils.ItemsOfPartCount | app/utils.ts:7 | the filtered list is as long as the number of positions holding an item with the part's id |
| AppUtils.PositionsLast | app/utils.ts:7 | one more item adds one matching position exactly when it has the part's id |
| AppUtils.RowCasesSpec | app/utils.ts:24 | `storage_cases` lists each case of the part's items once, and no other, ordered by where each first occurs among the part's items |
| AppUtils.AggregateProgressAsWritten | app/utils.ts:5-28 | the summary as written: one row per part, in order, naming it and counting its items; UNPRINTED when it has none |
| AppUtils.EarliestAsWrittenIsReady | app/utils.ts:11-17 | the READY-seeded reduce always returns READY: READY's index is -1 and no index is lower |
| AppUtils.AsWrittenReportsReady | app/utils.ts:12-18 | as written, every part with at least one item is reported READY |
| AppUtils.AsWrittenCounterexample | app/utils.ts:12-18 | a part whose only item is PRINTED is reported READY |
| AppUtils.Rank | app/utils.ts:11-17 | READY ranks after every stage, DEFECTIVE before every stage |
| AppUtils.RankInjective | app/utils.ts:11-17 | no two processes share a rank |
| AppUtils.EarliestSpec | app/utils.ts:12-17 | the corrected reduce returns one of the processes, of least rank, and READY iff all are READY |
| AppUtils.PartProcessSpec | app/utils.ts:12-18 | corrected reduce over a part's items: the process of one of them, of least rank, READY iff all are READY |
| AppUtils.AggregateProgress | app/utils.ts:5-28 | corrected summary: one row per part, in order, naming it and counting its items; UNPRINTED when it has none |
| AppUtils.ProgressSpec | app/utils.ts:5-28 | corrected summary: one row per part naming it, its count the number of positions holding an item with its id, UNPRINTED when none, else its least advanced item's process, READY iff all are READY |
| ProductionService.AutoLabels | src/modules/production/services/productionService.ts:78-93 | one label per copy |
| ProductionService.AutoLabelsAt | src/modules/production/services/productionService.ts:83 | copy i (0-based) is labelled `AUTO-<partNumber>-<i+1>` |
| ProductionService.AutoLabelsDistinct | src/modules/production/services/productionService.ts:83 | the copies' labels are pairwise distinct |
| ProductionService.RegisteredItems | src/modules/production/services/productionService.ts:78-93 | max(quantity, 0) items are written |
| ProductionService.RegisteredItemsSpec | src/modules/production/services/productionService.ts:43-93 | the part is found or created with the number and project; item i has id next + i (fresh), that part's id, label `AUTO-…-<i+1>`, the target status, no completion time, and the download URL |
| ProductionService.RegisterPrintedItems | src/modules/production/services/productionService.ts:25-97 | the upload comes first, and a failed upload writes nothing; otherwise the part is get-or-created, `RegisteredItems` are appended, and the input part number is returned with the URL |
| ProductionService.WriteCopies | src/modules/production/services/productionService.ts:78-93 | the loop appends exactly the labelled copies |
| ProductionService.CopiesStep | src/modules/production/services/productionService.ts:78-93 | one loop step appends the next copy |
| CreatePrinted.CreatePrinted | src/modules/production/actions/createPrinted.ts:22-56 | an invalid name fails with the parser's error and no writes; otherwise the parsed part number is registered with `qty` copies (the name's `_xN` is ignored), registration errors pass through, and the registered part number is returned |
| ImportStl.ImportFailureSpec | src/modules/engineering/actions/importStl.ts:54-67 | the result names the file; an invalid name fails with the parser's message (or the fallback kind when it gives none); a valid name whose upload is rejected fails with the store's message; the failures modelled (an invalid name, a failed upload) carry an error and leave both tables as they were |
| ImportStl.ImportedItemsSpec | src/modules/engineering/actions/importStl.ts:74-77 | the items made from `allocateBoxes(quantity)` are quantity many, of the part, in the status, with fresh ids and boxes shared with no existing item or with each other |
| ImportStl.ImportSuccessSpec | src/modules/engineering/actions/importStl.ts:64-89 | an import succeeds iff the name is valid and the upload completes; it reports the parsed part number and quantity and the ensured part's id, and appends exactly quantity items of that part in fresh, distinct, unused boxes |
| ImportStl.ImportSingleStl | src/modules/engineering/actions/importStl.ts:46-99 | the result and tables are `ImportOne`: the steps in order, and any failure becomes a result rather than an error |
| ImportStl.ImportAll | src/modules/engineering/actions/importStl.ts:109-127 | one result per file |
| ImportStl.ImportAllResults | src/modules/engineering/actions/importStl.ts:114-126 | result i names file i |
| ImportStl.ImportAllSnoc | src/modules/engineering/actions/importStl.ts:116-124 | one more file runs one more import on the tables the earlier ones left |
| ImportStl.ImportMultipleStl | src/modules/engineering/actions/importStl.ts:109-127 | the loop's results and tables are `ImportAll`: each file in order, a failure not stopping the rest |
| ImportStl.WithBoxes | src/modules/engineering/actions/importStl.ts:147-160 | one entry per parsed name |
| ImportStl.WithBoxesAt | src/modules/engineering/actions/importStl.ts:147-160 | an invalid entry is returned as parsed; the k-th valid entry gets the k-th allocation list |
| ImportStl.ValidRankIncreases | src/modules/engineering/actions/importStl.ts:153-154 | the counter `validIndex` grows strictly across valid entries |
| ImportStl.PreviewSpec | src/modules/engineering/actions/importStl.ts:135-161 | one entry per name; invalid entries unchanged; a valid entry gets exactly `quantity` unused boxes and is otherwise unchanged |
| ImportStl.PreviewApartByName | src/modules/engineering/actions/importStl.ts:140-159 | no box is previewed twice, within one file or across files |
| ImportStl.AttachBoxes | src/modules/engineering/actions/importStl.ts:147-160 | the mapping with its `validIndex` counter computes `WithBoxes` |
| ImportStl.PreviewFileNames | src/modules/engineering/actions/importStl.ts:135-161 | parse, filter, preview and zip give `PreviewParsed` of the labels in use |
| ReportDefect.DefectReportedSpec | src/modules/production/actions/reportDefect.ts:33-43 | the item becomes DEFECTIVE with `completed_at` cleared, its box and part kept; all other items unchanged; one item appended with the same part, box + ` (RE)`, UNPRINTED, under an id above every id |
| ReportDefect.DefectReportedValid | src/modules/production/actions/reportDefect.ts:38-43 | reporting keeps ids unique and ascending |
| ReportDefect.DefectTarget | src/modules/production/actions/reportDefect.ts:19-28 | the id is read with `parseInt(…, 10)` for strings; nothing is found iff it is NaN or names no item |
| ReportDefect.ReportDefect | src/modules/production/actions/reportDefect.ts:18-52 | a missing item gives 'Item not found' with no write; otherwise success and exactly `DefectReported` |
| StorageActions.ReleaseStorageCase | src/modules/inventory/actions/storageActions.ts:16-34 | a missing document fails with no write; otherwise only that item's storage case (now `''`) and update time change |
| StorageActions.ReleaseKeepsIds | src/modules/inventory/actions/storageActions.ts:18-22 | release clears the case, keeps the status and all ids, and leaves every other item alone |
| StorageActions.LastPartWithId | src/modules/inventory/actions/storageActions.ts:47-50 | the last part with an id, if any |
| StorageActions.PartNumberMapSpec | src/modules/inventory/actions/storageActions.ts:46-50 | the map has an id iff some part has it, and then holds the last such part's number |
| StorageActions.CollectPartNumbers | src/modules/inventory/actions/storageActions.ts:46-50 | the `forEach` builds `PartNumberMap` |
| StorageActions.UsageOf | src/modules/inventory/actions/storageActions.ts:58 | the part number is never empty (`'Unknown'` fallback) |
| StorageActions.LastHolder | src/modules/inventory/actions/storageActions.ts:53-61 | the last item with a storage case, if any |
| StorageActions.UsageMapSpec | src/modules/inventory/actions/storageActions.ts:52-62 | a label is in the map iff it is not blank and some item holds it, and then maps to the usage of the item iterated last |
| StorageActions.CollectUsages | src/modules/inventory/actions/storageActions.ts:52-62 | the `forEach` builds `UsageMap` |
| StorageActions.BoardRow | src/modules/inventory/actions/storageActions.ts:66-75 | one loop body builds the row for box i |
| StorageActions.GetStorageBoxStatus | src/modules/inventory/actions/storageActions.ts:40-83 | the loop returns `Board` of the usages of the current tables |
| StorageActions.ReportedPartNumber | src/modules/inventory/actions/storageActions.ts:58 | a reported part number is never empty |
| StorageActions.BoardSpec | src/modules/inventory/actions/storageActions.ts:64-76 | max(maxBoxNumber, 0) rows; row i is `BOX-` plus i+1 padded; used iff an item's case equals that label; unused rows have null fields; used rows report the last holder's status, id (null for 0) and part number |
| StorageActions.ForeignLabelsAreNotBoxes | src/modules/inventory/actions/storageActions.ts:64-71 | `AUTO-…` and `… (RE)` labels are never a `BOX-NNN` label |
| StorageActions.ForeignItemLeavesBoardAlone | src/modules/inventory/actions/storageActions.ts:52-76 | adding an item labelled `AUTO-…` or `… (RE)` changes no row of the board |
| StorageActions.ReleaseFreesBox | src/modules/inventory/actions/storageActions.ts:53-71 | after a release the box shows as used iff some other item still holds its label |
| MockStore.MergeSpec | lib/mockStore.ts:41 | the spread takes each field from the update when given, else keeps it; an empty update changes nothing; merging twice is merging once |
| MockStore.FindIndex | lib/mockStore.ts:39 | `findIndex`: none iff no item has the id, else the first with it |
| MockStore.FindPart | lib/mockStore.ts:34 | `find`: none iff no part has the id, else the first with it |
| MockStore.UpdatedSpec | lib/mockStore.ts:38-43 | the number of items is kept; an unknown id changes nothing; otherwise the first item with the id takes the merge and every other item is unchanged |
| MockStore.NextMockId | lib/mockStore.ts:46 | `Math.max(0, ...ids) + 1` is at least 1 and above every id |
| MockStore.MockStore.GetParts | lib/mockStore.ts:23-25 | returns the parts array |
| MockStore.MockStore.GetPartItems | lib/mockStore.ts:27-29 | returns the items array |
| MockStore.MockStore.GetPartItem | lib/mockStore.ts:31-36 | null iff no item has the id; otherwise the first such item, with the first part whose id is its `part_id`, or none |
| MockStore.MockStore.UpdatePartItem | lib/mockStore.ts:38-43 | the items become `Updated`; the parts are untouched |
| MockStore.MockStore.AddPartItem | lib/mockStore.ts:45-50 | appends exactly one item under `NextMockId` and returns it |
| AppActions.AfterDefectSpec | app/actions/reportDefect.ts:20-32 | the item becomes DEFECTIVE with every other field kept; others unchanged; one item appended with the same part, case + ` (RE)`, UNPRINTED, not completed, id above every existing id |
| AppActions.ReportDefect | app/actions/reportDefect.ts:11-40 | a NaN or unknown id changes nothing; otherwise the store becomes `AfterDefect`, and the action then fails iff the item's part is missing |
| AppActions.AfterConsumeSpec | app/actions/consumeItem.ts:13-17 | the item becomes READY in case `'CONSUMED'` with a completion time; item count and all other items unchanged; an unknown id changes nothing |
| AppActions.ConsumeItem | app/actions/consumeItem.ts:10-23 | the one merge into the store, through `parseInt` for string ids |

## Left out

- Firebase, Storage and Next.js plumbing (`revalidatePath`, `console`, HTTP
  routes, UI components) are not modelled. The upload is the `Uploader`
  parameter. `uploadStlFile` is represented only by its storage path.
- Clocks: `Date.now()`, `serverTimestamp()` and `new Date()` are a single
  `now` value per call. Calls within one operation share it.
- Concurrency is not modelled. Every operation is one sequential step on the
  tables. This covers the `Promise.all` of `updateMultipleItemsStatus`, the
  non-transactional reads inside `runTransaction`, and races on `max + 1` ids.
- PartService.FindPartByNumber: takes the first match in ascending numeric id
  order. Firestore orders documents by the id as a string, so with ids 2 and
  10 Firestore would return 10 first.
- StorageActions.UsageMapSpec: "iterated last" means last in ascending numeric
  id order, not Firestore's string order of document ids.
- Common.ResolveId: numeric ids are integers. A fractional number id is not
  modelled. A string that `parseInt` cannot read is `None`, standing for `NaN`.
- Errors carry their kind and data, not the message text. Error texts are in
  Japanese or English in the source.
- Read failures of `getDocs` are not modelled. This affects the
  `success: false` branch of `getStorageBoxStatus`. The failure branch of
  `releaseStorageCase` is modelled for the only write that can fail, an
  update of a missing document.
- The `reason` argument of both `reportDefect` actions is only logged, so it
  is not a parameter.
- Strings are sequences of Unicode characters. JavaScript's UTF-16 code units
  (for example a lone surrogate) are not modelled. `trim` uses the full
  ECMAScript white-space and line-terminator set.
- The mock store's global singleton and its `localStorage` save/load are not
  modelled.
- Thin delegating actions are not modelled: `app/actions/importStl.ts`,
  `app/actions/createPrinted.ts`, `app/actions/updateProcess.ts`,
  `app/actions/storageActions.ts`, and
  `src/modules/production/actions/{updateProcess,consumeItem,updateItemStatus}.ts`.
- `app/actions/updateItemStatus.ts` calls a store method that does not exist.
- Tests that describe functions that do not exist are not modelled.
- `createProject` is not part of this model.
- ImportStl.ImportFailureSpec: only an invalid name and a failed upload are
  modelled as failures. Firestore errors inside `ensurePartExists`,
  `allocateBoxes` or `createItems`, which `importStl.ts:91-98` also turns into
  `success: false`, are not. Such an error can leave the created part
  (partService.ts:69) or some of the items (itemService.ts:63) behind, so a
  real failure need not leave the tables as they were.
- Default arguments are not modelled: `maxBoxNumber = 100` of
  `getStorageBoxStatus`, `'CUTTING'` of `createItems` and the STL imports, and
  `'PRINTED'` of print registration. Callers pass every argument.

## Findings

| source | as written | input that shows it | evidently intended | confidence | as-written member | corrected member |
|---|---|---|---|---|---|---|
| app/utils.ts:12-18 | the reduce is seeded with `'READY'`, whose `indexOf` among the PROCESSES keys is -1; no process has a lower index, so the seed is never replaced | one part `A-01` (id 1) with one item at PRINTED: the summary reports READY | the least advanced process, with READY (finished) ranking after every stage, as the comment on line 10 says | high; not executed | AppUtils.AsWrittenCounterexample | AppUtils.ProgressSpec |
