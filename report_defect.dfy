// src/modules/production/actions/reportDefect.ts: reporting a printed item
// defective. The item is marked DEFECTIVE through `updateItemStatus`, and a
// rework item of the same part, back at UNPRINTED, is written through
// `createItems` under the original's storage case with " (RE)" appended.

module ReportDefect {
  import opened Common
  import opened Stages
  import opened Store
  import opened Errors
  import opened ItemService

  /** `${storage_case} (RE)`: the storage case of a rework item. */
  function ReworkLabel(storageCase: string): string
  {
    storageCase + " (RE)"
  }

  /** The items after the item at `k` has been reported defective: it is
      marked DEFECTIVE, then one rework item is appended. */
  function DefectReported(items: seq<PartItem>, k: nat, now: Timestamp): seq<PartItem>
    requires k < |items|
  {
    var marked := items[k := WithStatus(items[k], DEFECTIVE, now)];
    marked + NewItems(NextId(ItemIds(marked)), items[k].partId, [ReworkLabel(items[k].storageCase)], UNPRINTED, now, None)
  }

  /** The item stays where it is, DEFECTIVE, without a completion time, in its
      box and of its part; every other item is untouched; exactly one item is
      added at the end: of the same part, in the box labelled with " (RE)",
      UNPRINTED, under an id above every id in use, the defective item's
      included. */
  lemma DefectReportedSpec(items: seq<PartItem>, k: nat, now: Timestamp)
    requires k < |items|
    ensures var after := DefectReported(items, k, now);
      && |after| == |items| + 1
      && after[k].id == items[k].id && after[k].partId == items[k].partId
      && after[k].storageCase == items[k].storageCase
      && after[k].status == DEFECTIVE && after[k].completedAt.None?
      && (forall j :: 0 <= j < |items| && j != k ==> after[j] == items[j])
      && after[|items|] == PartItem(NextId(ItemIds(items)), items[k].partId, ReworkLabel(items[k].storageCase),
                                    UNPRINTED, None, Some(now), None)
      && (forall j :: 0 <= j < |items| ==> items[j].id < after[|items|].id)
  {
    var marked := items[k := WithStatus(items[k], DEFECTIVE, now)];
    WithStatusKeepsIds(items, k, DEFECTIVE, now);
    var cases := [ReworkLabel(items[k].storageCase)];
    NewItemsAt(NextId(ItemIds(items)), items[k].partId, cases, UNPRINTED, now, None);
    assert forall j :: 0 <= j < |items| ==> ItemIds(items)[j] == items[j].id;
  }

  /** Reporting a defect keeps ids unique and in order. */
  lemma DefectReportedValid(items: seq<PartItem>, k: nat, now: Timestamp)
    requires k < |items| && Ascending(ItemIds(items))
    ensures Ascending(ItemIds(DefectReported(items, k, now)))
  {
    var marked := items[k := WithStatus(items[k], DEFECTIVE, now)];
    WithStatusKeepsIds(items, k, DEFECTIVE, now);
    AppendNewItemsValid(marked, items[k].partId, [ReworkLabel(items[k].storageCase)], UNPRINTED, now, None);
  }

  /** The item `reportDefect` looks up: the id converted as the action does,
      then the document with that id; a `NaN` id names no document. */
  function DefectTarget(items: seq<PartItem>, itemId: IdArg): (k: Option<nat>)
    ensures k.Some? ==> k.value < |items| && ResolveId(itemId) == Some(items[k.value].id)
    ensures k.None? <==> ResolveId(itemId).None? || forall j :: 0 <= j < |items| ==> items[j].id != ResolveId(itemId).value
  {
    match ResolveId(itemId)
    case None => None
    case Some(id) => FindItem(items, id)
  }

  /** `reportDefect`. The reason is only logged, so it is not a parameter. */
  method ReportDefect(db: Db, itemId: IdArg, now: Timestamp) returns (r: Result<(), ServiceError>)
    requires db.Valid()
    modifies db
    ensures db.Valid() && db.parts == old(db.parts)
    ensures DefectTarget(old(db.items), itemId).None? ==> r == Err(ItemNotFound) && db.items == old(db.items)
    ensures DefectTarget(old(db.items), itemId).Some? ==>
      r == Ok(()) && db.items == DefectReported(old(db.items), DefectTarget(old(db.items), itemId).value, now)
  {
    var target := DefectTarget(db.items, itemId);
    if target.None? {
      return Err(ItemNotFound);
    }
    var id := ResolveId(itemId).value;
    var itemData := db.items[target.value];
    var updated := UpdateItemStatus(db, id, DEFECTIVE, now);
    var created := CreateItems(db, itemData.partId, 1, [ReworkLabel(itemData.storageCase)], UNPRINTED, now);
    return Ok(());
  }
}
