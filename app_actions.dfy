// The server actions of the mock-data era that change the store:
// app/actions/reportDefect.ts (mark an item DEFECTIVE and append a rework
// copy) and app/actions/consumeItem.ts (mark an item used up).

module AppActions {
  import opened Common
  import opened AppTypes
  import opened MockStore

  // ---------------------------------------------------------------------------
  // reportDefect

  /** The one field the defect report merges into the item. */
  const DefectUpdate: ItemUpdate := ItemUpdate(None, None, None, Some(DEFECTIVE), None)

  /** The rework copy of an item: same part, storage case with " (RE)"
      appended, back at UNPRINTED, not completed. */
  function ReworkOf(item: PartItem): NewPartItem
  {
    NewPartItem(item.partId, item.storageCase + " (RE)", UNPRINTED, None)
  }

  /** The items after `reportDefect` has found the item at `k`: the first
      item with its id marked DEFECTIVE, then the rework copy appended. */
  function AfterDefect(items: seq<PartItem>, k: nat): seq<PartItem>
    requires k < |items|
  {
    var marked := Updated(items, items[k].id, DefectUpdate);
    marked + [WithId(ReworkOf(items[k]), NextMockId(marked))]
  }

  /** Reporting the first item with an id defective: that item becomes
      DEFECTIVE with every other field as it was (its completion time
      included), no other item changes, and exactly one item is appended: of
      the same part, in the " (RE)" case, UNPRINTED, not completed, under an
      id above every id in use, the defective item's among them. */
  lemma AfterDefectSpec(items: seq<PartItem>, k: nat)
    requires k < |items| && forall j :: 0 <= j < k ==> items[j].id != items[k].id
    ensures var after := AfterDefect(items, k);
      && |after| == |items| + 1
      && after[k] == items[k].(currentProcess := DEFECTIVE)
      && (forall j :: 0 <= j < |items| && j != k ==> after[j] == items[j])
      && after[|items|].partId == items[k].partId
      && after[|items|].storageCase == items[k].storageCase + " (RE)"
      && after[|items|].currentProcess == UNPRINTED
      && after[|items|].completedAt.None?
      && forall j :: 0 <= j < |items| ==> items[j].id < after[|items|].id
  {
    var marked := Updated(items, items[k].id, DefectUpdate);
    UpdatedSpec(items, items[k].id, DefectUpdate);
    assert forall j :: 0 <= j < |items| ==> marked[j].id == items[j].id;
  }

  /** Why the action rejects: it reads `item.parts.project_id` after the
      writes, and `parts` is `undefined` when no part has the item's
      `part_id`. */
  datatype ActionError = PartUndefined(partId: int)

  /** `reportDefect`. The reason is only logged, so it is not a parameter. A
      `NaN` id finds no item. */
  method ReportDefect(store: MockStore, itemId: IdArg) returns (r: Result<(), ActionError>)
    modifies store
    ensures store.parts == old(store.parts)
    ensures ResolveId(itemId).None? ==> r == Ok(()) && store.partItems == old(store.partItems)
    ensures ResolveId(itemId).Some? ==>
      match FindIndex(old(store.partItems), ResolveId(itemId).value)
      case None => r == Ok(()) && store.partItems == old(store.partItems)
      case Some(k) =>
        && store.partItems == AfterDefect(old(store.partItems), k)
        && (r.Err? <==> FindPart(store.parts, old(store.partItems)[k].partId).None?)
  {
    var id := ResolveId(itemId);
    if id.None? {
      return Ok(());
    }
    var item := store.GetPartItem(id.value);
    if item.None? {
      return Ok(());
    }
    ghost var k := FindIndex(store.partItems, id.value).value;
    assert item.value.item == store.partItems[k] by {
      var k' :| 0 <= k' < |store.partItems| && store.partItems[k'] == item.value.item
                && store.partItems[k'].id == id.value && forall j :: 0 <= j < k' ==> store.partItems[j].id != id.value;
      assert k' == k;
    }
    store.UpdatePartItem(id.value, DefectUpdate);
    var added := store.AddPartItem(ReworkOf(item.value.item));
    if item.value.part.None? {
      return Err(PartUndefined(item.value.item.partId));
    }
    return Ok(());
  }

  // ---------------------------------------------------------------------------
  // consumeItem

  /** What `consumeItem` merges: READY, completed now, and the storage case
      'CONSUMED'. */
  function ConsumeUpdate(now: Timestamp): ItemUpdate
  {
    ItemUpdate(None, None, Some("CONSUMED"), Some(READY), Some(Some(now)))
  }

  /** The items after consuming the item an id argument names; a `NaN` id
      names none. */
  function AfterConsume(items: seq<PartItem>, itemId: IdArg, now: Timestamp): seq<PartItem>
  {
    match ResolveId(itemId)
    case None => items
    case Some(id) => Updated(items, id, ConsumeUpdate(now))
  }

  /** Consuming keeps the number of items and every item but the first with
      the id; that one becomes READY, completed at a set time, in the case
      'CONSUMED', with its id and part as before; an id that names no item
      changes nothing. */
  lemma AfterConsumeSpec(items: seq<PartItem>, itemId: IdArg, now: Timestamp)
    ensures var after := AfterConsume(items, itemId, now);
      && |after| == |items|
      && (ResolveId(itemId).None? ==> after == items)
      && (ResolveId(itemId).Some? ==>
            var id := ResolveId(itemId).value;
            match FindIndex(items, id)
            case None => after == items
            case Some(k) =>
              && after[k].currentProcess == READY
              && after[k].storageCase == "CONSUMED"
              && after[k].completedAt == Some(now)
              && after[k].id == items[k].id && after[k].partId == items[k].partId
              && forall j :: 0 <= j < |items| && j != k ==> after[j] == items[j])
  {
    if ResolveId(itemId).Some? {
      UpdatedSpec(items, ResolveId(itemId).value, ConsumeUpdate(now));
    }
  }

  /** `consumeItem`: one merge into the store. */
  method ConsumeItem(store: MockStore, itemId: IdArg, now: Timestamp)
    modifies store
    ensures store.parts == old(store.parts)
    ensures store.partItems == AfterConsume(old(store.partItems), itemId, now)
  {
    var id := ResolveId(itemId);
    if id.Some? {
      store.UpdatePartItem(id.value, ConsumeUpdate(now));
    }
  }
}
