// lib/mockStore.ts: the in-memory store of the mock-data era. Two arrays,
// `parts` and `partItems`, read whole, looked up by id, updated by merging
// fields into the first item with an id, and extended by appending an item
// under a fresh id.

module MockStore {
  import opened Common
  import opened AppTypes

  /** `Partial<PartItem>`: a field an update leaves out is `None`. */
  datatype ItemUpdate = ItemUpdate(
    id: Option<int>,
    partId: Option<int>,
    storageCase: Option<string>,
    currentProcess: Option<Process>,
    completedAt: Option<Option<Timestamp>>)

  /** `Omit<PartItem, 'id'>`: an item before the store gives it an id. */
  datatype NewPartItem = NewPartItem(partId: int, storageCase: string, currentProcess: Process,
                                     completedAt: Option<Timestamp>)

  /** `PartItem & { parts: Part }`; the part is `undefined` when no part has
      the item's `part_id`. */
  datatype ItemWithPart = ItemWithPart(item: PartItem, part: Option<Part>)

  /** `{ ...item, ...updates }` */
  function Merge(item: PartItem, updates: ItemUpdate): PartItem
  {
    PartItem(
      if updates.id.Some? then updates.id.value else item.id,
      if updates.partId.Some? then updates.partId.value else item.partId,
      if updates.storageCase.Some? then updates.storageCase.value else item.storageCase,
      if updates.currentProcess.Some? then updates.currentProcess.value else item.currentProcess,
      if updates.completedAt.Some? then updates.completedAt.value else item.completedAt)
  }

  /** An update that names no field. */
  const NoChanges: ItemUpdate := ItemUpdate(None, None, None, None, None)

  /** A merge takes each field from the update when the update names it and
      keeps the item's own otherwise; an empty update changes nothing, and
      merging the same update twice is merging it once. */
  lemma MergeSpec(item: PartItem, updates: ItemUpdate)
    ensures var r := Merge(item, updates);
      && (updates.id.Some? ==> r.id == updates.id.value) && (updates.id.None? ==> r.id == item.id)
      && (updates.partId.Some? ==> r.partId == updates.partId.value) && (updates.partId.None? ==> r.partId == item.partId)
      && (updates.storageCase.Some? ==> r.storageCase == updates.storageCase.value)
      && (updates.storageCase.None? ==> r.storageCase == item.storageCase)
      && (updates.currentProcess.Some? ==> r.currentProcess == updates.currentProcess.value)
      && (updates.currentProcess.None? ==> r.currentProcess == item.currentProcess)
      && (updates.completedAt.Some? ==> r.completedAt == updates.completedAt.value)
      && (updates.completedAt.None? ==> r.completedAt == item.completedAt)
    ensures Merge(item, NoChanges) == item
    ensures Merge(Merge(item, updates), updates) == Merge(item, updates)
  {
  }

  /** `findIndex((i) => i.id === id)`, `None` for -1. */
  function FindIndex(items: seq<PartItem>, id: int): (k: Option<nat>)
    ensures k.None? <==> forall j :: 0 <= j < |items| ==> items[j].id != id
    ensures k.Some? ==> k.value < |items| && items[k.value].id == id
    ensures k.Some? ==> forall j :: 0 <= j < k.value ==> items[j].id != id
  {
    if items == [] then None
    else if items[0].id == id then Some(0)
    else match FindIndex(items[1..], id)
      case None => None
      case Some(k) => Some(k + 1)
  }

  /** `parts.find((p) => p.id === partId)`, as an index. */
  function FindPart(parts: seq<Part>, partId: int): (k: Option<nat>)
    ensures k.None? <==> forall j :: 0 <= j < |parts| ==> parts[j].id != partId
    ensures k.Some? ==> k.value < |parts| && parts[k.value].id == partId
    ensures k.Some? ==> forall j :: 0 <= j < k.value ==> parts[j].id != partId
  {
    if parts == [] then None
    else if parts[0].id == partId then Some(0)
    else match FindPart(parts[1..], partId)
      case None => None
      case Some(k) => Some(k + 1)
  }

  /** The items after `updatePartItem(id, updates)`. */
  function Updated(items: seq<PartItem>, id: int, updates: ItemUpdate): seq<PartItem>
  {
    match FindIndex(items, id)
    case None => items
    case Some(k) => items[k := Merge(items[k], updates)]
  }

  /** An update keeps the number of items; an unknown id changes nothing;
      otherwise the first item with the id takes the merge and every other
      item stays as it was. */
  lemma UpdatedSpec(items: seq<PartItem>, id: int, updates: ItemUpdate)
    ensures |Updated(items, id, updates)| == |items|
    ensures (forall j :: 0 <= j < |items| ==> items[j].id != id) ==> Updated(items, id, updates) == items
    ensures forall k :: 0 <= k < |items| && items[k].id == id && (forall j :: 0 <= j < k ==> items[j].id != id) ==>
              && Updated(items, id, updates)[k] == Merge(items[k], updates)
              && forall j :: 0 <= j < |items| && j != k ==> Updated(items, id, updates)[j] == items[j]
  {
    match FindIndex(items, id)
    case None =>
    case Some(k) =>
      forall k' | 0 <= k' < |items| && items[k'].id == id && (forall j :: 0 <= j < k' ==> items[j].id != id)
        ensures k' == k
      {
      }
  }

  /** `Math.max(0, ...ids)` */
  function MaxOrZero(ids: seq<int>): (m: int)
    ensures m >= 0
    ensures forall i :: 0 <= i < |ids| ==> ids[i] <= m
    ensures m == 0 || m in ids
  {
    if ids == [] then 0
    else
      var rest := MaxOrZero(ids[1..]);
      if ids[0] > rest then ids[0] else rest
  }

  function MockIds(items: seq<PartItem>): seq<int>
  {
    seq(|items|, i requires 0 <= i < |items| => items[i].id)
  }

  /** The id `addPartItem` gives: at least 1, and above every id in use. */
  function NextMockId(items: seq<PartItem>): (id: int)
    ensures id >= 1
    ensures forall j :: 0 <= j < |items| ==> items[j].id < id
  {
    var ids := MockIds(items);
    assert forall j :: 0 <= j < |items| ==> ids[j] == items[j].id;
    MaxOrZero(ids) + 1
  }

  function WithId(item: NewPartItem, id: int): PartItem
  {
    PartItem(id, item.partId, item.storageCase, item.currentProcess, item.completedAt)
  }

  /** The store's arrays. */
  class MockStore {
    var parts: seq<Part>
    var partItems: seq<PartItem>

    constructor (parts0: seq<Part>, partItems0: seq<PartItem>)
      ensures parts == parts0 && partItems == partItems0
    {
      parts := parts0;
      partItems := partItems0;
    }

    /** `getParts` */
    method GetParts() returns (r: seq<Part>)
      ensures r == parts
    {
      r := parts;
    }

    /** `getPartItems` */
    method GetPartItems() returns (r: seq<PartItem>)
      ensures r == partItems
    {
      r := partItems;
    }

    /** `getPartItem`: null when no item has the id; otherwise the first
        such item with the first part whose id is its `part_id`. */
    method GetPartItem(id: int) returns (r: Option<ItemWithPart>)
      ensures r.None? <==> forall j :: 0 <= j < |partItems| ==> partItems[j].id != id
      ensures r.Some? ==> exists k :: (0 <= k < |partItems| && partItems[k] == r.value.item
                                      && partItems[k].id == id && forall j :: 0 <= j < k ==> partItems[j].id != id)
      ensures r.Some? ==> (r.value.part.None? <==> forall j :: 0 <= j < |parts| ==> parts[j].id != r.value.item.partId)
      ensures r.Some? && r.value.part.Some? ==> exists p :: (0 <= p < |parts| && parts[p] == r.value.part.value
                                                      && parts[p].id == r.value.item.partId
                                                      && forall j :: 0 <= j < p ==> parts[j].id != parts[p].id)
    {
      var k := FindIndex(partItems, id);
      if k.None? {
        return None;
      }
      var item := partItems[k.value];
      var p := FindPart(parts, item.partId);
      r := Some(ItemWithPart(item, if p.Some? then Some(parts[p.value]) else None));
    }

    /** `updatePartItem`: the merge replaces the first item with the id. */
    method UpdatePartItem(id: int, updates: ItemUpdate)
      modifies this
      ensures parts == old(parts)
      ensures partItems == Updated(old(partItems), id, updates)
    {
      var index := FindIndex(partItems, id);
      if index.Some? {
        partItems := partItems[index.value := Merge(partItems[index.value], updates)];
      }
    }

    /** `addPartItem`: the item goes at the end under a fresh id, and is
        returned. */
    method AddPartItem(item: NewPartItem) returns (newItem: PartItem)
      modifies this
      ensures parts == old(parts)
      ensures newItem == WithId(item, NextMockId(old(partItems)))
      ensures partItems == old(partItems) + [newItem]
    {
      var newId := NextMockId(partItems);
      newItem := WithId(item, newId);
      partItems := partItems + [newItem];
    }
  }
}
