// src/modules/production/services/itemService.ts: creating part items,
// moving them between stages, and the per-part progress summary.

module ItemService {
  import opened Common
  import opened Stages
  import opened Store
  import opened Errors

  // ---------------------------------------------------------------------------
  // createItems

  /** The items `createItems` writes: ids run on from `firstId`, item `i` goes
      into `cases[i]`, and none is completed yet. */
  function NewItems(firstId: nat, partId: nat, cases: seq<string>, status: ProcessStatus,
                    now: Timestamp, stlUrl: Option<string>): (made: seq<PartItem>)
    ensures |made| == |cases|
  {
    if cases == [] then []
    else
      NewItems(firstId, partId, cases[..|cases| - 1], status, now, stlUrl)
        + [PartItem(firstId + |cases| - 1, partId, cases[|cases| - 1], status, None, Some(now), stlUrl)]
  }

  lemma {:induction false} NewItemsAt(firstId: nat, partId: nat, cases: seq<string>, status: ProcessStatus,
                                      now: Timestamp, stlUrl: Option<string>)
    ensures forall i :: 0 <= i < |cases| ==>
      NewItems(firstId, partId, cases, status, now, stlUrl)[i]
        == PartItem(firstId + i, partId, cases[i], status, None, Some(now), stlUrl)
  {
    if cases != [] {
      NewItemsAt(firstId, partId, cases[..|cases| - 1], status, now, stlUrl);
    }
  }

  /** One more storage case adds one more item, with the next id. */
  lemma NewItemsSnoc(firstId: nat, partId: nat, cases: seq<string>, c: string, status: ProcessStatus,
                     now: Timestamp, stlUrl: Option<string>)
    ensures NewItems(firstId, partId, cases + [c], status, now, stlUrl)
      == NewItems(firstId, partId, cases, status, now, stlUrl)
         + [PartItem(firstId + |cases|, partId, c, status, None, Some(now), stlUrl)]
  {
    assert (cases + [c])[..|cases|] == cases;
  }

  /** Writing the new items after the existing ones keeps ids unique and
      ascending: none of the new ids was taken. */
  lemma AppendNewItemsValid(items: seq<PartItem>, partId: nat, cases: seq<string>, status: ProcessStatus,
                            now: Timestamp, stlUrl: Option<string>)
    requires Ascending(ItemIds(items))
    ensures Ascending(ItemIds(items + NewItems(NextId(ItemIds(items)), partId, cases, status, now, stlUrl)))
  {
    var first := NextId(ItemIds(items));
    var made := NewItems(first, partId, cases, status, now, stlUrl);
    NewItemsAt(first, partId, cases, status, now, stlUrl);
    ItemIdsAppend(items, made);
    assert forall i :: 0 <= i < |made| ==> ItemIds(made)[i] == first + i;
    AscendingAppend(ItemIds(items), ItemIds(made));
  }

  /** `createItems`: refuses when the number of boxes is not the quantity, and
      otherwise writes one item per box under fresh consecutive ids. */
  method CreateItems(db: Db, partId: nat, quantity: int, storageBoxes: seq<string>,
                     initialStatus: ProcessStatus, now: Timestamp)
    returns (r: Result<seq<PartItem>, ServiceError>)
    requires db.Valid()
    modifies db
    ensures db.Valid() && db.parts == old(db.parts)
    ensures |storageBoxes| != quantity ==>
      r == Err(BoxCountMismatch(|storageBoxes|, quantity)) && db.items == old(db.items)
    ensures |storageBoxes| == quantity ==>
      var made := NewItems(NextId(ItemIds(old(db.items))), partId, storageBoxes, initialStatus, now, None);
      r == Ok(made) && db.items == old(db.items) + made
  {
    if |storageBoxes| != quantity {
      return Err(BoxCountMismatch(|storageBoxes|, quantity));
    }
    var nextItemId := NextId(ItemIds(db.items));
    AppendNewItemsValid(db.items, partId, storageBoxes, initialStatus, now, None);
    var createdItems := WriteItems(db, nextItemId, partId, storageBoxes, initialStatus, now);
    return Ok(createdItems);
  }

  /** The loop of `createItems`: one `setDoc` per box, the id counting up. */
  method WriteItems(db: Db, firstId: nat, partId: nat, storageBoxes: seq<string>,
                    initialStatus: ProcessStatus, now: Timestamp)
    returns (createdItems: seq<PartItem>)
    modifies db
    ensures createdItems == NewItems(firstId, partId, storageBoxes, initialStatus, now, None)
    ensures db.items == old(db.items) + createdItems && db.parts == old(db.parts)
  {
    var nextItemId := firstId;
    createdItems := [];
    for i := 0 to |storageBoxes|
      invariant nextItemId == firstId + i
      invariant createdItems == NewItems(firstId, partId, storageBoxes[..i], initialStatus, now, None)
      invariant db.items == old(db.items) + createdItems && db.parts == old(db.parts)
    {
      var newItem := PartItem(nextItemId, partId, storageBoxes[i], initialStatus, None, Some(now), None);
      assert storageBoxes[..i + 1] == storageBoxes[..i] + [storageBoxes[i]];
      NewItemsSnoc(firstId, partId, storageBoxes[..i], storageBoxes[i], initialStatus, now, None);
      db.items := db.items + [newItem];
      createdItems := createdItems + [newItem];
      nextItemId := nextItemId + 1;
    }
    assert storageBoxes[..|storageBoxes|] == storageBoxes;
  }

  // ---------------------------------------------------------------------------
  // updateItemStatus, updateMultipleItemsStatus

  /** The fields `updateItemStatus` writes: the stage, the update time, and a
      completion time exactly when the stage is ASSEMBLED. */
  function WithStatus(item: PartItem, newStatus: ProcessStatus, now: Timestamp): (r: PartItem)
    ensures r.status == newStatus && r.updatedAt == Some(now)
    ensures r.completedAt.Some? <==> newStatus == ASSEMBLED
    ensures r.id == item.id && r.partId == item.partId
    ensures r.storageCase == item.storageCase && r.stlUrl == item.stlUrl
  {
    item.(status := newStatus, updatedAt := Some(now),
          completedAt := if newStatus == ASSEMBLED then Some(now) else None)
  }

  /** Rewriting one item's stage leaves every id where it was. */
  lemma WithStatusKeepsIds(items: seq<PartItem>, k: nat, newStatus: ProcessStatus, now: Timestamp)
    requires k < |items|
    ensures ItemIds(items[k := WithStatus(items[k], newStatus, now)]) == ItemIds(items)
  {
    var after := items[k := WithStatus(items[k], newStatus, now)];
    assert forall i :: 0 <= i < |items| ==> ItemIds(after)[i] == ItemIds(items)[i];
  }

  /** `updateItemStatus`: the `updateDoc` fails when no item has this id. */
  method UpdateItemStatus(db: Db, itemId: int, newStatus: ProcessStatus, now: Timestamp)
    returns (r: Result<(), ServiceError>)
    requires db.Valid()
    modifies db
    ensures db.Valid() && db.parts == old(db.parts)
    ensures FindItem(old(db.items), itemId).None? ==>
      r == Err(NoDocumentToUpdate(itemId)) && db.items == old(db.items)
    ensures FindItem(old(db.items), itemId).Some? ==>
      var k := FindItem(old(db.items), itemId).value;
      r == Ok(()) && db.items == old(db.items)[k := WithStatus(old(db.items)[k], newStatus, now)]
  {
    var found := FindItem(db.items, itemId);
    if found.None? {
      return Err(NoDocumentToUpdate(itemId));
    }
    var k := found.value;
    WithStatusKeepsIds(db.items, k, newStatus, now);
    db.items := db.items[k := WithStatus(db.items[k], newStatus, now)];
    r := Ok(());
  }

  /** The items after `updateItemStatus` has run for each id in turn. */
  function UpdateAll(items: seq<PartItem>, itemIds: seq<int>, newStatus: ProcessStatus, now: Timestamp)
    : (after: seq<PartItem>)
    ensures ItemIds(after) == ItemIds(items)
  {
    if itemIds == [] then items
    else
      var prev := UpdateAll(items, itemIds[..|itemIds| - 1], newStatus, now);
      match FindItem(prev, itemIds[|itemIds| - 1])
      case None => prev
      case Some(k) =>
        WithStatusKeepsIds(prev, k, newStatus, now);
        prev[k := WithStatus(prev[k], newStatus, now)]
  }

  /** The first listed id that names no item: the update that rejects. */
  function FirstMissing(items: seq<PartItem>, itemIds: seq<int>): (missing: Option<int>)
    ensures missing.None? <==> forall i :: 0 <= i < |itemIds| ==> FindItem(items, itemIds[i]).Some?
    ensures missing.Some? ==> missing.value in itemIds && FindItem(items, missing.value).None?
  {
    if itemIds == [] then None
    else
      var prev := FirstMissing(items, itemIds[..|itemIds| - 1]);
      if prev.Some? then prev
      else if FindItem(items, itemIds[|itemIds| - 1]).None? then Some(itemIds[|itemIds| - 1])
      else None
  }

  /** Where a document sits depends on the ids alone. */
  lemma {:induction false} FindItemByIds(a: seq<PartItem>, b: seq<PartItem>, id: int)
    requires ItemIds(a) == ItemIds(b)
    ensures FindItem(a, id) == FindItem(b, id)
  {
    assert |a| == |ItemIds(a)| == |ItemIds(b)| == |b|;
    if a != [] {
      assert a[0].id == ItemIds(a)[0] == ItemIds(b)[0] == b[0].id;
      assert ItemIds(a[1..]) == ItemIds(b[1..]) by {
        forall i | 0 <= i < |a| - 1
          ensures ItemIds(a[1..])[i] == ItemIds(b[1..])[i]
        {
          assert ItemIds(a[1..])[i] == ItemIds(a)[i + 1];
          assert ItemIds(b[1..])[i] == ItemIds(b)[i + 1];
        }
      }
      FindItemByIds(a[1..], b[1..], id);
    }
  }

  lemma UniqueIds(items: seq<PartItem>, j: nat, k: nat)
    requires Ascending(ItemIds(items)) && j < |items| && k < |items|
    ensures items[j].id == items[k].id ==> j == k
  {
    assert ItemIds(items)[j] == items[j].id && ItemIds(items)[k] == items[k].id;
  }

  /** When ids are unique, every item whose id is listed ends in the new stage
      (with its completion time set exactly for ASSEMBLED), and every other
      item is left as it was. */
  lemma {:induction false} UpdateAllSpec(items: seq<PartItem>, itemIds: seq<int>, newStatus: ProcessStatus, now: Timestamp)
    requires Ascending(ItemIds(items))
    ensures var after := UpdateAll(items, itemIds, newStatus, now);
      |after| == |items| &&
      forall j :: 0 <= j < |items| ==>
        after[j] == if items[j].id in itemIds then WithStatus(items[j], newStatus, now) else items[j]
  {
    if itemIds != [] {
      var init := itemIds[..|itemIds| - 1];
      var id := itemIds[|itemIds| - 1];
      assert itemIds == init + [id];
      var prev := UpdateAll(items, init, newStatus, now);
      UpdateAllSpec(items, init, newStatus, now);
      var after := UpdateAll(items, itemIds, newStatus, now);
      FindItemByIds(prev, items, id);
      forall j | 0 <= j < |items|
        ensures after[j] == if items[j].id in itemIds then WithStatus(items[j], newStatus, now) else items[j]
      {
        assert ItemIds(items)[j] == items[j].id;
        if FindItem(items, id).Some? {
          UniqueIds(items, j, FindItem(items, id).value);
        }
      }
    }
  }

  /** `updateMultipleItemsStatus`: one `updateItemStatus` per id; every update
      that can be applied is applied, and the call fails when any id names no
      item. */
  method UpdateMultipleItemsStatus(db: Db, itemIds: seq<int>, newStatus: ProcessStatus, now: Timestamp)
    returns (r: Result<(), ServiceError>)
    requires db.Valid()
    modifies db
    ensures db.Valid() && db.parts == old(db.parts)
    ensures db.items == UpdateAll(old(db.items), itemIds, newStatus, now)
    ensures FirstMissing(old(db.items), itemIds).None? ==> r == Ok(())
    ensures FirstMissing(old(db.items), itemIds).Some? ==>
      r == Err(NoDocumentToUpdate(FirstMissing(old(db.items), itemIds).value))
  {
    r := Ok(());
    ghost var before := db.items;
    for i := 0 to |itemIds|
      invariant db.Valid() && db.parts == old(db.parts)
      invariant db.items == UpdateAll(before, itemIds[..i], newStatus, now)
      invariant FirstMissing(before, itemIds[..i]).None? ==> r == Ok(())
      invariant FirstMissing(before, itemIds[..i]).Some? ==>
        r == Err(NoDocumentToUpdate(FirstMissing(before, itemIds[..i]).value))
    {
      assert itemIds[..i + 1][..i] == itemIds[..i];
      FindItemByIds(db.items, before, itemIds[i]);
      var one := UpdateItemStatus(db, itemIds[i], newStatus, now);
      if one.Err? && r.Ok? {
        r := one;
      }
    }
    assert itemIds[..|itemIds|] == itemIds;
  }

  // ---------------------------------------------------------------------------
  // aggregateProgress

  /** One row of the progress summary. */
  datatype ProgressRow = ProgressRow(
    id: nat,
    partNumber: string,
    status: ProcessStatus,
    storageCases: seq<string>,
    count: nat)

  /** `partItems.filter(item => item.part_id === partId)` over the service's
      `Store.PartItem`. `app/utils.ts` filters its own `AppTypes.PartItem` the
      same way; each file's filter is kept with its own record type, so the
      lemmas below appear in both modules. */
  function ItemsOfPart(items: seq<PartItem>, partId: nat): (mine: seq<PartItem>)
    ensures |mine| <= |items|
    ensures forall x :: x in mine <==> x in items && x.partId == partId
  {
    if items == [] then []
    else
      var prev := ItemsOfPart(items[..|items| - 1], partId);
      assert items == items[..|items| - 1] + [items[|items| - 1]];
      if items[|items| - 1].partId == partId then prev + [items[|items| - 1]] else prev
  }

  /** The filter distributes over concatenation: it keeps the part's items in
      their original order, each as often as it occurs. */
  lemma {:induction false} ItemsOfPartAppend(a: seq<PartItem>, b: seq<PartItem>, partId: nat)
    ensures ItemsOfPart(a + b, partId) == ItemsOfPart(a, partId) + ItemsOfPart(b, partId)
  {
    if b == [] {
      assert a + b == a;
    } else {
      var c, init, x := a + b, b[..|b| - 1], b[|b| - 1];
      assert c[..|c| - 1] == a + init && c[|c| - 1] == x;
      ItemsOfPartLast(c, partId);
      ItemsOfPartLast(b, partId);
      ItemsOfPartAppend(a, init, partId);
    }
  }

  lemma ItemsOfPartLast(items: seq<PartItem>, partId: nat)
    requires items != []
    ensures var n := |items| - 1;
      ItemsOfPart(items, partId)
        == ItemsOfPart(items[..n], partId) + (if items[n].partId == partId then [items[n]] else [])
  {
  }

  /** The filtered list is as long as the number of positions holding an item
      of the part. */
  lemma {:induction false} ItemsOfPartCount(items: seq<PartItem>, partId: nat)
    ensures |ItemsOfPart(items, partId)| == |set j | 0 <= j < |items| && items[j].partId == partId|
  {
    if items != [] {
      var n := |items| - 1;
      var tail := if items[n].partId == partId then [items[n]] else [];
      ItemsOfPartCount(items[..n], partId);
      PositionsLast(items, partId);
      ItemsOfPartLast(items, partId);
      assert |ItemsOfPart(items, partId)| == |ItemsOfPart(items[..n], partId)| + |tail|;
    }
  }

  /** Adding one item adds its position to the part's positions when it
      belongs to the part. */
  lemma PositionsLast(items: seq<PartItem>, partId: nat)
    requires items != []
    ensures var n := |items| - 1;
      |set j | 0 <= j < |items| && items[j].partId == partId|
        == |set j | 0 <= j < n && items[..n][j].partId == partId| + (if items[n].partId == partId then 1 else 0)
  {
    var n := |items| - 1;
    var init := items[..n];
    var s0 := set j | 0 <= j < |init| && init[j].partId == partId;
    var s := set j | 0 <= j < |items| && items[j].partId == partId;
    var tail := if items[n].partId == partId then {n} else {};
    assert s == s0 + tail by {
      forall j
        ensures j in s <==> j in s0 + tail
      {
        if 0 <= j < n {
          assert items[j] == init[j];
        }
      }
    }
    assert |s0 + tail| == |s0| + |tail| by {
      assert n !in s0;
    }
  }

  function StatusesOf(items: seq<PartItem>): (statuses: seq<ProcessStatus>)
    ensures |statuses| == |items| && forall i :: 0 <= i < |items| ==> statuses[i] == items[i].status
  {
    if items == [] then [] else StatusesOf(items[..|items| - 1]) + [items[|items| - 1].status]
  }

  /** The reduce over the items' statuses, seeded with ASSEMBLED: keep
      whichever status sits earlier in stage order. */
  function EarliestStatus(statuses: seq<ProcessStatus>): ProcessStatus
  {
    if statuses == [] then ASSEMBLED
    else
      var earliest := EarliestStatus(statuses[..|statuses| - 1]);
      var status := statuses[|statuses| - 1];
      if IndexOf(status) < IndexOf(earliest) then status else earliest
  }

  /** For a part with items, the reduce answers the status of least rank among
      them: one of the items' own statuses, so DEFECTIVE (rank -1) whenever
      any item is defective, and ASSEMBLED only when all are. */
  lemma {:induction false} EarliestStatusSpec(statuses: seq<ProcessStatus>)
    requires statuses != []
    ensures EarliestStatus(statuses) in statuses
    ensures forall s :: s in statuses ==> IndexOf(EarliestStatus(statuses)) <= IndexOf(s)
  {
    var init := statuses[..|statuses| - 1];
    var last := statuses[|statuses| - 1];
    assert statuses == init + [last];
    if init == [] {
      IndexOfInjective(last, ASSEMBLED);
    } else {
      EarliestStatusSpec(init);
    }
  }

  function StorageCasesOf(items: seq<PartItem>): (cases: seq<string>)
    ensures |cases| == |items| && forall i :: 0 <= i < |items| ==> cases[i] == items[i].storageCase
  {
    if items == [] then [] else StorageCasesOf(items[..|items| - 1]) + [items[|items| - 1].storageCase]
  }

  /** The row `aggregateProgress` builds for one part. */
  function ProgressOf(part: Part, items: seq<PartItem>): ProgressRow
  {
    var mine := ItemsOfPart(items, part.id);
    ProgressRow(
      part.id,
      part.partNumber,
      if |mine| > 0 then EarliestStatus(StatusesOf(mine)) else UNPRINTED,
      Distinct(StorageCasesOf(mine)),
      |mine|)
  }

  /** `aggregateProgress`: one row per part, in the parts' order, each naming
      its part and counting the items that carry the part's id. */
  function AggregateProgress(parts: seq<Part>, items: seq<PartItem>): (rows: seq<ProgressRow>)
    ensures |rows| == |parts|
    ensures forall i :: 0 <= i < |rows| ==>
              && rows[i].id == parts[i].id && rows[i].partNumber == parts[i].partNumber
              && rows[i].count == |ItemsOfPart(items, parts[i].id)|
  {
    seq(|parts|, i requires 0 <= i < |parts| => ProgressOf(parts[i], items))
  }

  /** A progress row names its part and counts the positions holding an item
      of the part; a part
      without items is UNPRINTED, and otherwise the row shows the status of its
      least advanced item. */
  lemma ProgressStatusSpec(part: Part, items: seq<PartItem>)
    ensures var row := ProgressOf(part, items);
      && row.id == part.id && row.partNumber == part.partNumber
      && row.count == |ItemsOfPart(items, part.id)|
      && row.count == |set j | 0 <= j < |items| && items[j].partId == part.id|
      && (row.count == 0 ==> row.status == UNPRINTED)
      && (row.count > 0 ==>
            (exists x :: x in items && x.partId == part.id && x.status == row.status)
            && forall x :: x in items && x.partId == part.id ==> IndexOf(row.status) <= IndexOf(x.status))
  {
    var mine := ItemsOfPart(items, part.id);
    assert ProgressOf(part, items).count == |set j | 0 <= j < |items| && items[j].partId == part.id| by {
      ItemsOfPartCount(items, part.id);
    }
    if mine != [] {
      var statuses := StatusesOf(mine);
      var earliest := EarliestStatus(statuses);
      assert ProgressOf(part, items).status == earliest;
      EarliestStatusSpec(statuses);
      var i :| 0 <= i < |statuses| && statuses[i] == earliest;
      assert mine[i] in mine;
      forall x | x in items && x.partId == part.id
        ensures IndexOf(earliest) <= IndexOf(x.status)
      {
        var j :| 0 <= j < |mine| && mine[j] == x;
        assert statuses[j] in statuses;
      }
    }
  }

  /** A progress row lists the storage cases of the part's items, each once,
      and no other, in the order in which each first occurs among the part's
      items. */
  lemma ProgressCasesSpec(part: Part, items: seq<PartItem>)
    ensures var cases := ProgressOf(part, items).storageCases;
      && NoDuplicates(cases)
      && (forall c :: c in cases <==> exists x :: x in items && x.partId == part.id && x.storageCase == c)
      && forall i, j :: 0 <= i < j < |cases| ==>
           FirstIndex(StorageCasesOf(ItemsOfPart(items, part.id)), cases[i])
             < FirstIndex(StorageCasesOf(ItemsOfPart(items, part.id)), cases[j])
  {
    var mine := ItemsOfPart(items, part.id);
    var all := StorageCasesOf(mine);
    assert ProgressOf(part, items).storageCases == Distinct(all);
    DistinctSpec(all);
    forall c
      ensures c in Distinct(all) <==> exists x :: x in items && x.partId == part.id && x.storageCase == c
    {
      assert c in Distinct(all) <==> c in Elems(all);
      if c in Elems(all) {
        var i :| 0 <= i < |all| && all[i] == c;
        assert mine[i] in mine;
      }
      if exists x :: x in items && x.partId == part.id && x.storageCase == c {
        var x :| x in items && x.partId == part.id && x.storageCase == c;
        var i :| 0 <= i < |mine| && mine[i] == x;
        assert all[i] == c;
      }
    }
  }
}
