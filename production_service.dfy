// src/modules/production/services/productionService.ts: registering printed
// items. The STL file is uploaded first, outside the transaction; then, in one
// Firestore transaction, the part is found or created and one item per
// printed copy is written, each in an `AUTO-` storage case of its own.

module ProductionService {
  import opened Common
  import opened Stages
  import opened Store
  import opened Errors
  import opened StlService
  import opened PartService
  import opened ItemService

  /** `AUTO-${partNumber}-${i + 1}`: the storage case of the `i`-th copy. */
  function AutoLabel(partNumber: string, i: nat): string
  {
    "AUTO-" + partNumber + "-" + Decimal(i + 1)
  }

  function AutoLabels(partNumber: string, count: nat): (labels: seq<string>)
    ensures |labels| == count
  {
    if count == 0 then [] else AutoLabels(partNumber, count - 1) + [AutoLabel(partNumber, count - 1)]
  }

  lemma {:induction false} AutoLabelsAt(partNumber: string, count: nat)
    ensures forall i :: 0 <= i < count ==> AutoLabels(partNumber, count)[i] == AutoLabel(partNumber, i)
  {
    if count > 0 {
      AutoLabelsAt(partNumber, count - 1);
    }
  }

  /** The copies' storage cases are all different from one another. */
  lemma AutoLabelsDistinct(partNumber: string, count: nat)
    ensures NoDuplicates(AutoLabels(partNumber, count))
  {
    AutoLabelsAt(partNumber, count);
    forall i, j | 0 <= i < j < count
      ensures AutoLabel(partNumber, i) != AutoLabel(partNumber, j)
    {
      var prefix := "AUTO-" + partNumber + "-";
      var a := AutoLabel(partNumber, i);
      var b := AutoLabel(partNumber, j);
      assert a == prefix + Decimal(i + 1) && b == prefix + Decimal(j + 1);
      if a == b {
        assert a[|prefix|..] == Decimal(i + 1);
        assert b[|prefix|..] == Decimal(j + 1);
        DecimalInjective(i + 1, j + 1);
      }
    }
  }

  /** The items a registration writes, after the part step, for the download
      URL the upload answered. */
  function RegisteredItems(parts: seq<Part>, items: seq<PartItem>, partNumber: string, projectId: int,
                           quantity: int, targetStatus: ProcessStatus, now: Timestamp, url: string)
    : (made: seq<PartItem>)
    ensures |made| == Clamp(quantity)
  {
    var part := EnsuredPart(parts, partNumber, NumberId(projectId));
    NewItems(NextId(ItemIds(items)), part.id, AutoLabels(partNumber, Clamp(quantity)), targetStatus, now, Some(url))
  }

  /** What a registration writes: `quantity` copies (none when it is not
      positive) of the part with this number in this project, in distinct
      AUTO storage cases, under fresh ids, all in the target stage and all
      pointing at the uploaded file. */
  lemma RegisteredItemsSpec(parts: seq<Part>, items: seq<PartItem>, partNumber: string, projectId: int,
                            quantity: int, targetStatus: ProcessStatus, now: Timestamp, url: string)
    ensures var made := RegisteredItems(parts, items, partNumber, projectId, quantity, targetStatus, now, url);
      var part := EnsuredPart(parts, partNumber, NumberId(projectId));
      && part.partNumber == partNumber && part.projectId == NumberId(projectId)
      && part in EnsuredParts(parts, partNumber, NumberId(projectId))
      && forall i :: 0 <= i < |made| ==>
           && made[i].id == NextId(ItemIds(items)) + i
           && made[i].id !in ItemIds(items)
           && made[i].partId == part.id
           && made[i].storageCase == AutoLabel(partNumber, i)
           && made[i].status == targetStatus
           && made[i].completedAt.None?
           && made[i].stlUrl == Some(url)
  {
    var part := EnsuredPart(parts, partNumber, NumberId(projectId));
    NewItemsAt(NextId(ItemIds(items)), part.id, AutoLabels(partNumber, Clamp(quantity)), targetStatus, now, Some(url));
    AutoLabelsAt(partNumber, Clamp(quantity));
  }

  /** `registerPrintedItems`. A failed upload writes nothing; otherwise the
      part is found or created as `ensurePartExists` does and the copies are
      written, and the call answers the part number and the download URL. */
  method RegisterPrintedItems(db: Db, upload: Uploader, partNumber: string, projectId: int, quantity: int,
                              targetStatus: ProcessStatus, now: Timestamp)
    returns (r: Result<(string, string), ServiceError>)
    requires db.Valid()
    modifies db
    ensures db.Valid()
    ensures upload(StoragePath(NumberId(projectId), partNumber, now)).Err? ==>
      && r == Err(UploadFailed(upload(StoragePath(NumberId(projectId), partNumber, now)).error))
      && db.parts == old(db.parts) && db.items == old(db.items)
    ensures upload(StoragePath(NumberId(projectId), partNumber, now)).Ok? ==>
      var url := upload(StoragePath(NumberId(projectId), partNumber, now)).value;
      && r == Ok((partNumber, url))
      && db.parts == EnsuredParts(old(db.parts), partNumber, NumberId(projectId))
      && db.items == old(db.items)
           + RegisteredItems(old(db.parts), old(db.items), partNumber, projectId, quantity, targetStatus, now, url)
  {
    var storagePath := StoragePath(NumberId(projectId), partNumber, now);
    var uploaded := upload(storagePath);
    if uploaded.Err? {
      return Err(UploadFailed(uploaded.error));
    }
    var downloadUrl := uploaded.value;
    var part := EnsurePartExists(db, partNumber, NumberId(projectId));
    var partId := part.id;
    var nextItemId := NextId(ItemIds(db.items));
    AppendNewItemsValid(db.items, partId, AutoLabels(partNumber, Clamp(quantity)), targetStatus, now, Some(downloadUrl));
    WriteCopies(db, nextItemId, partId, partNumber, quantity, targetStatus, now, downloadUrl);
    return Ok((partNumber, downloadUrl));
  }

  /** The loop of `registerPrintedItems`: one item per copy, the id counting up. */
  method WriteCopies(db: Db, firstId: nat, partId: nat, partNumber: string, quantity: int,
                     targetStatus: ProcessStatus, now: Timestamp, downloadUrl: string)
    modifies db
    ensures db.items == old(db.items)
      + NewItems(firstId, partId, AutoLabels(partNumber, Clamp(quantity)), targetStatus, now, Some(downloadUrl))
    ensures db.parts == old(db.parts)
  {
    var nextItemId := firstId;
    for i := 0 to Clamp(quantity)
      invariant nextItemId == firstId + i
      invariant db.items == old(db.items)
        + NewItems(firstId, partId, AutoLabels(partNumber, i), targetStatus, now, Some(downloadUrl))
      invariant db.parts == old(db.parts)
    {
      var newItemStub := PartItem(nextItemId, partId, AutoLabel(partNumber, i), targetStatus, None, Some(now), Some(downloadUrl));
      CopiesStep(db.items, old(db.items), firstId, partId, partNumber, i, targetStatus, now, downloadUrl);
      db.items := db.items + [newItemStub];
      nextItemId := nextItemId + 1;
    }
  }

  lemma CopiesStep(items: seq<PartItem>, before: seq<PartItem>, firstId: nat, partId: nat, partNumber: string, i: nat,
                   targetStatus: ProcessStatus, now: Timestamp, url: string)
    requires items == before + NewItems(firstId, partId, AutoLabels(partNumber, i), targetStatus, now, Some(url))
    ensures items + [PartItem(firstId + i, partId, AutoLabel(partNumber, i), targetStatus, None, Some(now), Some(url))]
      == before + NewItems(firstId, partId, AutoLabels(partNumber, i + 1), targetStatus, now, Some(url))
  {
    NewItemsSnoc(firstId, partId, AutoLabels(partNumber, i), AutoLabel(partNumber, i), targetStatus, now, Some(url));
  }
}
