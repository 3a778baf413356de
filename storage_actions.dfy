// src/modules/inventory/actions/storageActions.ts: forcing a storage box free
// and the storage-box status board. The board looks up, for each of the boxes
// BOX-001 … BOX-<max>, the item whose storage case carries exactly that label.

module StorageActions {
  import opened Common
  import opened Stages
  import opened Store
  import opened Errors
  import opened BoxService
  import opened ProductionService
  import opened ReportDefect

  // ---------------------------------------------------------------------------
  // releaseStorageCase

  /** The item with its storage case emptied; nothing else but the update
      time changes. */
  function Released(item: PartItem, now: Timestamp): (r: PartItem)
  {
    item.(storageCase := "", updatedAt := Some(now))
  }

  /** `releaseStorageCase`: the `updateDoc` fails when no item has the id. */
  method ReleaseStorageCase(db: Db, itemId: int, now: Timestamp) returns (r: Result<(), ServiceError>)
    requires db.Valid()
    modifies db
    ensures db.Valid() && db.parts == old(db.parts)
    ensures FindItem(old(db.items), itemId).None? ==>
      r == Err(NoDocumentToUpdate(itemId)) && db.items == old(db.items)
    ensures FindItem(old(db.items), itemId).Some? ==>
      var k := FindItem(old(db.items), itemId).value;
      r == Ok(()) && db.items == old(db.items)[k := Released(old(db.items)[k], now)]
  {
    var found := FindItem(db.items, itemId);
    if found.None? {
      return Err(NoDocumentToUpdate(itemId));
    }
    var k := found.value;
    ReleaseKeepsIds(db.items, k, now);
    db.items := db.items[k := Released(db.items[k], now)];
    r := Ok(());
  }

  /** Releasing changes the one item's storage case and update time only:
      its stage, id and part stay, and so does every other item. */
  lemma ReleaseKeepsIds(items: seq<PartItem>, k: nat, now: Timestamp)
    requires k < |items|
    ensures var after := items[k := Released(items[k], now)];
      && ItemIds(after) == ItemIds(items)
      && after[k] == items[k].(storageCase := "", updatedAt := Some(now))
      && after[k].status == items[k].status
      && forall j :: 0 <= j < |items| && j != k ==> after[j] == items[j]
  {
    var after := items[k := Released(items[k], now)];
    assert forall i :: 0 <= i < |items| ==> ItemIds(after)[i] == ItemIds(items)[i];
  }

  // ---------------------------------------------------------------------------
  // getStorageBoxStatus

  /** `partMap`: part id to part number, a later part with the same id
      overwriting an earlier one. */
  function PartNumberMap(parts: seq<Part>): map<nat, string>
  {
    if parts == [] then map[]
    else PartNumberMap(parts[..|parts| - 1])[parts[|parts| - 1].id := parts[|parts| - 1].partNumber]
  }

  /** Where the last part with id `id` sits, if any part has it. */
  function LastPartWithId(parts: seq<Part>, id: nat): (k: Option<nat>)
    ensures k.None? <==> forall j :: 0 <= j < |parts| ==> parts[j].id != id
    ensures k.Some? ==> k.value < |parts| && parts[k.value].id == id
    ensures k.Some? ==> forall j :: k.value < j < |parts| ==> parts[j].id != id
  {
    if parts == [] then None
    else if parts[|parts| - 1].id == id then Some(|parts| - 1)
    else LastPartWithId(parts[..|parts| - 1], id)
  }

  /** A part id is a key exactly when some part has it, and it maps to the
      part number of the last such part. */
  lemma {:induction false} PartNumberMapSpec(parts: seq<Part>, id: nat)
    ensures id in PartNumberMap(parts) <==> LastPartWithId(parts, id).Some?
    ensures id in PartNumberMap(parts) ==> PartNumberMap(parts)[id] == parts[LastPartWithId(parts, id).value].partNumber
  {
    if parts != [] {
      var init := parts[..|parts| - 1];
      PartNumberMapSpec(init, id);
      if parts[|parts| - 1].id != id && id in PartNumberMap(init) {
        assert parts[LastPartWithId(init, id).value] == init[LastPartWithId(init, id).value];
      }
    }
  }

  /** The partMap loop over the parts collection. */
  method CollectPartNumbers(parts: seq<Part>) returns (partMap: map<nat, string>)
    ensures partMap == PartNumberMap(parts)
  {
    partMap := map[];
    for i := 0 to |parts|
      invariant partMap == PartNumberMap(parts[..i])
    {
      assert parts[..i + 1][..i] == parts[..i];
      partMap := partMap[parts[i].id := parts[i].partNumber];
    }
    assert parts[..|parts|] == parts;
  }

  /** What the board shows for an occupied box. */
  datatype Usage = Usage(itemId: nat, partNumber: string, status: ProcessStatus)

  /** `partMap.get(part_id) || 'Unknown'`: an empty part number counts as
      missing. */
  function UsageOf(item: PartItem, partMap: map<nat, string>): (u: Usage)
    ensures u.partNumber != []
  {
    Usage(item.id,
          if item.partId in partMap && partMap[item.partId] != [] then partMap[item.partId] else "Unknown",
          item.status)
  }

  /** `boxMap`: storage case to usage, over the items with a non-blank case,
      a later item overwriting an earlier one. */
  function UsageMap(items: seq<PartItem>, partMap: map<nat, string>): map<string, Usage>
  {
    if items == [] then map[]
    else
      var prev := UsageMap(items[..|items| - 1], partMap);
      var last := items[|items| - 1];
      if NonBlank(last.storageCase) then prev[last.storageCase := UsageOf(last, partMap)] else prev
  }

  /** Where the last item whose storage case is `sc` sits, if any item has
      that case. */
  function LastHolder(items: seq<PartItem>, sc: string): (k: Option<nat>)
    ensures k.None? <==> forall j :: 0 <= j < |items| ==> items[j].storageCase != sc
    ensures k.Some? ==> k.value < |items| && items[k.value].storageCase == sc
    ensures k.Some? ==> forall j :: k.value < j < |items| ==> items[j].storageCase != sc
  {
    if items == [] then None
    else if items[|items| - 1].storageCase == sc then Some(|items| - 1)
    else LastHolder(items[..|items| - 1], sc)
  }

  /** A storage case is a key exactly when it is not blank and some item
      carries it, and it maps to the usage of the last such item. */
  lemma {:induction false} UsageMapSpec(items: seq<PartItem>, partMap: map<nat, string>, sc: string)
    ensures sc in UsageMap(items, partMap) <==> NonBlank(sc) && LastHolder(items, sc).Some?
    ensures sc in UsageMap(items, partMap) ==>
              UsageMap(items, partMap)[sc] == UsageOf(items[LastHolder(items, sc).value], partMap)
  {
    if items != [] {
      var init := items[..|items| - 1];
      var last := items[|items| - 1];
      UsageMapSpec(init, partMap, sc);
      if last.storageCase != sc && sc in UsageMap(init, partMap) {
        assert items[LastHolder(init, sc).value] == init[LastHolder(init, sc).value];
      }
    }
  }

  /** The boxMap loop over the items collection. */
  method CollectUsages(items: seq<PartItem>, partMap: map<nat, string>) returns (boxMap: map<string, Usage>)
    ensures boxMap == UsageMap(items, partMap)
  {
    boxMap := map[];
    for i := 0 to |items|
      invariant boxMap == UsageMap(items[..i], partMap)
    {
      assert items[..i + 1][..i] == items[..i];
      var data := items[i];
      if NonBlank(data.storageCase) {
        boxMap := boxMap[data.storageCase := UsageOf(data, partMap)];
      }
    }
    assert items[..|items|] == items;
  }

  /** One row of the board; the nulls are `None`. */
  datatype BoxStatus = BoxStatus(
    boxId: string,
    isUsed: bool,
    itemId: Option<nat>,
    partNumber: Option<string>,
    status: Option<ProcessStatus>)

  /** The row for box `n`. `usage?.itemId || null` makes an item id of 0
      null as well. */
  function RowFor(boxMap: map<string, Usage>, n: nat): BoxStatus
  {
    var boxId := BoxLabel(n);
    if boxId in boxMap then
      var u := boxMap[boxId];
      BoxStatus(boxId, true, if u.itemId != 0 then Some(u.itemId) else None,
                if u.partNumber != [] then Some(u.partNumber) else None, Some(u.status))
    else BoxStatus(boxId, false, None, None, None)
  }

  /** The board for boxes 1..maxBoxNumber, none when that is below 1. */
  function Board(boxMap: map<string, Usage>, maxBoxNumber: int): seq<BoxStatus>
  {
    seq(Clamp(maxBoxNumber), i requires 0 <= i => RowFor(boxMap, i + 1))
  }

  /** The body of the board loop: look the box's label up in boxMap. */
  method BoardRow(boxMap: map<string, Usage>, i: nat) returns (row: BoxStatus)
    ensures row == RowFor(boxMap, i)
  {
    var boxId := BoxLabel(i);
    if boxId in boxMap {
      var usage := boxMap[boxId];
      row := BoxStatus(boxId, true, if usage.itemId != 0 then Some(usage.itemId) else None,
                       if usage.partNumber != [] then Some(usage.partNumber) else None, Some(usage.status));
    } else {
      row := BoxStatus(boxId, false, None, None, None);
    }
  }

  /** `getStorageBoxStatus`. A failing read of the collections is not part of
      this model. */
  method GetStorageBoxStatus(db: Db, maxBoxNumber: int) returns (boxes: seq<BoxStatus>)
    ensures boxes == Board(UsageMap(db.items, PartNumberMap(db.parts)), maxBoxNumber)
  {
    var partMap := CollectPartNumbers(db.parts);
    var boxMap := CollectUsages(db.items, partMap);
    boxes := [];
    for i := 1 to Clamp(maxBoxNumber) + 1
      invariant |boxes| == i - 1
      invariant forall j :: 0 <= j < |boxes| ==> boxes[j] == RowFor(boxMap, j + 1)
    {
      var row := BoardRow(boxMap, i);
      boxes := boxes + [row];
    }
  }

  /** The part number the board shows for a part id: that of the last part
      with the id, or 'Unknown' when there is none or it is empty. */
  function ReportedPartNumber(parts: seq<Part>, partId: nat): (pn: string)
    ensures pn != []
  {
    match LastPartWithId(parts, partId)
    case None => "Unknown"
    case Some(p) => if parts[p].partNumber != [] then parts[p].partNumber else "Unknown"
  }

  /** The board has one row per box number up to the maximum, labelled in
      order. Box n is in use exactly when some item's storage case is its
      label, character for character; its row then reports the last such
      item: its stage, its id (null when 0) and its part's number; an unused
      row has every field null. */
  lemma BoardSpec(items: seq<PartItem>, parts: seq<Part>, maxBoxNumber: int, i: nat)
    requires i < Clamp(maxBoxNumber)
    ensures var board := Board(UsageMap(items, PartNumberMap(parts)), maxBoxNumber);
      var holder := LastHolder(items, BoxLabel(i + 1));
      && |board| == Clamp(maxBoxNumber)
      && board[i].boxId == BoxLabel(i + 1)
      && (board[i].isUsed <==> holder.Some?)
      && (!board[i].isUsed ==> board[i].itemId.None? && board[i].partNumber.None? && board[i].status.None?)
      && (board[i].isUsed ==>
            && board[i].status == Some(items[holder.value].status)
            && (board[i].itemId.Some? <==> items[holder.value].id != 0)
            && (board[i].itemId.Some? ==> board[i].itemId.value == items[holder.value].id)
            && board[i].partNumber == Some(ReportedPartNumber(parts, items[holder.value].partId)))
  {
    var partMap := PartNumberMap(parts);
    var sc := BoxLabel(i + 1);
    BoxLabelNonBlank(i + 1);
    UsageMapSpec(items, partMap, sc);
    var holder := LastHolder(items, sc);
    if holder.Some? {
      PartNumberMapSpec(parts, items[holder.value].partId);
    }
  }

  /** A box label ends in a digit. */
  lemma BoxLabelEndsInDigit(n: nat)
    ensures var b := BoxLabel(n); |b| > 4 && b[..4] == "BOX-" && IsAsciiDigit(b[|b| - 1])
  {
    LabelRoundTrip(n);
    var b := BoxLabel(n);
    assert b[|b| - 1] == b[4..][|b| - 5];
  }

  /** The labels print registration and defect reports give (`AUTO-…` and
      `… (RE)`) are never box labels. */
  lemma ForeignLabelsAreNotBoxes(partNumber: string, i: nat, storageCase: string, n: nat)
    ensures AutoLabel(partNumber, i) != BoxLabel(n)
    ensures ReworkLabel(storageCase) != BoxLabel(n)
  {
    BoxLabelEndsInDigit(n);
    assert AutoLabel(partNumber, i)[0] == 'A';
    var r := ReworkLabel(storageCase);
    assert r[|r| - 1] == ')';
  }

  /** So an item under such a label never occupies a box on the board. */
  lemma ForeignItemLeavesBoardAlone(items: seq<PartItem>, parts: seq<Part>, item: PartItem, maxBoxNumber: int,
                                    partNumber: string, k: nat, storageCase: string)
    requires item.storageCase == AutoLabel(partNumber, k) || item.storageCase == ReworkLabel(storageCase)
    ensures Board(UsageMap(items + [item], PartNumberMap(parts)), maxBoxNumber)
         == Board(UsageMap(items, PartNumberMap(parts)), maxBoxNumber)
  {
    var partMap := PartNumberMap(parts);
    var before := UsageMap(items, partMap);
    var after := UsageMap(items + [item], partMap);
    assert (items + [item])[..|items|] == items;
    assert after == if NonBlank(item.storageCase) then before[item.storageCase := UsageOf(item, partMap)] else before;
    forall n | 1 <= n <= Clamp(maxBoxNumber)
      ensures RowFor(after, n) == RowFor(before, n)
    {
      ForeignLabelsAreNotBoxes(partNumber, k, storageCase, n);
      var b := BoxLabel(n);
      assert b != item.storageCase;
      assert (b in after <==> b in before) && (b in after ==> after[b] == before[b]);
    }
  }

  /** After a release the released item occupies no box: box n is in use
      exactly when some other item carries its label. */
  lemma ReleaseFreesBox(items: seq<PartItem>, parts: seq<Part>, k: nat, now: Timestamp, maxBoxNumber: int, i: nat)
    requires k < |items| && i < Clamp(maxBoxNumber)
    ensures var after := items[k := Released(items[k], now)];
      (Board(UsageMap(after, PartNumberMap(parts)), maxBoxNumber)[i].isUsed)
        <==> (exists j :: 0 <= j < |items| && j != k && items[j].storageCase == BoxLabel(i + 1))
  {
    var after := items[k := Released(items[k], now)];
    BoardSpec(after, parts, maxBoxNumber, i);
    BoxLabelEndsInDigit(i + 1);
    assert after[k].storageCase == "";
    if exists j :: 0 <= j < |items| && j != k && items[j].storageCase == BoxLabel(i + 1) {
      var j :| 0 <= j < |items| && j != k && items[j].storageCase == BoxLabel(i + 1);
      assert after[j] == items[j];
    }
  }
}
