// src/modules/engineering/actions/importStl.ts: importing STL files into a
// project. Each file name is parsed; the file is uploaded, its part found or
// created, fresh boxes allocated, and one item per box written. The preview
// parses names and simulates the box allocation without writing anything.

module ImportStl {
  import opened Common
  import opened Stages
  import opened Store
  import opened Errors
  import opened StlService
  import opened PartService
  import opened ItemService
  import opened BoxService

  /** `ImportResult`: the outcome of importing one file. */
  datatype ImportResult = ImportResult(
    success: bool,
    fileName: string,
    partNumber: Option<string>,
    partId: Option<nat>,
    itemsCreated: Option<nat>,
    error: Option<ServiceError>)

  function Failed(fileName: string, error: ServiceError): ImportResult
  {
    ImportResult(false, fileName, None, None, None, Some(error))
  }

  /** Both collections, as one value. */
  datatype Tables = Tables(parts: seq<Part>, items: seq<PartItem>)

  /** The writes of an import whose name parsed and whose file uploaded: the
      part found or created, one item per freshly allocated box. The project
      id arrives as a string and is stored and queried as one. */
  function ImportWrites(t: Tables, fileName: string, parsed: ParsedFileInfo, projectId: string,
                        status: ProcessStatus, now: Timestamp): (ImportResult, Tables)
  {
    var part := EnsuredPart(t.parts, parsed.partNumber, StringId(projectId));
    var boxes := Allocation(UsedBoxes(t.items), parsed.quantity);
    var made := NewItems(NextId(ItemIds(t.items)), part.id, boxes, status, now, None);
    (ImportResult(true, fileName, Some(parsed.partNumber), Some(part.id), Some(parsed.quantity), None),
     Tables(EnsuredParts(t.parts, parsed.partNumber, StringId(projectId)), t.items + made))
  }

  /** What importing one file answers, and the collections after it, once its
      name has been parsed. */
  function ImportParsed(t: Tables, upload: Uploader, fileName: string, parsed: ParsedFileInfo,
                        projectId: string, status: ProcessStatus, now: Timestamp): (ImportResult, Tables)
  {
    if !parsed.isValid then
      // The parser sets a message on every invalid name, so the fallback is
      // never taken on a name `ParseFileName` produced.
      (Failed(fileName, if parsed.errorMessage.Some? then InvalidFileName(parsed.errorMessage.value) else UnparsedFileName), t)
    else
      var uploaded := upload(StoragePath(StringId(projectId), parsed.partNumber, now));
      if uploaded.Err? then (Failed(fileName, UploadFailed(uploaded.error)), t)
      else ImportWrites(t, fileName, parsed, projectId, status, now)
  }

  function ImportOne(t: Tables, upload: Uploader, fileName: string, projectId: string,
                     status: ProcessStatus, now: Timestamp): (ImportResult, Tables)
  {
    ImportParsed(t, upload, fileName, ParseFileName(fileName), projectId, status, now)
  }

  /** A failed import names its file and its reason and leaves the
      collections as they were; an unparsable name fails with the parser's
      reason, and a rejected upload with the store's message. */
  lemma ImportFailureSpec(t: Tables, upload: Uploader, fileName: string, parsed: ParsedFileInfo, projectId: string,
                          status: ProcessStatus, now: Timestamp)
    ensures var (r, after) := ImportParsed(t, upload, fileName, parsed, projectId, status, now);
      && r.fileName == fileName
      && (!parsed.isValid && parsed.errorMessage.Some? ==>
            !r.success && r.error == Some(InvalidFileName(parsed.errorMessage.value)))
      && (!parsed.isValid && parsed.errorMessage.None? ==> !r.success && r.error == Some(UnparsedFileName))
      && (parsed.isValid && upload(StoragePath(StringId(projectId), parsed.partNumber, now)).Err? ==>
            !r.success
            && r.error == Some(UploadFailed(upload(StoragePath(StringId(projectId), parsed.partNumber, now)).error)))
      && (!r.success ==> r.error.Some? && after == t)
  {
  }

  /** The items an import writes for `count` fresh boxes: of the part, in the
      given stage, under ids no earlier item has, each in a box no earlier
      item occupies and no other new item shares. */
  lemma ImportedItemsSpec(items: seq<PartItem>, partId: nat, count: nat, status: ProcessStatus, now: Timestamp)
    ensures var made := NewItems(NextId(ItemIds(items)), partId, Allocation(UsedBoxes(items), count), status, now, None);
      && |made| == count
      && (forall i :: 0 <= i < |made| ==>
            && made[i].partId == partId
            && made[i].status == status
            && made[i].id !in ItemIds(items)
            && forall j :: 0 <= j < |items| ==> items[j].storageCase != made[i].storageCase)
      && (forall i, j :: 0 <= i < j < |made| ==> made[i].storageCase != made[j].storageCase)
  {
    var boxes := Allocation(UsedBoxes(items), count);
    var first := NextId(ItemIds(items));
    var made := NewItems(first, partId, boxes, status, now, None);
    NewItemsAt(first, partId, boxes, status, now, None);
    AllocationFresh(UsedBoxes(items), count);
    AllocationUnshared(items, count);
    assert forall k :: 0 <= k < |items| ==> ItemIds(items)[k] < first;
  }

  /** An import succeeds exactly when the name parses and the upload
      completes. A successful import writes as many items as the file name asks for,
      all of the file's part, in the given stage, under fresh ids, each in a
      box of its own that no item occupied before; earlier items stay as
      they were. */
  lemma ImportSuccessSpec(t: Tables, upload: Uploader, fileName: string, parsed: ParsedFileInfo, projectId: string,
                          status: ProcessStatus, now: Timestamp)
    ensures var (r, after) := ImportParsed(t, upload, fileName, parsed, projectId, status, now);
      var n := |t.items|;
      && (parsed.isValid && upload(StoragePath(StringId(projectId), parsed.partNumber, now)).Ok? ==> r.success)
      && (r.success ==>
          && parsed.isValid && upload(StoragePath(StringId(projectId), parsed.partNumber, now)).Ok?
          && r.error.None? && r.partNumber == Some(parsed.partNumber) && r.itemsCreated == Some(parsed.quantity)
          && after.parts == EnsuredParts(t.parts, parsed.partNumber, StringId(projectId))
          && r.partId == Some(EnsuredPart(t.parts, parsed.partNumber, StringId(projectId)).id)
          && |after.items| == n + parsed.quantity && after.items[..n] == t.items
          && (forall i :: n <= i < |after.items| ==>
                && after.items[i].partId == r.partId.value
                && after.items[i].status == status
                && after.items[i].id !in ItemIds(t.items)
                && forall j :: 0 <= j < n ==> t.items[j].storageCase != after.items[i].storageCase)
          && (forall i, j :: n <= i < j < |after.items| ==> after.items[i].storageCase != after.items[j].storageCase))
  {
    var (r, after) := ImportParsed(t, upload, fileName, parsed, projectId, status, now);
    if r.success {
      var part := EnsuredPart(t.parts, parsed.partNumber, StringId(projectId));
      var made := NewItems(NextId(ItemIds(t.items)), part.id, Allocation(UsedBoxes(t.items), parsed.quantity),
                           status, now, None);
      assert after.items == t.items + made;
      ImportedItemsSpec(t.items, part.id, parsed.quantity, status, now);
    }
  }

  /** `importSingleStl`: every failure is caught and reported in the result. */
  method ImportSingleStl(db: Db, upload: Uploader, fileName: string, projectId: string,
                         defaultStatus: ProcessStatus, now: Timestamp)
    returns (result: ImportResult)
    requires db.Valid()
    modifies db
    ensures db.Valid()
    ensures (result, Tables(db.parts, db.items))
      == ImportOne(Tables(old(db.parts), old(db.items)), upload, fileName, projectId, defaultStatus, now)
  {
    var parsed := ParseFileName(fileName);
    if !parsed.isValid {
      return Failed(fileName, InvalidFileName(parsed.errorMessage.value));
    }
    var partNumber := parsed.partNumber;
    var quantity := parsed.quantity;
    var uploaded := upload(StoragePath(StringId(projectId), partNumber, now));
    if uploaded.Err? {
      return Failed(fileName, UploadFailed(uploaded.error));
    }
    var part := EnsurePartExists(db, partNumber, StringId(projectId));
    var boxes := AllocateBoxes(db, quantity);
    var created := CreateItems(db, part.id, quantity, boxes, defaultStatus, now);
    result := ImportResult(true, fileName, Some(partNumber), Some(part.id), Some(quantity), None);
  }

  /** The results and the collections after importing the files in order,
      given each name's parse result. */
  function ImportAll(t: Tables, upload: Uploader, fileNames: seq<string>, parsed: seq<ParsedFileInfo>,
                     projectId: string, status: ProcessStatus, now: Timestamp): (out: (seq<ImportResult>, Tables))
    requires |parsed| == |fileNames|
    ensures |out.0| == |fileNames|
  {
    if fileNames == [] then ([], t)
    else
      var n := |fileNames| - 1;
      var before := ImportAll(t, upload, fileNames[..n], parsed[..n], projectId, status, now);
      var one := ImportParsed(before.1, upload, fileNames[n], parsed[n], projectId, status, now);
      (before.0 + [one.0], one.1)
  }

  /** Each file gets its own result, in the order the files were given. */
  lemma {:induction false} ImportAllResults(t: Tables, upload: Uploader, fileNames: seq<string>, parsed: seq<ParsedFileInfo>,
                                            projectId: string, status: ProcessStatus, now: Timestamp)
    requires |parsed| == |fileNames|
    ensures forall i :: 0 <= i < |fileNames| ==>
              ImportAll(t, upload, fileNames, parsed, projectId, status, now).0[i].fileName == fileNames[i]
  {
    if fileNames != [] {
      var n := |fileNames| - 1;
      ImportAllResults(t, upload, fileNames[..n], parsed[..n], projectId, status, now);
      var before := ImportAll(t, upload, fileNames[..n], parsed[..n], projectId, status, now);
      ImportFailureSpec(before.1, upload, fileNames[n], parsed[n], projectId, status, now);
    }
  }

  /** Importing one more file extends the results by that file's result. */
  lemma ImportAllSnoc(t: Tables, upload: Uploader, fileNames: seq<string>, parsed: seq<ParsedFileInfo>, i: nat,
                      projectId: string, status: ProcessStatus, now: Timestamp,
                      results: seq<ImportResult>, before: Tables, r: ImportResult, after: Tables)
    requires |parsed| == |fileNames| && i < |fileNames|
    requires (results, before) == ImportAll(t, upload, fileNames[..i], parsed[..i], projectId, status, now)
    requires parsed[i] == ParseFileName(fileNames[i])
    requires (r, after) == ImportOne(before, upload, fileNames[i], projectId, status, now)
    ensures (results + [r], after) == ImportAll(t, upload, fileNames[..i + 1], parsed[..i + 1], projectId, status, now)
  {
    assert fileNames[..i + 1][..i] == fileNames[..i] && parsed[..i + 1][..i] == parsed[..i];
  }

  /** `importMultipleStl`: the files one after another; a failure of one
      file does not stop the rest. */
  method ImportMultipleStl(db: Db, upload: Uploader, fileNames: seq<string>, projectId: string,
                           defaultStatus: ProcessStatus, now: Timestamp)
    returns (results: seq<ImportResult>)
    requires db.Valid()
    modifies db
    ensures db.Valid()
    ensures (results, Tables(db.parts, db.items))
      == ImportAll(Tables(old(db.parts), old(db.items)), upload, fileNames, ParseFileNames(fileNames),
                   projectId, defaultStatus, now)
  {
    ghost var parsed := ParseFileNames(fileNames);
    ghost var t := Tables(db.parts, db.items);
    results := [];
    for i := 0 to |fileNames|
      invariant db.Valid()
      invariant (results, Tables(db.parts, db.items))
        == ImportAll(t, upload, fileNames[..i], parsed[..i], projectId, defaultStatus, now)
    {
      ghost var before := Tables(db.parts, db.items);
      var result := ImportSingleStl(db, upload, fileNames[i], projectId, defaultStatus, now);
      assert parsed[i] == ParseFileName(fileNames[i]);
      ImportAllSnoc(t, upload, fileNames, parsed, i, projectId, defaultStatus, now,
                    results, before, result, Tables(db.parts, db.items));
      results := results + [result];
    }
    assert fileNames[..|fileNames|] == fileNames && parsed[..|parsed|] == parsed;
  }

  // ---------------------------------------------------------------------------
  // previewFileNames

  function QuantitiesOf(infos: seq<ParsedFileInfo>): seq<int>
  {
    seq(|infos|, i requires 0 <= i < |infos| => infos[i].quantity)
  }

  /** The map over the parse results: an invalid one as it is, the k-th valid
      one with the k-th list of boxes (`undefined` past the end). */
  function WithBoxes(parsed: seq<ParsedFileInfo>, allocations: seq<seq<string>>): (r: seq<ParsedFileInfo>)
    ensures |r| == |parsed|
  {
    if parsed == [] then []
    else
      var init := parsed[..|parsed| - 1];
      var p := parsed[|parsed| - 1];
      var k := |FilterValidParsedInfos(init)|;
      WithBoxes(init, allocations)
        + [if !p.isValid then p
           else p.(storageBoxes := if k < |allocations| then Some(allocations[k]) else None)]
  }

  lemma {:induction false} WithBoxesAt(parsed: seq<ParsedFileInfo>, allocations: seq<seq<string>>, i: nat)
    requires i < |parsed|
    ensures var k := |FilterValidParsedInfos(parsed[..i])|;
      WithBoxes(parsed, allocations)[i]
        == if !parsed[i].isValid then parsed[i]
           else parsed[i].(storageBoxes := if k < |allocations| then Some(allocations[k]) else None)
  {
    var init := parsed[..|parsed| - 1];
    if i < |init| {
      WithBoxesAt(init, allocations, i);
      assert init[..i] == parsed[..i];
    }
  }

  /** The preview of parse results, given the boxes in use. */
  function PreviewParsed(used: set<string>, parsed: seq<ParsedFileInfo>): seq<ParsedFileInfo>
  {
    WithBoxes(parsed, Preview(used, QuantitiesOf(FilterValidParsedInfos(parsed))))
  }

  /** Where the i-th valid name sits among the valid ones. */
  lemma ValidRankIncreases(parsed: seq<ParsedFileInfo>, i: nat, j: nat)
    requires i < j <= |parsed| && parsed[i].isValid
    ensures |FilterValidParsedInfos(parsed[..i])| < |FilterValidParsedInfos(parsed[..j])|
  {
    assert parsed[..j] == parsed[..i] + [parsed[i]] + parsed[i + 1..j];
    FilterAppend(parsed[..i] + [parsed[i]], parsed[i + 1..j]);
    FilterAppend(parsed[..i], [parsed[i]]);
  }

  /** The preview answers one entry per name: an invalid name's parse result
      unchanged; a valid one's with a list of as many boxes as its quantity,
      none of them in use. */
  lemma PreviewSpec(used: set<string>, parsed: seq<ParsedFileInfo>, i: nat)
    requires i < |parsed|
    ensures var infos := PreviewParsed(used, parsed);
      && |infos| == |parsed|
      && (!parsed[i].isValid ==> infos[i] == parsed[i])
      && (parsed[i].isValid ==>
            && infos[i].storageBoxes.Some?
            && infos[i] == parsed[i].(storageBoxes := infos[i].storageBoxes)
            && |infos[i].storageBoxes.value| == parsed[i].quantity
            && forall a :: 0 <= a < parsed[i].quantity ==> infos[i].storageBoxes.value[a] !in used)
  {
    var valid := FilterValidParsedInfos(parsed);
    var quantities := QuantitiesOf(valid);
    var lists := Preview(used, quantities);
    WithBoxesAt(parsed, lists, i);
    if parsed[i].isValid {
      FilterIndex(parsed, i);
      var k := |FilterValidParsedInfos(parsed[..i])|;
      assert k < |lists| && quantities[k] == parsed[i].quantity;
      var boxes := lists[k];
      assert PreviewParsed(used, parsed)[i].storageBoxes == Some(boxes);
      PreviewSizes(used, quantities);
      assert |boxes| == parsed[i].quantity;
      PreviewFreeAt(used, quantities, k);
      var infos := PreviewParsed(used, parsed);
      assert infos[i].storageBoxes.value == boxes;
      forall a | 0 <= a < parsed[i].quantity
        ensures infos[i].storageBoxes.value[a] !in used
      {
        assert boxes[a] !in used;
      }
    }
  }

  /** No box is promised to two valid names, nor twice to one. */
  lemma PreviewApartByName(used: set<string>, parsed: seq<ParsedFileInfo>, i: nat, j: nat)
    requires i <= j < |parsed| && parsed[i].isValid && parsed[j].isValid
    ensures var infos := PreviewParsed(used, parsed);
      var bi, bj := infos[i].storageBoxes, infos[j].storageBoxes;
      bi.Some? && bj.Some? &&
      forall a, b :: 0 <= a < |bi.value| && 0 <= b < |bj.value| && (i != j || a != b) ==> bi.value[a] != bj.value[b]
  {
    var quantities := QuantitiesOf(FilterValidParsedInfos(parsed));
    var lists := Preview(used, quantities);
    WithBoxesAt(parsed, lists, i);
    WithBoxesAt(parsed, lists, j);
    FilterIndex(parsed, i);
    FilterIndex(parsed, j);
    if i < j {
      ValidRankIncreases(parsed, i, j);
    }
    PreviewApart(used, quantities, |FilterValidParsedInfos(parsed[..i])|, |FilterValidParsedInfos(parsed[..j])|);
  }

  /** The loop of `previewFileNames` that hands the k-th list to the k-th
      valid name. */
  method AttachBoxes(parsedResults: seq<ParsedFileInfo>, boxAllocations: seq<seq<string>>)
    returns (infos: seq<ParsedFileInfo>)
    ensures infos == WithBoxes(parsedResults, boxAllocations)
  {
    var validIndex := 0;
    infos := [];
    for i := 0 to |parsedResults|
      invariant validIndex == |FilterValidParsedInfos(parsedResults[..i])|
      invariant infos == WithBoxes(parsedResults[..i], boxAllocations)
    {
      var parsed := parsedResults[i];
      assert parsedResults[..i + 1] == parsedResults[..i] + [parsed];
      FilterAppend(parsedResults[..i], [parsed]);
      if !parsed.isValid {
        infos := infos + [parsed];
      } else {
        var storageBoxes := if validIndex < |boxAllocations| then Some(boxAllocations[validIndex]) else None;
        validIndex := validIndex + 1;
        infos := infos + [parsed.(storageBoxes := storageBoxes)];
      }
    }
    assert parsedResults[..|parsedResults|] == parsedResults;
  }

  /** `previewFileNames`: parse every name, simulate the allocation for the
      valid ones, then hand the lists out to the valid names in order. */
  method PreviewFileNames(db: Db, fileNames: seq<string>) returns (infos: seq<ParsedFileInfo>)
    ensures infos == PreviewParsed(UsedBoxes(db.items), ParseFileNames(fileNames))
  {
    var parsedResults := ParseFileNames(fileNames);
    var validResults := FilterValidParsedInfos(parsedResults);
    var quantities := QuantitiesOf(validResults);
    var boxAllocations := PreviewBoxAllocation(db, quantities);
    infos := AttachBoxes(parsedResults, boxAllocations);
  }
}
