// src/modules/production/actions/createPrinted.ts: the server action behind
// the print registration form. It takes the part number from the file name
// and registers `qty` printed copies; any failure is rethrown to the caller.

module CreatePrinted {
  import opened Common
  import opened Stages
  import opened Store
  import opened Errors
  import opened StlService
  import opened PartService
  import opened ProductionService

  /** `createPrinted`. An invalid file name fails with the parser's reason and
      writes nothing; otherwise the outcome is that of `registerPrintedItems`
      for the parsed part number and the `qty` argument (the quantity written
      in the file name is not used), and a success answers the part number. */
  method CreatePrinted(db: Db, upload: Uploader, fileName: string, projectId: int, qty: int,
                       targetStatus: ProcessStatus, now: Timestamp)
    returns (r: Result<string, ServiceError>)
    requires db.Valid()
    modifies db
    ensures db.Valid()
    ensures !ParseFileName(fileName).isValid ==>
      && r == Err(InvalidFileName(ParseFileName(fileName).errorMessage.value))
      && db.parts == old(db.parts) && db.items == old(db.items)
    ensures ParseFileName(fileName).isValid ==>
      var partNumber := ParseFileName(fileName).partNumber;
      var uploaded := upload(StoragePath(NumberId(projectId), partNumber, now));
      && (uploaded.Err? ==>
            r == Err(UploadFailed(uploaded.error)) && db.parts == old(db.parts) && db.items == old(db.items))
      && (uploaded.Ok? ==>
            && r == Ok(partNumber)
            && db.parts == EnsuredParts(old(db.parts), partNumber, NumberId(projectId))
            && db.items == old(db.items)
                 + RegisteredItems(old(db.parts), old(db.items), partNumber, projectId, qty, targetStatus, now, uploaded.value))
  {
    var parsed := ParseFileName(fileName);
    if !parsed.isValid {
      return Err(InvalidFileName(parsed.errorMessage.value));
    }
    var partNumber := parsed.partNumber;
    var result := RegisterPrintedItems(db, upload, partNumber, projectId, qty, targetStatus, now);
    if result.Err? {
      return Err(result.error);
    }
    return Ok(result.value.0);
  }
}
