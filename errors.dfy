// Why a service call fails. The services throw `Error`s whose messages are
// Japanese or English texts; the model keeps the kind of failure and the
// values it mentions, not the wording.

module Errors {
  import StlService

  datatype ServiceError =
    | InvalidFileName(reason: StlService.ParseError)   // the parser's errorMessage, rethrown
    | UnparsedFileName                                 // importSingleStl's fallback when the parser gives no message
    | UploadFailed(message: string)                    // the blob upload rejected
    | NoDocumentToUpdate(itemId: int)                  // `updateDoc` on an id with no document
    | BoxCountMismatch(boxes: nat, quantity: int)      // createItems' length check
    | ItemNotFound                                     // reportDefect's own check, 'Item not found'
}
