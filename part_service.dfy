// src/modules/inventory/services/partService.ts: the part master. A part is
// looked up by its part number within a project, and created with the next
// free id when it is not there.

module PartService {
  import opened Common
  import opened Store

  /** The two `where` filters of the lookup query. */
  predicate Matches(p: Part, partNumber: string, projectId: IdArg)
  {
    p.partNumber == partNumber && p.projectId == projectId
  }

  /** `findPartByNumber`: the first part in document order with this part
      number in this project, or none. */
  function FindPartByNumber(parts: seq<Part>, partNumber: string, projectId: IdArg): (r: Option<Part>)
    ensures r.None? <==> forall i :: 0 <= i < |parts| ==> !Matches(parts[i], partNumber, projectId)
    ensures r.Some? ==> r.value in parts && Matches(r.value, partNumber, projectId)
  {
    if parts == [] then None
    else if Matches(parts[0], partNumber, projectId) then Some(parts[0])
    else
      var r := FindPartByNumber(parts[1..], partNumber, projectId);
      assert forall i :: 1 <= i < |parts| ==> parts[i] == parts[1..][i - 1];
      r
  }

  /** The answer is the first match: every part before it fails a filter. */
  lemma {:induction false} FindPartFirst(parts: seq<Part>, partNumber: string, projectId: IdArg)
    requires FindPartByNumber(parts, partNumber, projectId).Some?
    ensures exists i :: (0 <= i < |parts| && parts[i] == FindPartByNumber(parts, partNumber, projectId).value
                         && forall j :: 0 <= j < i ==> !Matches(parts[j], partNumber, projectId))
  {
    if !Matches(parts[0], partNumber, projectId) {
      FindPartFirst(parts[1..], partNumber, projectId);
      var i :| (0 <= i < |parts[1..]| && parts[1..][i] == FindPartByNumber(parts[1..], partNumber, projectId).value
                && forall j :: 0 <= j < i ==> !Matches(parts[1..][j], partNumber, projectId));
      assert parts[i + 1] == FindPartByNumber(parts, partNumber, projectId).value;
      assert forall j :: 1 <= j < i + 1 ==> parts[j] == parts[1..][j - 1];
    } else {
      assert parts[0] == FindPartByNumber(parts, partNumber, projectId).value;
    }
  }

  /** Looking up in a longer table finds the old answer if there was one, and
      otherwise the appended part when it matches. */
  lemma {:induction false} FindAfterAppend(parts: seq<Part>, p: Part, partNumber: string, projectId: IdArg)
    ensures FindPartByNumber(parts + [p], partNumber, projectId) ==
      if FindPartByNumber(parts, partNumber, projectId).Some? then FindPartByNumber(parts, partNumber, projectId)
      else if Matches(p, partNumber, projectId) then Some(p)
      else None
  {
    if parts != [] {
      assert (parts + [p])[1..] == parts[1..] + [p];
      FindAfterAppend(parts[1..], p, partNumber, projectId);
    }
  }

  /** The part `createPart` writes: the next id after every part id in use. */
  function NewPart(parts: seq<Part>, partNumber: string, projectId: IdArg): (p: Part)
    ensures p.id !in PartIds(parts)
    ensures Matches(p, partNumber, projectId)
  {
    Part(NextId(PartIds(parts)), partNumber, projectId)
  }

  /** Adding the new part keeps part ids unique and ascending. */
  lemma AppendNewPartValid(parts: seq<Part>, partNumber: string, projectId: IdArg)
    requires Ascending(PartIds(parts))
    ensures Ascending(PartIds(parts + [NewPart(parts, partNumber, projectId)]))
  {
    var p := NewPart(parts, partNumber, projectId);
    PartIdsAppend(parts, [p]);
    AscendingAppend(PartIds(parts), PartIds([p]));
  }

  /** `createPart`: stores a new part under the next free id and returns it. */
  method CreatePart(db: Db, partNumber: string, projectId: IdArg) returns (newPart: Part)
    requires db.Valid()
    modifies db
    ensures db.Valid()
    ensures newPart == NewPart(old(db.parts), partNumber, projectId)
    ensures db.parts == old(db.parts) + [newPart] && db.items == old(db.items)
  {
    var existingIds := PartIds(db.parts);
    var newPartId := NextId(existingIds);
    newPart := Part(newPartId, partNumber, projectId);
    AppendNewPartValid(db.parts, partNumber, projectId);
    db.parts := db.parts + [newPart];
  }

  /** The part `ensurePartExists` answers for a parts table. */
  function EnsuredPart(parts: seq<Part>, partNumber: string, projectId: IdArg): (p: Part)
    ensures Matches(p, partNumber, projectId)
  {
    match FindPartByNumber(parts, partNumber, projectId)
    case Some(found) => found
    case None => NewPart(parts, partNumber, projectId)
  }

  /** The parts table after `ensurePartExists`. */
  function EnsuredParts(parts: seq<Part>, partNumber: string, projectId: IdArg): (after: seq<Part>)
    ensures EnsuredPart(parts, partNumber, projectId) in after
    ensures |parts| <= |after| <= |parts| + 1 && after[..|parts|] == parts
  {
    match FindPartByNumber(parts, partNumber, projectId)
    case Some(_) => parts
    case None => parts + [NewPart(parts, partNumber, projectId)]
  }

  /** After `ensurePartExists` the lookup finds the part it answered, and a
      second call finds it again and changes nothing: the operation is
      idempotent, so one part number in one project gets one part. */
  lemma EnsureIdempotent(parts: seq<Part>, partNumber: string, projectId: IdArg)
    ensures FindPartByNumber(EnsuredParts(parts, partNumber, projectId), partNumber, projectId)
      == Some(EnsuredPart(parts, partNumber, projectId))
    ensures EnsuredParts(EnsuredParts(parts, partNumber, projectId), partNumber, projectId)
      == EnsuredParts(parts, partNumber, projectId)
    ensures EnsuredPart(EnsuredParts(parts, partNumber, projectId), partNumber, projectId)
      == EnsuredPart(parts, partNumber, projectId)
  {
    if FindPartByNumber(parts, partNumber, projectId).None? {
      FindAfterAppend(parts, NewPart(parts, partNumber, projectId), partNumber, projectId);
    }
  }

  /** `ensurePartExists`: the existing part, or a newly created one. */
  method EnsurePartExists(db: Db, partNumber: string, projectId: IdArg) returns (part: Part)
    requires db.Valid()
    modifies db
    ensures db.Valid()
    ensures part == EnsuredPart(old(db.parts), partNumber, projectId)
    ensures db.parts == EnsuredParts(old(db.parts), partNumber, projectId) && db.items == old(db.items)
  {
    var existingPart := FindPartByNumber(db.parts, partNumber, projectId);
    if existingPart.Some? {
      return existingPart.value;
    }
    part := CreatePart(db, partNumber, projectId);
  }
}
