// The Firestore collections the services read and write: `parts` and
// `partItems`, held in one in-memory store. A collection is the list of its
// documents in document order; each document's id is the record's own `id`,
// and ids only ever grow, so document order is ascending id order.

module Store {
  import opened Common
  import opened Stages

  /** A `parts` document (src/modules/inventory/types/index.ts). The project id
      is whatever the caller passed: a number from print registration, a
      string from STL import; the store compares them strictly. */
  datatype Part = Part(id: nat, partNumber: string, projectId: IdArg)

  /** A `partItems` document (src/modules/production/types/index.ts), with the
      `stl_url` that print registration adds. */
  datatype PartItem = PartItem(
    id: nat,
    partId: nat,
    storageCase: string,
    status: ProcessStatus,
    completedAt: Option<Timestamp>,
    updatedAt: Option<Timestamp>,
    stlUrl: Option<string>)

  /** The document ids of a collection, in document order. */
  function PartIds(parts: seq<Part>): seq<nat>
  {
    seq(|parts|, i requires 0 <= i < |parts| => parts[i].id)
  }

  function ItemIds(items: seq<PartItem>): seq<nat>
  {
    seq(|items|, i requires 0 <= i < |items| => items[i].id)
  }

  lemma PartIdsAppend(parts: seq<Part>, more: seq<Part>)
    ensures PartIds(parts + more) == PartIds(parts) + PartIds(more)
  {
    var all := parts + more;
    assert forall i :: 0 <= i < |all| ==> PartIds(all)[i] == (PartIds(parts) + PartIds(more))[i];
  }

  lemma ItemIdsAppend(items: seq<PartItem>, more: seq<PartItem>)
    ensures ItemIds(items + more) == ItemIds(items) + ItemIds(more)
  {
    var all := items + more;
    assert forall i :: 0 <= i < |all| ==> ItemIds(all)[i] == (ItemIds(items) + ItemIds(more))[i];
  }

  predicate Ascending(ids: seq<nat>)
  {
    forall i, j :: 0 <= i < j < |ids| ==> ids[i] < ids[j]
  }

  /** `Math.max(...ids)` */
  function Max(ids: seq<nat>): (m: nat)
    requires ids != []
    ensures m in ids
    ensures forall i :: 0 <= i < |ids| ==> ids[i] <= m
  {
    if |ids| == 1 then ids[0]
    else
      var rest := Max(ids[1..]);
      if ids[0] >= rest then ids[0] else rest
  }

  /** `ids.length > 0 ? Math.max(...ids) + 1 : 1`: the id the services give a
      new document. It is one more than the largest id in use, so it is taken
      by no document. */
  function NextId(ids: seq<nat>): (id: nat)
    ensures id >= 1
    ensures forall i :: 0 <= i < |ids| ==> ids[i] < id
    ensures ids == [] ==> id == 1
    ensures ids != [] ==> id - 1 in ids
  {
    if ids == [] then 1 else Max(ids) + 1
  }

  /** Appending documents whose ids run on from `NextId` keeps ids ascending. */
  lemma AscendingAppend(ids: seq<nat>, more: seq<nat>)
    requires Ascending(ids) && Ascending(more)
    requires more != [] ==> more[0] >= NextId(ids)
    ensures Ascending(ids + more)
  {
  }

  /** Where the document with id `id` sits, if there is one. */
  function FindItem(items: seq<PartItem>, id: int): (k: Option<nat>)
    ensures k.Some? ==> k.value < |items| && items[k.value].id == id
    ensures k.Some? ==> forall j :: 0 <= j < k.value ==> items[j].id != id
    ensures k.None? <==> forall j :: 0 <= j < |items| ==> items[j].id != id
  {
    if items == [] then None
    else if items[0].id == id then Some(0)
    else match FindItem(items[1..], id)
      case None => None
      case Some(k) => Some(k + 1)
  }

  /** The two collections. */
  class Db {
    var parts: seq<Part>
    var items: seq<PartItem>

    /** Document ids are unique keys, and documents are listed by id. */
    ghost predicate Valid()
      reads this
    {
      Ascending(PartIds(parts)) && Ascending(ItemIds(items))
    }

    constructor (parts0: seq<Part>, items0: seq<PartItem>)
      requires Ascending(PartIds(parts0)) && Ascending(ItemIds(items0))
      ensures Valid() && parts == parts0 && items == items0
    {
      parts := parts0;
      items := items0;
    }
  }
}
