// app/utils.ts: the progress summary of the mock-store era, over the records
// of app/types.ts. It ranks an item's process by its place among the
// PROCESSES keys, where READY has no place.

module AppUtils {
  import opened Common
  import opened AppTypes
  import Stages

  /** One row of the summary. */
  datatype ProgressRow = ProgressRow(
    id: int,
    partNumber: string,
    currentProcess: Process,
    storageCases: seq<string>,
    count: nat)

  /** `partItems.filter(item => item.part_id === partId)` over this file's
      `AppTypes.PartItem`; `ItemService.ItemsOfPart` is the same filter over
      the service's record type. */
  function ItemsOfPart(items: seq<PartItem>, partId: int): (mine: seq<PartItem>)
    ensures |mine| <= |items|
    ensures forall x :: x in mine <==> x in items && x.partId == partId
  {
    if items == [] then []
    else
      var prev := ItemsOfPart(items[..|items| - 1], partId);
      assert items == items[..|items| - 1] + [items[|items| - 1]];
      if items[|items| - 1].partId == partId then prev + [items[|items| - 1]] else prev
  }

  /** The filter distributes over concatenation: it keeps the part's items in
      their original order, each as often as it occurs. */
  lemma {:induction false} ItemsOfPartAppend(a: seq<PartItem>, b: seq<PartItem>, partId: int)
    ensures ItemsOfPart(a + b, partId) == ItemsOfPart(a, partId) + ItemsOfPart(b, partId)
  {
    if b == [] {
      assert a + b == a;
    } else {
      var c, init, x := a + b, b[..|b| - 1], b[|b| - 1];
      assert c[..|c| - 1] == a + init && c[|c| - 1] == x;
      ItemsOfPartLast(c, partId);
      ItemsOfPartLast(b, partId);
      ItemsOfPartAppend(a, init, partId);
    }
  }

  lemma ItemsOfPartLast(items: seq<PartItem>, partId: int)
    requires items != []
    ensures var n := |items| - 1;
      ItemsOfPart(items, partId)
        == ItemsOfPart(items[..n], partId) + (if items[n].partId == partId then [items[n]] else [])
  {
  }

  /** The filtered list is as long as the number of positions holding an item
      of the part. */
  lemma {:induction false} ItemsOfPartCount(items: seq<PartItem>, partId: int)
    ensures |ItemsOfPart(items, partId)| == |set j | 0 <= j < |items| && items[j].partId == partId|
  {
    if items != [] {
      var n := |items| - 1;
      var tail := if items[n].partId == partId then [items[n]] else [];
      ItemsOfPartCount(items[..n], partId);
      PositionsLast(items, partId);
      ItemsOfPartLast(items, partId);
      assert |ItemsOfPart(items, partId)| == |ItemsOfPart(items[..n], partId)| + |tail|;
    }
  }

  /** Adding one item adds its position to the part's positions when it
      belongs to the part. */
  lemma PositionsLast(items: seq<PartItem>, partId: int)
    requires items != []
    ensures var n := |items| - 1;
      |set j | 0 <= j < |items| && items[j].partId == partId|
        == |set j | 0 <= j < n && items[..n][j].partId == partId| + (if items[n].partId == partId then 1 else 0)
  {
    var n := |items| - 1;
    var init := items[..n];
    var s0 := set j | 0 <= j < |init| && init[j].partId == partId;
    var s := set j | 0 <= j < |items| && items[j].partId == partId;
    var tail := if items[n].partId == partId then {n} else {};
    assert s == s0 + tail by {
      forall j
        ensures j in s <==> j in s0 + tail
      {
        if 0 <= j < n {
          assert items[j] == init[j];
        }
      }
    }
    assert |s0 + tail| == |s0| + |tail| by {
      assert n !in s0;
    }
  }

  function ProcessesOf(items: seq<PartItem>): seq<Process>
  {
    seq(|items|, i requires 0 <= i < |items| => items[i].currentProcess)
  }

  function StorageCasesOf(items: seq<PartItem>): seq<string>
  {
    seq(|items|, i requires 0 <= i < |items| => items[i].storageCase)
  }

  /** The row for one part, given the process the reduce chose. */
  function RowOf(part: Part, mine: seq<PartItem>, current: Process): ProgressRow
  {
    ProgressRow(part.id, part.partNumber, current, Distinct(StorageCasesOf(mine)), |mine|)
  }

  /** A row lists the storage cases of the part's items, each once, and no
      other, in the order in which each first occurs among the part's items. */
  lemma RowCasesSpec(part: Part, items: seq<PartItem>, current: Process)
    ensures var cases := RowOf(part, ItemsOfPart(items, part.id), current).storageCases;
      && NoDuplicates(cases)
      && (forall c :: c in cases <==> exists x :: x in items && x.partId == part.id && x.storageCase == c)
      && forall i, j :: 0 <= i < j < |cases| ==>
           FirstIndex(StorageCasesOf(ItemsOfPart(items, part.id)), cases[i])
             < FirstIndex(StorageCasesOf(ItemsOfPart(items, part.id)), cases[j])
  {
    var mine := ItemsOfPart(items, part.id);
    var all := StorageCasesOf(mine);
    DistinctSpec(all);
    forall c
      ensures c in Distinct(all) <==> exists x :: x in items && x.partId == part.id && x.storageCase == c
    {
      assert c in Distinct(all) <==> c in Elems(all);
      if c in Elems(all) {
        var i :| 0 <= i < |all| && all[i] == c;
        assert mine[i] in mine;
      }
      if exists x :: x in items && x.partId == part.id && x.storageCase == c {
        var x :| x in items && x.partId == part.id && x.storageCase == c;
        var i :| 0 <= i < |mine| && mine[i] == x;
        assert all[i] == c;
      }
    }
  }

  // ---------------------------------------------------------------------------
  // As written: the reduce is seeded with READY, whose indexOf is -1.

  function EarliestAsWritten(processes: seq<Process>): Process
  {
    if processes == [] then READY
    else
      var earliest := EarliestAsWritten(processes[..|processes| - 1]);
      var p := processes[|processes| - 1];
      if IndexOf(p) < IndexOf(earliest) then p else earliest
  }

  /** No indexOf is below -1, so the READY seed is never replaced: whatever
      the items' processes, the reduce answers READY. */
  lemma {:induction false} EarliestAsWrittenIsReady(processes: seq<Process>)
    ensures EarliestAsWritten(processes) == READY
  {
    if processes != [] {
      EarliestAsWrittenIsReady(processes[..|processes| - 1]);
    }
  }

  function AggregateProgressAsWritten(parts: seq<Part>, items: seq<PartItem>): (rows: seq<ProgressRow>)
    ensures |rows| == |parts|
    ensures forall i :: 0 <= i < |rows| ==>
              && rows[i].id == parts[i].id && rows[i].partNumber == parts[i].partNumber
              && rows[i].count == |ItemsOfPart(items, parts[i].id)|
              && (rows[i].count == 0 ==> rows[i].currentProcess == UNPRINTED)
  {
    seq(|parts|, i requires 0 <= i < |parts| =>
      var mine := ItemsOfPart(items, parts[i].id);
      RowOf(parts[i], mine, if |mine| > 0 then EarliestAsWritten(ProcessesOf(mine)) else UNPRINTED))
  }

  /** Every part that has items is reported READY, finished or not. */
  lemma AsWrittenReportsReady(parts: seq<Part>, items: seq<PartItem>, i: nat)
    requires i < |parts|
    requires exists x :: x in items && x.partId == parts[i].id
    ensures AggregateProgressAsWritten(parts, items)[i].currentProcess == READY
  {
    var mine := ItemsOfPart(items, parts[i].id);
    var x :| x in items && x.partId == parts[i].id;
    assert x in mine;
    EarliestAsWrittenIsReady(ProcessesOf(mine));
  }

  /** One part with one item still at PRINTED: the summary says READY. */
  lemma AsWrittenCounterexample()
    ensures var rows := AggregateProgressAsWritten([Part(1, "A-01", None)],
                                                   [PartItem(1, 1, "BOX-001", PRINTED, None)]);
      |rows| == 1 && rows[0].currentProcess == READY && rows[0].count == 1
  {
    var items := [PartItem(1, 1, "BOX-001", PRINTED, None)];
    assert items[0] in ItemsOfPart(items, 1);
    AsWrittenReportsReady([Part(1, "A-01", None)], items, 0);
  }

  // ---------------------------------------------------------------------------
  // Corrected: READY, the finished state, ranks after every stage.

  /** The stage order with READY last: its indexOf, except that READY comes
      after ASSEMBLED's place. DEFECTIVE keeps -1 and so ranks first. */
  function Rank(p: Process): (r: int)
    ensures -1 <= r <= |Stages.Processes|
    ensures r == |Stages.Processes| <==> p == READY
    ensures r == -1 <==> p == DEFECTIVE
  {
    if p == READY then |Stages.Processes| else IndexOf(p)
  }

  lemma RankInjective(p: Process, q: Process)
    ensures Rank(p) == Rank(q) ==> p == q
  {
    if Rank(p) == Rank(q) && p != READY && p != DEFECTIVE {
      assert KeyOf(p) == Some(Stages.Processes[IndexOf(p)]) == KeyOf(q);
    }
  }

  function Earliest(processes: seq<Process>): Process
  {
    if processes == [] then READY
    else
      var earliest := Earliest(processes[..|processes| - 1]);
      var p := processes[|processes| - 1];
      if Rank(p) < Rank(earliest) then p else earliest
  }

  /** The corrected reduce answers the least advanced of the items'
      processes, and READY exactly when every item is READY. */
  lemma {:induction false} EarliestSpec(processes: seq<Process>)
    requires processes != []
    ensures Earliest(processes) in processes
    ensures forall p :: p in processes ==> Rank(Earliest(processes)) <= Rank(p)
    ensures Earliest(processes) == READY <==> forall p :: p in processes ==> p == READY
  {
    var init := processes[..|processes| - 1];
    var last := processes[|processes| - 1];
    assert processes == init + [last];
    if init == [] {
      RankInjective(last, READY);
    } else {
      EarliestSpec(init);
      RankInjective(last, READY);
    }
  }

  /** `aggregateProgress` with the corrected ranking. */
  function AggregateProgress(parts: seq<Part>, items: seq<PartItem>): (rows: seq<ProgressRow>)
    ensures |rows| == |parts|
    ensures forall i :: 0 <= i < |rows| ==>
              && rows[i].id == parts[i].id && rows[i].partNumber == parts[i].partNumber
              && rows[i].count == |ItemsOfPart(items, parts[i].id)|
              && (rows[i].count == 0 ==> rows[i].currentProcess == UNPRINTED)
  {
    seq(|parts|, i requires 0 <= i < |parts| =>
      var mine := ItemsOfPart(items, parts[i].id);
      RowOf(parts[i], mine, if |mine| > 0 then Earliest(ProcessesOf(mine)) else UNPRINTED))
  }

  /** The corrected reduce over a part's items yields the process of one of
      them, of least rank, and READY only when all of them are READY. */
  lemma PartProcessSpec(items: seq<PartItem>, partId: int)
    requires ItemsOfPart(items, partId) != []
    ensures var earliest := Earliest(ProcessesOf(ItemsOfPart(items, partId)));
      && (exists x :: x in items && x.partId == partId && x.currentProcess == earliest)
      && (forall x :: x in items && x.partId == partId ==> Rank(earliest) <= Rank(x.currentProcess))
      && (earliest == READY <==> forall x :: x in items && x.partId == partId ==> x.currentProcess == READY)
  {
    var mine := ItemsOfPart(items, partId);
    var processes := ProcessesOf(mine);
    var earliest := Earliest(processes);
    EarliestSpec(processes);
    assert forall x :: x in items && x.partId == partId ==> x.currentProcess in processes by {
      forall x | x in items && x.partId == partId
        ensures x.currentProcess in processes
      {
        var j :| 0 <= j < |mine| && mine[j] == x;
        assert processes[j] == x.currentProcess;
      }
    }
    assert forall p :: p in processes ==> exists x :: x in items && x.partId == partId && x.currentProcess == p by {
      forall p | p in processes
        ensures exists x :: x in items && x.partId == partId && x.currentProcess == p
      {
        var j :| 0 <= j < |processes| && processes[j] == p;
        assert mine[j] in mine;
      }
    }
  }

  /** A row names its part and counts the positions holding an item of the
      part; a part without items is UNPRINTED; otherwise the row shows its
      least advanced item's process, which is READY only when all of them
      are. */
  lemma ProgressSpec(parts: seq<Part>, items: seq<PartItem>, i: nat)
    requires i < |parts|
    ensures var row := AggregateProgress(parts, items)[i];
      var part := parts[i];
      && row.id == part.id && row.partNumber == part.partNumber
      && row.count == |ItemsOfPart(items, part.id)|
      && row.count == |set j | 0 <= j < |items| && items[j].partId == part.id|
      && (row.count == 0 ==> row.currentProcess == UNPRINTED)
      && (row.count > 0 ==>
            (exists x :: x in items && x.partId == part.id && x.currentProcess == row.currentProcess)
            && (forall x :: x in items && x.partId == part.id ==> Rank(row.currentProcess) <= Rank(x.currentProcess))
            && (row.currentProcess == READY <==>
                  forall x :: x in items && x.partId == part.id ==> x.currentProcess == READY))
  {
    var part := parts[i];
    var mine := ItemsOfPart(items, part.id);
    ItemsOfPartCount(items, part.id);
    if mine != [] {
      assert AggregateProgress(parts, items)[i].currentProcess == Earliest(ProcessesOf(mine));
      PartProcessSpec(items, part.id);
    }
  }
}
