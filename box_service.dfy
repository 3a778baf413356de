// Storage-box numbering (src/modules/inventory/services/boxService.ts).
// A box is labelled `BOX-` followed by its number padded to three digits;
// the boxes in use are the non-blank storage cases of the item documents,
// and new boxes are handed out lowest free number first.

module BoxService {
  import opened Common
  import opened Store

  // ---------------------------------------------------------------------------
  // Labels

  /** `BOX-${String(n).padStart(3, '0')}` */
  function BoxLabel(n: nat): string
  {
    "BOX-" + PadStart(Decimal(n), 3, '0')
  }

  /** Reads the number back from a label of the form `BOX-<digits>`; 0 for any
      other string. */
  function NumberOf(boxId: string): nat
  {
    if |boxId| > 4 && boxId[..4] == "BOX-" && AllDigits(boxId[4..]) then DecimalValue(boxId[4..]) else 0
  }

  /** Every box label reads back as its own number, however it was padded. */
  lemma LabelRoundTrip(n: nat)
    ensures NumberOf(BoxLabel(n)) == n
  {
    var d := PadStart(Decimal(n), 3, '0');
    if |Decimal(n)| < 3 {
      LeadingZeros(3 - |Decimal(n)|, Decimal(n));
    }
    assert AllDigits(d) && DecimalValue(d) == DecimalValue(Decimal(n));
    DecimalRoundTrip(n);
    var boxId := BoxLabel(n);
    assert boxId[..4] == "BOX-" && boxId[4..] == d;
  }

  /** Different numbers give different labels. */
  lemma BoxLabelInjective(a: nat, b: nat)
    ensures BoxLabel(a) == BoxLabel(b) ==> a == b
  {
    LabelRoundTrip(a);
    LabelRoundTrip(b);
  }

  /** The labels of boxes 1..k. */
  function LabelSet(k: nat): (labels: set<string>)
    ensures |labels| == k
    ensures forall m :: 1 <= m <= k ==> BoxLabel(m) in labels
    ensures forall x :: x in labels ==> exists m :: 1 <= m <= k && x == BoxLabel(m)
  {
    if k == 0 then {}
    else
      var prev := LabelSet(k - 1);
      assert BoxLabel(k) !in prev by {
        if BoxLabel(k) in prev {
          var m :| 1 <= m <= k - 1 && BoxLabel(k) == BoxLabel(m);
          BoxLabelInjective(k, m);
        }
      }
      prev + {BoxLabel(k)}
  }

  lemma SubsetCard<T>(a: set<T>, b: set<T>)
    requires a <= b
    ensures |a| <= |b|
  {
    assert b == a + (b - a);
  }

  /** Pigeonhole: when boxes 1..k are all in use, at least k labels are in use. */
  lemma LabelsBelowBound(used: set<string>, k: nat)
    requires forall m :: 1 <= m <= k ==> BoxLabel(m) in used
    ensures k <= |used|
  {
    SubsetCard(LabelSet(k), used);
  }

  // ---------------------------------------------------------------------------
  // The lowest free box

  /** Tries BOX-n, BOX-(n+1), ... and answers the first label not in `used`;
      the search ends by the pigeonhole bound above. */
  function SearchFrom(used: set<string>, n: nat): (boxId: string)
    requires 1 <= n <= |used| + 1
    requires forall m :: 1 <= m < n ==> BoxLabel(m) in used
    ensures boxId !in used
    decreases |used| + 1 - n
  {
    if BoxLabel(n) !in used then BoxLabel(n)
    else
      LabelsBelowBound(used, n);
      SearchFrom(used, n + 1)
  }

  /** The label findNextAvailableBox answers for the labels `used`. */
  function NextBox(used: set<string>): (boxId: string)
    ensures boxId !in used
  {
    SearchFrom(used, 1)
  }

  lemma {:induction false} SearchFromLowest(used: set<string>, n: nat)
    requires 1 <= n <= |used| + 1
    requires forall m :: 1 <= m < n ==> BoxLabel(m) in used
    ensures var r := NumberOf(SearchFrom(used, n));
      && n <= r && SearchFrom(used, n) == BoxLabel(r)
      && forall m :: 1 <= m < r ==> BoxLabel(m) in used
    decreases |used| + 1 - n
  {
    if BoxLabel(n) !in used {
      LabelRoundTrip(n);
    } else {
      LabelsBelowBound(used, n);
      SearchFromLowest(used, n + 1);
    }
  }

  /** The next box is the lowest-numbered box whose label is not in use, and
      by pigeonhole its number is at most one more than the number of labels
      in use. */
  lemma NextBoxLowest(used: set<string>)
    ensures var n := NumberOf(NextBox(used));
      && n >= 1 && NextBox(used) == BoxLabel(n) && BoxLabel(n) !in used
      && (forall m :: 1 <= m < n ==> BoxLabel(m) in used)
      && n <= |used| + 1
  {
    SearchFromLowest(used, 1);
    LabelsBelowBound(used, NumberOf(NextBox(used)) - 1);
  }

  // ---------------------------------------------------------------------------
  // Boxes in use

  /** The storage cases of `items` that are set and not blank. */
  function UsedBoxes(items: seq<PartItem>): set<string>
  {
    if items == [] then {}
    else
      var last := items[|items| - 1].storageCase;
      UsedBoxes(items[..|items| - 1]) + (if NonBlank(last) then {last} else {})
  }

  /** A label is in use exactly when some item is stored under it and it is
      not blank. */
  lemma {:induction false} UsedBoxesSpec(items: seq<PartItem>, s: string)
    ensures s in UsedBoxes(items) <==>
              NonBlank(s) && exists i :: 0 <= i < |items| && items[i].storageCase == s
  {
    if items != [] {
      var init := items[..|items| - 1];
      UsedBoxesSpec(init, s);
      if NonBlank(s) && exists i :: 0 <= i < |items| && items[i].storageCase == s {
        var i :| 0 <= i < |items| && items[i].storageCase == s;
        if i < |items| - 1 {
          assert init[i].storageCase == s;
        }
      }
    }
  }

  /** getUsedBoxes: one pass over the item documents. */
  method GetUsedBoxes(db: Db) returns (usedBoxes: set<string>)
    ensures usedBoxes == UsedBoxes(db.items)
  {
    var docs := db.items;
    usedBoxes := {};
    for i := 0 to |docs|
      invariant usedBoxes == UsedBoxes(docs[..i])
    {
      assert docs[..i + 1][..i] == docs[..i];
      var storageCase := docs[i].storageCase;
      if NonBlank(storageCase) {
        usedBoxes := usedBoxes + {storageCase};
      }
    }
    assert docs[..|docs|] == docs;
  }

  /** findNextAvailableBox: tries BOX-001, BOX-002, ... until one is free. */
  method FindNextAvailableBox(usedBoxes: set<string>) returns (boxId: string)
    ensures boxId == NextBox(usedBoxes)
    ensures boxId !in usedBoxes
  {
    var boxNumber := 1;
    while true
      invariant 1 <= boxNumber <= |usedBoxes| + 1
      invariant forall m :: 1 <= m < boxNumber ==> BoxLabel(m) in usedBoxes
      invariant SearchFrom(usedBoxes, boxNumber) == NextBox(usedBoxes)
      decreases |usedBoxes| + 1 - boxNumber
    {
      boxId := BoxLabel(boxNumber);
      if boxId !in usedBoxes {
        return;
      }
      LabelsBelowBound(usedBoxes, boxNumber);
      boxNumber := boxNumber + 1;
    }
  }

  // ---------------------------------------------------------------------------
  // Allocation

  /** The labels in use once `count` boxes have been taken, one after another,
      starting from the labels `used`. */
  function UsedAfter(used: set<string>, count: nat): set<string>
  {
    if count == 0 then used
    else
      var u := UsedAfter(used, count - 1);
      u + {NextBox(u)}
  }

  /** The labels handed out, in order, when `count` boxes are taken one after
      another starting from the labels `used`. */
  function Allocation(used: set<string>, count: nat): (boxes: seq<string>)
    ensures |boxes| == count
  {
    if count == 0 then [] else Allocation(used, count - 1) + [NextBox(UsedAfter(used, count - 1))]
  }

  /** After an allocation, what is in use is what was in use plus what was
      handed out. */
  lemma {:induction false} UsedAfterSpec(used: set<string>, count: nat)
    ensures forall x :: x in UsedAfter(used, count) <==> x in used || x in Allocation(used, count)
  {
    if count > 0 {
      UsedAfterSpec(used, count - 1);
      assert Allocation(used, count) == Allocation(used, count - 1) + [NextBox(UsedAfter(used, count - 1))];
    }
  }

  /** No label handed out was in use before, and no label is handed out twice. */
  lemma {:induction false} AllocationFresh(used: set<string>, count: nat)
    ensures forall i :: 0 <= i < count ==> Allocation(used, count)[i] !in used
    ensures NoDuplicates(Allocation(used, count))
  {
    if count > 0 {
      AllocationFresh(used, count - 1);
      UsedAfterSpec(used, count - 1);
      var prev := Allocation(used, count - 1);
      var x := NextBox(UsedAfter(used, count - 1));
      assert x !in used && x !in prev;
      assert Allocation(used, count) == prev + [x];
    }
  }

  /** Every label handed out is a box label with a number of at least 1. */
  lemma {:induction false} AllocationLabels(used: set<string>, count: nat)
    ensures forall i :: 0 <= i < count ==>
              NumberOf(Allocation(used, count)[i]) >= 1 &&
              Allocation(used, count)[i] == BoxLabel(NumberOf(Allocation(used, count)[i]))
  {
    if count > 0 {
      AllocationLabels(used, count - 1);
      NextBoxLowest(UsedAfter(used, count - 1));
      assert Allocation(used, count) == Allocation(used, count - 1) + [NextBox(UsedAfter(used, count - 1))];
    }
  }

  /** Boxes are handed out lowest free number first: their numbers increase,
      and a free box is among them exactly when its number is at most the last
      one handed out. */
  lemma {:induction false} AllocationLowest(used: set<string>, count: nat)
    ensures var boxes := Allocation(used, count);
      && (forall i, j :: 0 <= i < j < count ==> NumberOf(boxes[i]) < NumberOf(boxes[j]))
      && (forall m :: m >= 1 && BoxLabel(m) !in used ==>
            (BoxLabel(m) in boxes <==> count > 0 && m <= NumberOf(boxes[count - 1])))
  {
    if count > 0 {
      AllocationLowest(used, count - 1);
      AllocationLabels(used, count - 1);
      UsedAfterSpec(used, count - 1);
      var prev := Allocation(used, count - 1);
      var u := UsedAfter(used, count - 1);
      NextBoxLowest(u);
      var n := NumberOf(NextBox(u));
      LabelRoundTrip(n);
      var boxes := prev + [BoxLabel(n)];
      assert Allocation(used, count) == boxes;
      if count > 1 {
        var last := NumberOf(prev[count - 2]);
        assert BoxLabel(last) in u;
        assert last < n;
      }
      forall m | m >= 1 && BoxLabel(m) !in used
        ensures BoxLabel(m) in boxes <==> m <= n
      {
        if BoxLabel(m) in boxes && BoxLabel(m) !in prev {
          BoxLabelInjective(m, n);
        }
        if m < n {
          assert BoxLabel(m) in u;
        }
      }
    }
  }

  /** Taking a + b boxes is taking a boxes, then b more. */
  lemma {:induction false} AllocationSplit(used: set<string>, a: nat, b: nat)
    ensures Allocation(used, a + b) == Allocation(used, a) + Allocation(UsedAfter(used, a), b)
    ensures UsedAfter(used, a + b) == UsedAfter(UsedAfter(used, a), b)
  {
    if b > 0 {
      AllocationSplit(used, a, b - 1);
      var u := UsedAfter(used, a);
      var w := UsedAfter(used, a + (b - 1));
      assert a + b - 1 == a + (b - 1);
      assert Allocation(used, a + b) == Allocation(used, a + (b - 1)) + [NextBox(w)];
      assert Allocation(u, b) == Allocation(u, b - 1) + [NextBox(w)];
    }
  }

  /** The loop allocateBoxes and previewBoxAllocation share: `quantity`
      times, find the next free box, add it to the set in use so the next
      search skips it, and hand it out. */
  method AllocateFrom(usedBoxes: set<string>, quantity: int) returns (boxes: seq<string>, usedAfter: set<string>)
    ensures boxes == Allocation(usedBoxes, Clamp(quantity))
    ensures usedAfter == UsedAfter(usedBoxes, Clamp(quantity))
  {
    boxes := [];
    usedAfter := usedBoxes;
    var i := 0;
    while i < quantity
      invariant 0 <= i <= Clamp(quantity)
      invariant boxes == Allocation(usedBoxes, i)
      invariant usedAfter == UsedAfter(usedBoxes, i)
    {
      var boxId := FindNextAvailableBox(usedAfter);
      usedAfter := usedAfter + {boxId};
      boxes := boxes + [boxId];
      i := i + 1;
    }
  }

  /** A box label is never blank. */
  lemma BoxLabelNonBlank(n: nat)
    ensures NonBlank(BoxLabel(n))
  {
    BlankIffAllWhitespace(BoxLabel(n));
    assert BoxLabel(n)[0] == 'B';
  }

  /** No item is stored yet in a box that allocation hands out. */
  lemma AllocationUnshared(items: seq<PartItem>, count: nat)
    ensures forall i, j :: 0 <= i < count && 0 <= j < |items| ==>
              items[j].storageCase != Allocation(UsedBoxes(items), count)[i]
  {
    var boxes := Allocation(UsedBoxes(items), count);
    AllocationFresh(UsedBoxes(items), count);
    AllocationLabels(UsedBoxes(items), count);
    forall i, j | 0 <= i < count && 0 <= j < |items|
      ensures items[j].storageCase != boxes[i]
    {
      BoxLabelNonBlank(NumberOf(boxes[i]));
      UsedBoxesSpec(items, boxes[i]);
    }
  }

  /** allocateBoxes: reads the boxes in use, then takes `quantity` more. */
  method AllocateBoxes(db: Db, quantity: int) returns (allocatedBoxes: seq<string>)
    ensures allocatedBoxes == Allocation(UsedBoxes(db.items), Clamp(quantity))
  {
    var usedBoxes := GetUsedBoxes(db);
    allocatedBoxes, usedBoxes := AllocateFrom(usedBoxes, quantity);
  }

  // ---------------------------------------------------------------------------
  // Preview

  function Flatten(lists: seq<seq<string>>): seq<string>
  {
    if lists == [] then [] else Flatten(lists[..|lists| - 1]) + lists[|lists| - 1]
  }

  /** The number of boxes that `quantities` ask for in total. */
  function Total(quantities: seq<int>): nat
  {
    if quantities == [] then 0 else Total(quantities[..|quantities| - 1]) + Clamp(quantities[|quantities| - 1])
  }

  /** The labels in use once a preview of `quantities` has run. */
  function PreviewUsed(used: set<string>, quantities: seq<int>): set<string>
  {
    if quantities == [] then used
    else UsedAfter(PreviewUsed(used, quantities[..|quantities| - 1]), Clamp(quantities[|quantities| - 1]))
  }

  /** One allocation per quantity, each continuing from every box already in
      use or handed out earlier in the preview. */
  function Preview(used: set<string>, quantities: seq<int>): (lists: seq<seq<string>>)
    ensures |lists| == |quantities|
  {
    if quantities == [] then []
    else
      var init := quantities[..|quantities| - 1];
      Preview(used, init) + [Allocation(PreviewUsed(used, init), Clamp(quantities[|quantities| - 1]))]
  }

  /** A preview hands out, file after file, exactly the boxes one allocation
      of the total would. */
  lemma {:induction false} PreviewIsAllocation(used: set<string>, quantities: seq<int>)
    ensures Flatten(Preview(used, quantities)) == Allocation(used, Total(quantities))
    ensures PreviewUsed(used, quantities) == UsedAfter(used, Total(quantities))
  {
    if quantities != [] {
      var init := quantities[..|quantities| - 1];
      PreviewIsAllocation(used, init);
      var c := Clamp(quantities[|quantities| - 1]);
      AllocationSplit(used, Total(init), c);
      var lists := Preview(used, quantities);
      assert lists[..|lists| - 1] == Preview(used, init);
    }
  }

  /** Each file gets as many boxes as its quantity asks for. */
  lemma {:induction false} PreviewSizes(used: set<string>, quantities: seq<int>)
    ensures forall i :: 0 <= i < |quantities| ==> |Preview(used, quantities)[i]| == Clamp(quantities[i])
  {
    if quantities != [] {
      PreviewSizes(used, quantities[..|quantities| - 1]);
    }
  }

  /** Across the whole preview no box is in use already and none is given to
      two files or twice to one. */
  lemma PreviewFresh(used: set<string>, quantities: seq<int>)
    ensures var all := Flatten(Preview(used, quantities));
      NoDuplicates(all) && forall i :: 0 <= i < |all| ==> all[i] !in used
  {
    PreviewIsAllocation(used, quantities);
    AllocationFresh(used, Total(quantities));
  }

  lemma {:induction false} InFlatten(lists: seq<seq<string>>, k: nat)
    requires k < |lists|
    ensures forall x :: x in lists[k] ==> x in Flatten(lists)
  {
    var init := lists[..|lists| - 1];
    if k < |init| {
      InFlatten(init, k);
      assert lists[k] == init[k];
    }
  }

  /** In a list of lists whose concatenation repeats nothing, no two places
      in the lists hold the same label. */
  lemma {:induction false} FlattenApart(lists: seq<seq<string>>, k1: nat, k2: nat)
    requires NoDuplicates(Flatten(lists)) && k1 <= k2 < |lists|
    ensures forall a, b :: 0 <= a < |lists[k1]| && 0 <= b < |lists[k2]| && (k1 != k2 || a != b) ==>
              lists[k1][a] != lists[k2][b]
  {
    var init := lists[..|lists| - 1];
    var last := lists[|lists| - 1];
    var front := Flatten(init);
    assert Flatten(lists) == front + last;
    assert NoDuplicates(front) by {
      assert forall i :: 0 <= i < |front| ==> front[i] == Flatten(lists)[i];
    }
    if k2 < |init| {
      FlattenApart(init, k1, k2);
      assert lists[k1] == init[k1] && lists[k2] == init[k2];
    } else {
      forall a, b | 0 <= a < |lists[k1]| && 0 <= b < |last| && (k1 != k2 || a != b)
        ensures lists[k1][a] != last[b]
      {
        assert last[b] == Flatten(lists)[|front| + b];
        if k1 == k2 {
          assert lists[k1][a] == Flatten(lists)[|front| + a];
        } else {
          InFlatten(init, k1);
          assert lists[k1] == init[k1];
          assert init[k1][a] in init[k1];
          var p :| 0 <= p < |front| && front[p] == lists[k1][a];
          assert front[p] == Flatten(lists)[p];
        }
      }
    }
  }

  /** Every box of a preview is free beforehand. */
  lemma PreviewFreeAt(used: set<string>, quantities: seq<int>, k: nat)
    requires k < |quantities|
    ensures forall a :: 0 <= a < |Preview(used, quantities)[k]| ==> Preview(used, quantities)[k][a] !in used
  {
    var lists := Preview(used, quantities);
    PreviewFresh(used, quantities);
    InFlatten(lists, k);
    forall a | 0 <= a < |lists[k]|
      ensures lists[k][a] !in used
    {
      var all := Flatten(lists);
      assert lists[k][a] in all;
      var p :| 0 <= p < |all| && all[p] == lists[k][a];
    }
  }

  /** No box is promised to two files, nor twice to one. */
  lemma PreviewApart(used: set<string>, quantities: seq<int>, k1: nat, k2: nat)
    requires k1 <= k2 < |quantities|
    ensures forall a, b ::
              (0 <= a < |Preview(used, quantities)[k1]| && 0 <= b < |Preview(used, quantities)[k2]| && (k1 != k2 || a != b))
              ==> Preview(used, quantities)[k1][a] != Preview(used, quantities)[k2][b]
  {
    PreviewFresh(used, quantities);
    FlattenApart(Preview(used, quantities), k1, k2);
  }

  /** previewBoxAllocation: the same search as allocateBoxes, once per
      quantity, with nothing written back. */
  method PreviewBoxAllocation(db: Db, quantities: seq<int>) returns (allAllocations: seq<seq<string>>)
    ensures allAllocations == Preview(UsedBoxes(db.items), quantities)
  {
    var usedBoxes := GetUsedBoxes(db);
    ghost var initial := usedBoxes;
    allAllocations := [];
    for k := 0 to |quantities|
      invariant allAllocations == Preview(initial, quantities[..k])
      invariant usedBoxes == PreviewUsed(initial, quantities[..k])
    {
      var quantity := quantities[k];
      var allocation;
      allocation, usedBoxes := AllocateFrom(usedBoxes, quantity);
      ghost var upTo := quantities[..k + 1];
      assert upTo[..k] == quantities[..k] && upTo[k] == quantity;
      allAllocations := allAllocations + [allocation];
    }
    assert quantities[..|quantities|] == quantities;
  }
}
