/** Classification filter applied to outgoing data (plugins/ocip-protocol/src/classification/filter.ts). */
module OcipFilter {
  import opened Levels
  import opened Picking

  datatype Item = Item(source: string, fields: seq<string>, classification: Level, description: string)

  datatype WithheldReason = AboveCeiling(level: Level, ceiling: Level) | NotAccepted(level: Level)

  datatype Withheld = Withheld(reason: WithheldReason, description: string)

  datatype FilterResult = FilterResult(allowed: seq<Item>, withheld: seq<Withheld>)

  /** The receiver accepts the item's level and the exchange's ceiling covers it. */
  predicate Permitted(item: Item, canShare: seq<Level>, ceiling: Level) {
    Index(item.classification) <= Index(ceiling) && item.classification in canShare
  }

  function WithheldRecord(item: Item, ceiling: Level): Withheld {
    Withheld(if Index(item.classification) > Index(ceiling) then AboveCeiling(item.classification, ceiling)
             else NotAccepted(item.classification),
             item.source + ": " + item.description)
  }

  /** What the filter yields, item by item from the end. */
  function Filtered(items: seq<Item>, canShare: seq<Level>, ceiling: Level): FilterResult {
    if items == [] then FilterResult([], [])
    else
      var n := |items| - 1;
      var r := Filtered(items[..n], canShare, ceiling);
      if Permitted(items[n], canShare, ceiling) then r.(allowed := r.allowed + [items[n]])
      else r.(withheld := r.withheld + [WithheldRecord(items[n], ceiling)])
  }

  method Filter(items: seq<Item>, canShare: seq<Level>, ceiling: Level) returns (r: FilterResult)
    ensures r == Filtered(items, canShare, ceiling)
    ensures forall item :: item in r.allowed ==> Permitted(item, canShare, ceiling)
  {
    var allowed: seq<Item>, withheld: seq<Withheld> := [], [];
    var exchangeCeiling := Index(ceiling);
    for i := 0 to |items|
      invariant FilterResult(allowed, withheld) == Filtered(items[..i], canShare, ceiling)
      invariant forall item :: item in allowed ==> Permitted(item, canShare, ceiling)
    {
      assert items[..i+1][..i] == items[..i];
      var item := items[i];
      if Index(item.classification) > exchangeCeiling {
        withheld := withheld + [Withheld(AboveCeiling(item.classification, ceiling), item.source + ": " + item.description)];
        continue;
      }
      if item.classification !in canShare {
        withheld := withheld + [Withheld(NotAccepted(item.classification), item.source + ": " + item.description)];
        continue;
      }
      allowed := allowed + [item];
    }
    assert items[..|items|] == items;
    r := FilterResult(allowed, withheld);
  }

  /** Filtering is exact: permitted items pass with their multiplicity, all others leave one record each. */
  lemma {:induction false} FilterIsExact(items: seq<Item>, canShare: seq<Level>, ceiling: Level, item: Item)
    ensures multiset(Filtered(items, canShare, ceiling).allowed)[item]
         == if Permitted(item, canShare, ceiling) then multiset(items)[item] else 0
    ensures !Permitted(item, canShare, ceiling) && item in items ==>
              WithheldRecord(item, ceiling) in Filtered(items, canShare, ceiling).withheld
    ensures |Filtered(items, canShare, ceiling).allowed| + |Filtered(items, canShare, ceiling).withheld| == |items|
  {
    if items != [] {
      var n := |items| - 1;
      FilterIsExact(items[..n], canShare, ceiling, item);
      assert items == items[..n] + [items[n]];
    }
  }

  /** Filtering works batch by batch and keeps the order of the items. */
  lemma {:induction false} FilterDistributes(a: seq<Item>, b: seq<Item>, canShare: seq<Level>, ceiling: Level)
    ensures Filtered(a + b, canShare, ceiling).allowed
         == Filtered(a, canShare, ceiling).allowed + Filtered(b, canShare, ceiling).allowed
    ensures Filtered(a + b, canShare, ceiling).withheld
         == Filtered(a, canShare, ceiling).withheld + Filtered(b, canShare, ceiling).withheld
  {
    if b == [] {
      assert a + b == a;
    } else {
      var n := |b| - 1;
      var all := a + b;
      assert all[..|all|-1] == a + b[..n] && all[|all|-1] == b[n];
      FilterDistributes(a, b[..n], canShare, ceiling);
    }
  }

  /** The allowed items are those within the ceiling that the receiver accepts, in order. */
  lemma {:induction false} AllowedInOrder(items: seq<Item>, canShare: seq<Level>, ceiling: Level) returns (at: seq<nat>)
    ensures Positions(at, |items|)
    ensures forall k: nat :: k < |items| ==>
              (k in at <==> Index(items[k].classification) <= Index(ceiling) && items[k].classification in canShare)
    ensures |Filtered(items, canShare, ceiling).allowed| == |at|
    ensures forall i :: 0 <= i < |at| ==> Filtered(items, canShare, ceiling).allowed[i] == items[at[i]]
  {
    if items == [] {
      at := [];
    } else {
      var n: nat := |items| - 1;
      at := AllowedInOrder(items[..n], canShare, ceiling);
      OneMorePosition(at, n);
      if Permitted(items[n], canShare, ceiling) {
        at := at + [n];
      }
    }
  }

  /** Each of the others leaves a record of why it is withheld, in order. */
  lemma {:induction false} WithheldInOrder(items: seq<Item>, canShare: seq<Level>, ceiling: Level) returns (at: seq<nat>)
    ensures Positions(at, |items|)
    ensures forall k: nat :: k < |items| ==>
              (k in at <==> Index(items[k].classification) > Index(ceiling) || items[k].classification !in canShare)
    ensures |Filtered(items, canShare, ceiling).withheld| == |at|
    ensures forall i :: 0 <= i < |at| ==>
              var item := items[at[i]];
              Filtered(items, canShare, ceiling).withheld[i]
                == Withheld(if Index(item.classification) > Index(ceiling) then AboveCeiling(item.classification, ceiling)
                            else NotAccepted(item.classification),
                            item.source + ": " + item.description)
  {
    if items == [] {
      at := [];
    } else {
      var n: nat := |items| - 1;
      at := WithheldInOrder(items[..n], canShare, ceiling);
      OneMorePosition(at, n);
      if !Permitted(items[n], canShare, ceiling) {
        at := at + [n];
      }
    }
  }
}
