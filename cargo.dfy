/**
 * The entities of main.c (`CargoItem`, `Cargo`), its capacity constants,
 * the item loop of `addCargo`, and the tracking numbers of
 * `generateTrackingNumber`. Weights are exact reals; the source's `float`
 * rounding is not modelled.
 */
module CargoData {
  import opened Util
  import opened Numbers

  /** Capacity of the global record array. */
  const MAX_CARGO: nat := 100
  /** Capacity of a record's item array. */
  const MAX_ITEMS: nat := 10
  /** Initial value of the static tracking-number counter. */
  const FIRST_TRACKING_NUMBER: int := 1000

  datatype CargoItem = CargoItem(name: string, quantity: int, unitWeight: real)

  /**
   * One shipment record. `items` holds item slots 0 .. itemCount-1 of the
   * source's fixed item array; the slots beyond are never read.
   */
  datatype Cargo = Cargo(
    id: int,
    items: seq<CargoItem>,
    itemCount: int,
    totalWeight: real,
    sender: string,
    senderAddress: string,
    destination: string,
    status: string,
    trackingNumber: string)

  /** An item slot of the zero-initialised global array. */
  const BlankItem := CargoItem("", 0, 0.0)

  /** The slots 0 .. itemCount-1 actually filled: none when the count is negative. */
  function Filled(itemCount: int): nat
  {
    if itemCount < 0 then 0 else itemCount
  }

  /**
   * The item count fits the item array and agrees with the items held. A
   * negative count is harmless in the source (every item loop runs zero
   * times), so it is allowed, with no items.
   */
  predicate WellFormed(c: Cargo)
  {
    c.itemCount <= MAX_ITEMS && |c.items| == Filled(c.itemCount)
  }

  function ItemWeight(item: CargoItem): real
  {
    item.quantity as real * item.unitWeight
  }

  /** Sum of quantity times unit weight over `items`. */
  function ItemsWeight(items: seq<CargoItem>): real
  {
    if items == [] then 0.0 else ItemWeight(items[0]) + ItemsWeight(items[1..])
  }

  lemma {:induction false} ItemsWeightAppend(items: seq<CargoItem>, item: CargoItem)
    ensures ItemsWeight(items + [item]) == ItemsWeight(items) + ItemWeight(item)
  {
    if items != [] {
      assert (items + [item])[1..] == items[1..] + [item];
      ItemsWeightAppend(items[1..], item);
    }
  }

  /** `validateWeight`. */
  predicate ValidWeight(w: real)
  {
    w > 0.0
  }

  /**
   * The items the entry loop of `addCargo` keeps from the entries typed in
   * order, when `room` slots are left: an entry whose unit weight is not
   * positive is discarded and its slot asked for again; the loop ends when
   * the entries run out or the item array is full.
   */
  function KeptItems(entries: seq<CargoItem>, room: nat): (kept: seq<CargoItem>)
    ensures |kept| <= room
    ensures forall i :: 0 <= i < |kept| ==> ValidWeight(kept[i].unitWeight)
  {
    if entries == [] || room == 0 then []
    else if ValidWeight(entries[0].unitWeight) then [entries[0]] + KeptItems(entries[1..], room - 1)
    else KeptItems(entries[1..], room)
  }

  /** Reference definition: the entries with a positive unit weight, in order. */
  function PositiveWeightEntries(entries: seq<CargoItem>): seq<CargoItem>
  {
    if entries == [] then []
    else (if ValidWeight(entries[0].unitWeight) then [entries[0]] else []) + PositiveWeightEntries(entries[1..])
  }

  /** The kept items are the first `room` entries of positive weight. */
  lemma {:induction false} KeptItemsArePositiveEntries(entries: seq<CargoItem>, room: nat)
    ensures KeptItems(entries, room) == Take(PositiveWeightEntries(entries), room)
  {
    if entries != [] && room > 0 {
      KeptItemsArePositiveEntries(entries[1..], if ValidWeight(entries[0].unitWeight) then room - 1 else room);
    } else if entries != [] {
      assert Take(PositiveWeightEntries(entries), 0) == [];
    }
  }

  /** Every kept item is one of the entries. */
  lemma {:induction false} KeptItemsFrom(entries: seq<CargoItem>, room: nat)
    ensures forall i :: 0 <= i < |KeptItems(entries, room)| ==> KeptItems(entries, room)[i] in entries
  {
    if entries != [] && room > 0 {
      KeptItemsFrom(entries[1..], if ValidWeight(entries[0].unitWeight) then room - 1 else room);
    }
  }

  /**
   * The item loop of `addCargo`: take entries in order, skip those of
   * invalid weight, stop after MAX_ITEMS kept items, and accumulate the
   * total weight along the way.
   */
  method BuildItems(entries: seq<CargoItem>) returns (items: seq<CargoItem>, total: real)
    ensures items == KeptItems(entries, MAX_ITEMS)
    ensures total == ItemsWeight(items)
  {
    items, total := [], 0.0;
    var i := 0;
    while i < |entries| && |items| < MAX_ITEMS
      invariant 0 <= i <= |entries| && |items| <= MAX_ITEMS
      invariant items + KeptItems(entries[i..], MAX_ITEMS - |items|) == KeptItems(entries, MAX_ITEMS)
      invariant total == ItemsWeight(items)
    {
      assert entries[i..][1..] == entries[i + 1..];
      if ValidWeight(entries[i].unitWeight) {
        ItemsWeightAppend(items, entries[i]);
        total := total + ItemWeight(entries[i]);
        items := items + [entries[i]];
      }
      i := i + 1;
    }
    assert entries[i..] == [] || |items| == MAX_ITEMS;
  }

  /**
   * The record `addCargo` stores: the kept items, their count, their summed
   * weight, the text fields as entered and the tracking number issued.
   */
  function NewCargo(id: int, sender: string, senderAddress: string, destination: string,
                    entries: seq<CargoItem>, status: string, trackingNumber: string): (c: Cargo)
    ensures WellFormed(c)
    ensures c.items == KeptItems(entries, MAX_ITEMS) && c.itemCount == |c.items|
    ensures c.totalWeight == ItemsWeight(c.items)
    ensures forall i :: 0 <= i < |c.items| ==> ValidWeight(c.items[i].unitWeight)
    ensures c.id == id && c.trackingNumber == trackingNumber
  {
    var kept := KeptItems(entries, MAX_ITEMS);
    Cargo(id, kept, |kept|, ItemsWeight(kept), sender, senderAddress, destination, status, trackingNumber)
  }

  /** `sprintf(trackingNum, "TRK%d", n)`. */
  function TrackingNumber(n: int): string
  {
    "TRK" + IntToDecimal(n)
  }

  /** A tracking number is "TRK" followed by text that `atoi` reads as its counter value. */
  lemma TrackingNumberSuffix(n: int)
    ensures |TrackingNumber(n)| > 3 && TrackingNumber(n)[..3] == "TRK"
    ensures Atoi(TrackingNumber(n)[3..]) == n
  {
    assert TrackingNumber(n)[3..] == IntToDecimal(n);
    AtoiOfDecimal(n);
  }

  lemma TrackingNumberInjective(m: int, n: int)
    ensures TrackingNumber(m) == TrackingNumber(n) <==> m == n
  {
    TrackingNumberSuffix(m);
    TrackingNumberSuffix(n);
  }

  /** `issued` holds the counter values the allocator used since start-up, in order. */
  predicate IssuedInOrder(issued: seq<int>)
  {
    forall k :: 0 <= k < |issued| ==> issued[k] == FIRST_TRACKING_NUMBER + k
  }

  /** Issued tracking numbers never repeat and their numeric suffixes strictly increase. */
  lemma IssuedDistinctAndIncreasing(issued: seq<int>, i: nat, j: nat)
    requires IssuedInOrder(issued)
    requires i < j < |issued|
    ensures TrackingNumber(issued[i]) != TrackingNumber(issued[j])
    ensures Atoi(TrackingNumber(issued[i])[3..]) < Atoi(TrackingNumber(issued[j])[3..])
  {
    TrackingNumberInjective(issued[i], issued[j]);
    TrackingNumberSuffix(issued[i]);
    TrackingNumberSuffix(issued[j]);
  }
}
