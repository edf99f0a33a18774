/**
 * The record store of main.c: the global array `cargoRecords`, its count
 * `cargoCount` and the static counter of `generateTrackingNumber`, with the
 * operations on them. The menu, the prompts and the printing are not part
 * of the model: inputs are parameters and what would be printed is returned.
 */
module Registry {
  import opened Util
  import opened Numbers
  import opened Text
  import opened CargoData
  import opened Codec

  /** Why `addCargo` refused, or the record it stored. */
  datatype AddOutcome = Added(cargo: Cargo) | CapacityReached | DuplicateId

  /** The field a case-insensitive search looks at. */
  datatype SearchField = ByDestination | ByStatus

  function FieldOf(c: Cargo, field: SearchField): string
  {
    match field
    case ByDestination => c.destination
    case ByStatus => c.status
  }

  predicate IdTaken(rs: seq<Cargo>, id: int)
  {
    exists k :: 0 <= k < |rs| && rs[k].id == id
  }

  predicate DistinctIds(rs: seq<Cargo>)
  {
    forall i, j :: 0 <= i < j < |rs| ==> rs[i].id != rs[j].id
  }

  /** Sum of the records' total weights. */
  function SumWeights(rs: seq<Cargo>): real
  {
    if rs == [] then 0.0 else rs[0].totalWeight + SumWeights(rs[1..])
  }

  lemma {:induction false} SumWeightsAppend(rs: seq<Cargo>, c: Cargo)
    ensures SumWeights(rs + [c]) == SumWeights(rs) + c.totalWeight
  {
    if rs != [] {
      assert (rs + [c])[1..] == rs[1..] + [c];
      SumWeightsAppend(rs[1..], c);
    }
  }

  /** The records whose `field` matches `term` case-insensitively, in store order. */
  function Matching(rs: seq<Cargo>, field: SearchField, term: string): seq<Cargo>
  {
    if rs == [] then []
    else (if EqualIgnoringCase(FieldOf(rs[0], field), term) then [rs[0]] else []) + Matching(rs[1..], field, term)
  }

  /** A record is in the result exactly when it is in the store and its field matches. */
  lemma {:induction false} MatchingMembership(rs: seq<Cargo>, field: SearchField, term: string, c: Cargo)
    ensures c in Matching(rs, field, term) <==> c in rs && EqualIgnoringCase(FieldOf(c, field), term)
  {
    if rs != [] {
      MatchingMembership(rs[1..], field, term, c);
      assert rs == [rs[0]] + rs[1..];
    }
  }

  /** Searching a concatenation concatenates the results: store order is kept. */
  lemma {:induction false} MatchingAppend(a: seq<Cargo>, b: seq<Cargo>, field: SearchField, term: string)
    ensures Matching(a + b, field, term) == Matching(a, field, term) + Matching(b, field, term)
  {
    if a != [] {
      var head := if EqualIgnoringCase(FieldOf(a[0], field), term) then [a[0]] else [];
      assert (a + b)[0] == a[0] && (a + b)[1..] == a[1..] + b;
      assert Matching(a + b, field, term) == head + Matching(a[1..] + b, field, term);
      assert Matching(a, field, term) == head + Matching(a[1..], field, term);
      MatchingAppend(a[1..], b, field, term);
    } else {
      assert a + b == b;
    }
  }

  /** Search is exact, not by substring: "springfield East" does not match "Springfield". */
  lemma ExactDestinationMatch(first: Cargo, second: Cargo)
    requires first.destination == "Springfield" && second.destination == "springfield East"
    ensures Matching([first, second], ByDestination, "Springfield") == [first]
  {
    assert EqualIgnoringCase(first.destination, "Springfield");
    assert |second.destination| == 16;
    assert [first, second][1..] == [second];
    assert [second][1..] == [];
    assert Matching([second], ByDestination, "Springfield") == [];
    assert [first] + [] == [first];
  }

  /** The records `saveToFile` writes, one line each, in store order. */
  function EncodeAll(rs: seq<Cargo>): (lines: seq<string>)
    ensures |lines| == |rs|
  {
    if rs == [] then [] else [EncodeLine(rs[0])] + EncodeAll(rs[1..])
  }

  lemma {:induction false} EncodeAllAppend(rs: seq<Cargo>, c: Cargo)
    ensures EncodeAll(rs + [c]) == EncodeAll(rs) + [EncodeLine(c)]
  {
    if rs != [] {
      assert (rs + [c])[1..] == rs[1..] + [c];
      EncodeAllAppend(rs[1..], c);
    }
  }

  /** The decoding of each line of the file, in file order. */
  function DecodeAll(lines: seq<string>): (ds: seq<Option<Cargo>>)
  {
    seq(|lines|, i requires 0 <= i < |lines| => DecodeRecord(lines[i]))
  }

  /**
   * The loop of `loadFromFile` after the records `acc` are in, over the
   * decodings `ds` of the lines left: stop once MAX_CARGO records are in,
   * skip a line that does not decode, append the record of one that does.
   */
  function LoadFrom(acc: seq<Cargo>, ds: seq<Option<Cargo>>): seq<Cargo>
    decreases |ds|
  {
    if ds == [] || |acc| >= MAX_CARGO then acc
    else
      match ds[0]
      case None => LoadFrom(acc, ds[1..])
      case Some(c) => LoadFrom(acc + [c], ds[1..])
  }

  /** The records `loadFromFile` leaves in the store, starting from none. */
  function LoadRecords(lines: seq<string>): seq<Cargo>
  {
    LoadFrom([], DecodeAll(lines))
  }

  /** Reference definition: every record decoded, in order, with no bound. */
  function Present(ds: seq<Option<Cargo>>): seq<Cargo>
  {
    if ds == [] then []
    else (match ds[0] case None => [] case Some(c) => [c]) + Present(ds[1..])
  }

  lemma {:induction false} LoadFromIsTake(acc: seq<Cargo>, ds: seq<Option<Cargo>>)
    requires |acc| <= MAX_CARGO
    ensures LoadFrom(acc, ds) == Take(acc + Present(ds), MAX_CARGO)
    decreases |ds|
  {
    if ds == [] {
      assert acc + Present(ds) == acc;
    } else if |acc| >= MAX_CARGO {
      assert (acc + Present(ds))[..MAX_CARGO] == acc;
    } else if ds[0].None? {
      LoadFromIsTake(acc, ds[1..]);
      assert LoadFrom(acc, ds) == LoadFrom(acc, ds[1..]);
      assert Present(ds) == Present(ds[1..]);
    } else {
      var c := ds[0].value;
      LoadFromIsTake(acc + [c], ds[1..]);
      assert LoadFrom(acc, ds) == LoadFrom(acc + [c], ds[1..]);
      assert Present(ds) == [c] + Present(ds[1..]);
      assert acc + Present(ds) == acc + [c] + Present(ds[1..]);
    }
  }

  /** One turn of the loop of `loadFromFile`. */
  lemma LoadFromStep(acc: seq<Cargo>, ds: seq<Option<Cargo>>)
    requires ds != [] && |acc| < MAX_CARGO
    ensures LoadFrom(acc, ds) == LoadFrom(if ds[0].Some? then acc + [ds[0].value] else acc, ds[1..])
  {
  }

  /** One turn of the loop of `loadFromFile`, on line `i` of the file. */
  lemma LoadLineStep(acc: seq<Cargo>, lines: seq<string>, i: nat)
    requires i < |lines| && |acc| < MAX_CARGO
    ensures var d := DecodeRecord(lines[i]);
      LoadFrom(acc, DecodeAll(lines)[i..]) ==
      LoadFrom(if d.Some? then acc + [d.value] else acc, DecodeAll(lines)[i + 1..])
  {
    LoadFromStep(acc, DecodeAll(lines)[i..]);
    assert DecodeAll(lines)[i..][1..] == DecodeAll(lines)[i + 1..];
  }

  /** The loop of `loadFromFile` ends at the end of the file or when the store is full. */
  lemma LoadFromDone(acc: seq<Cargo>, ds: seq<Option<Cargo>>)
    requires ds == [] || |acc| >= MAX_CARGO
    ensures LoadFrom(acc, ds) == acc
  {
  }

  /**
   * Loading keeps the records of the lines that decode, in file order,
   * drops the others, and stops at MAX_CARGO records.
   */
  lemma LoadIsBoundedDecode(lines: seq<string>)
    ensures LoadRecords(lines) == Take(Present(DecodeAll(lines)), MAX_CARGO)
    ensures |LoadRecords(lines)| <= MAX_CARGO
  {
    LoadFromIsTake([], DecodeAll(lines));
    assert [] + Present(DecodeAll(lines)) == Present(DecodeAll(lines));
  }

  lemma DecodeAllAppend(a: seq<string>, b: seq<string>)
    ensures DecodeAll(a + b) == DecodeAll(a) + DecodeAll(b)
  {
    forall k | 0 <= k < |a + b| ensures DecodeAll(a + b)[k] == (DecodeAll(a) + DecodeAll(b))[k] {
      if k < |a| { assert (a + b)[k] == a[k]; } else { assert (a + b)[k] == b[k - |a|]; }
    }
  }

  lemma {:induction false} PresentAppend(x: seq<Option<Cargo>>, y: seq<Option<Cargo>>)
    ensures Present(x + y) == Present(x) + Present(y)
  {
    if x != [] {
      assert (x + y)[0] == x[0] && (x + y)[1..] == x[1..] + y;
      PresentAppend(x[1..], y);
    } else {
      assert x + y == y;
    }
  }

  /** The decoded records of a file are those of its lines, in order. */
  lemma PresentOfLines(a: seq<string>, b: seq<string>)
    ensures Present(DecodeAll(a + b)) == Present(DecodeAll(a)) + Present(DecodeAll(b))
  {
    DecodeAllAppend(a, b);
    PresentAppend(DecodeAll(a), DecodeAll(b));
  }

  /** What one line contributes: its record when it decodes, nothing otherwise. */
  lemma PresentOfLine(line: string)
    ensures Present(DecodeAll([line])) == if DecodeRecord(line).Some? then [DecodeRecord(line).value] else []
  {
  }

  lemma PresentSkipsNone(x: seq<Option<Cargo>>, y: seq<Option<Cargo>>)
    ensures Present(x + [None] + y) == Present(x) + Present(y)
  {
    var none: Option<Cargo> := None;
    PresentAppend(x + [none], y);
    PresentAppend(x, [none]);
    assert [none][1..] == [];
    assert Present([none]) == [];
  }

  /** The decodings of a file around its line `i`. */
  lemma DecodeAllAround(lines: seq<string>, i: nat)
    requires i < |lines|
    ensures DecodeAll(lines) == DecodeAll(lines[..i]) + DecodeAll([lines[i]]) + DecodeAll(lines[i + 1..])
  {
    var before, after := lines[..i], lines[i + 1..];
    assert lines == before + [lines[i]] + after;
    DecodeAllAppend(before + [lines[i]], after);
    DecodeAllAppend(before, [lines[i]]);
  }

  /**
   * A line that does not decode (a field missing, an item count out of range)
   * is dropped wherever it stands: the store loads as if it were not there.
   */
  lemma MalformedLineDropped(lines: seq<string>, i: nat)
    requires i < |lines| && DecodeRecord(lines[i]).None?
    ensures LoadRecords(lines) == LoadRecords(lines[..i] + lines[i + 1..])
  {
    var before, after := lines[..i], lines[i + 1..];
    DecodeAllAround(lines, i);
    assert DecodeAll([lines[i]]) == [None];
    PresentSkipsNone(DecodeAll(before), DecodeAll(after));
    PresentOfLines(before, after);
    LoadIsBoundedDecode(lines);
    LoadIsBoundedDecode(before + after);
  }

  /** Loading does not check ids: a file holding one line twice loads two records with the same id. */
  lemma LoadKeepsDuplicateIds(line: string)
    requires DecodeRecord(line).Some?
    ensures var rs := LoadRecords([line, line]); |rs| == 2 && !DistinctIds(rs)
  {
    var c := DecodeRecord(line).value;
    assert [line, line] == [line] + [line];
    PresentOfLines([line], [line]);
    PresentOfLine(line);
    LoadIsBoundedDecode([line, line]);
    var rs := LoadRecords([line, line]);
    assert rs == [c, c];
    assert rs[0].id == rs[1].id;
  }

  lemma {:induction false} PresentOfEncodeAll(rs: seq<Cargo>)
    requires forall i :: 0 <= i < |rs| ==> Clean(rs[i]) && WellFormed(rs[i])
    ensures Present(DecodeAll(EncodeAll(rs))) == ReloadedAll(rs)
  {
    if rs != [] {
      var first := EncodeLine(rs[0]);
      RoundTrip(rs[0]);
      assert EncodeAll(rs) == [first] + EncodeAll(rs[1..]);
      PresentOfLines([first], EncodeAll(rs[1..]));
      PresentOfLine(first);
      PresentOfEncodeAll(rs[1..]);
    }
  }

  /**
   * Saving and then loading gives back the same records in the same order,
   * each with its weights reread through `%.2f` and `atof`.
   */
  lemma SaveLoadRoundTrip(rs: seq<Cargo>)
    requires |rs| <= MAX_CARGO
    requires forall i :: 0 <= i < |rs| ==> Clean(rs[i]) && WellFormed(rs[i])
    ensures LoadRecords(EncodeAll(rs)) == ReloadedAll(rs)
  {
    LoadIsBoundedDecode(EncodeAll(rs));
    PresentOfEncodeAll(rs);
  }

  function ReloadedAll(rs: seq<Cargo>): (r: seq<Cargo>)
    ensures |r| == |rs|
  {
    if rs == [] then [] else [Reloaded(rs[0])] + ReloadedAll(rs[1..])
  }

  /** The global state of main.c's record management. */
  class Store {
    /** `cargoRecords`: MAX_CARGO slots, of which the first `count` hold records. */
    var slots: array<Cargo>
    /** `cargoCount`. */
    var count: nat
    /** The static `counter` of `generateTrackingNumber`. */
    var counter: int
    /** The counter value behind every tracking number issued so far, in order of issue. */
    ghost var issued: seq<int>

    ghost predicate Valid()
      reads this, slots
    {
      slots.Length == MAX_CARGO && count <= MAX_CARGO &&
      (forall i :: 0 <= i < count ==> WellFormed(slots[i])) &&
      counter == FIRST_TRACKING_NUMBER + |issued| && IssuedInOrder(issued)
    }

    /** The records held, in insertion order. */
    ghost function Records(): seq<Cargo>
      reads this, slots
      requires Valid()
    {
      slots[..count]
    }

    /** The state at program start: no records, counter at its seed. */
    constructor ()
      ensures Valid() && fresh(slots)
      ensures Records() == [] && counter == FIRST_TRACKING_NUMBER && issued == []
    {
      slots := new Cargo[MAX_CARGO];
      count := 0;
      counter := FIRST_TRACKING_NUMBER;
      issued := [];
    }

    /** Store `c` in the next free slot (`cargoRecords[cargoCount++] = …`). */
    method Append(c: Cargo)
      requires Valid() && count < MAX_CARGO && WellFormed(c)
      modifies this, slots
      ensures Valid() && slots == old(slots)
      ensures counter == old(counter) && issued == old(issued)
      ensures Records() == old(Records()) + [c]
    {
      ghost var before := slots[..count];
      slots[count] := c;
      count := count + 1;
      assert slots[..count] == before + [c];
    }

    /** `generateTrackingNumber`: "TRK" and the counter, which then advances. */
    method GenerateTrackingNumber() returns (trackingNumber: string)
      requires Valid()
      modifies this
      ensures Valid() && slots == old(slots) && count == old(count)
      ensures trackingNumber == TrackingNumber(old(counter))
      ensures counter == old(counter) + 1 && issued == old(issued) + [old(counter)]
    {
      trackingNumber := TrackingNumber(counter);
      issued := issued + [counter];
      counter := counter + 1;
    }

    /** `isIdUnique`: no record holds `id`. */
    method IsIdUnique(id: int) returns (unique: bool)
      requires Valid()
      ensures unique <==> !IdTaken(Records(), id)
    {
      var i := 0;
      while i < count
        invariant 0 <= i <= count
        invariant forall k :: 0 <= k < i ==> slots[k].id != id
      {
        if slots[i].id == id {
          assert Records()[i].id == id;
          return false;
        }
        i := i + 1;
      }
      return true;
    }

    /**
     * `addCargo` once its input is read: refuse when the store is full, then
     * when the id is taken, changing nothing; otherwise build the items, issue
     * a tracking number and append the record.
     */
    method AddCargo(id: int, sender: string, senderAddress: string, destination: string,
                    entries: seq<CargoItem>, status: string) returns (outcome: AddOutcome)
      requires Valid()
      modifies this, slots
      ensures Valid() && slots == old(slots)
      ensures old(count) >= MAX_CARGO ==> outcome == CapacityReached
      ensures old(count) < MAX_CARGO && IdTaken(old(Records()), id) ==> outcome == DuplicateId
      ensures outcome.Added? <==> old(count) < MAX_CARGO && !IdTaken(old(Records()), id)
      ensures !outcome.Added? ==>
        Records() == old(Records()) && counter == old(counter) && issued == old(issued)
      ensures outcome.Added? ==>
        outcome.cargo == NewCargo(id, sender, senderAddress, destination, entries, status, TrackingNumber(old(counter))) &&
        Records() == old(Records()) + [outcome.cargo] &&
        issued == old(issued) + [old(counter)]
      ensures DistinctIds(old(Records())) ==> DistinctIds(Records())
    {
      if count >= MAX_CARGO {
        return CapacityReached;
      }
      var unique := IsIdUnique(id);
      if !unique {
        return DuplicateId;
      }
      var items, total := BuildItems(entries);
      var trackingNumber := GenerateTrackingNumber();
      var c := Cargo(id, items, |items|, total, sender, senderAddress, destination, status, trackingNumber);
      Append(c);
      outcome := Added(c);
    }

    /** `calculateTotalWeight`: the sum of the records' total weights. */
    method CalculateTotalWeight() returns (total: real)
      requires Valid()
      ensures total == SumWeights(Records())
    {
      total := 0.0;
      var i := 0;
      while i < count
        invariant 0 <= i <= count
        invariant total == SumWeights(slots[..i])
      {
        SumWeightsAppend(slots[..i], slots[i]);
        assert slots[..i + 1] == slots[..i] + [slots[i]];
        total := total + slots[i].totalWeight;
        i := i + 1;
      }
    }

    /** The match loops of `searchByDestination` and `searchByStatus`. */
    method Search(field: SearchField, term: string) returns (found: seq<Cargo>)
      requires Valid()
      ensures found == Matching(Records(), field, term)
    {
      found := [];
      var i := 0;
      while i < count
        invariant 0 <= i <= count
        invariant found == Matching(slots[..i], field, term)
      {
        var hit := CaseInsensitiveCompare(FieldOf(slots[i], field), term);
        MatchingAppend(slots[..i], [slots[i]], field, term);
        assert slots[..i + 1] == slots[..i] + [slots[i]];
        assert [slots[i]][1..] == [];
        if hit {
          found := found + [slots[i]];
        }
        i := i + 1;
      }
    }

    /** `trackCargo` by id: the id is the `atoi` of the text typed; the first record holding it, if any. */
    method TrackById(input: string) returns (found: Option<Cargo>)
      requires Valid()
      ensures found.None? <==> !IdTaken(Records(), Atoi(input))
      ensures found.Some? ==> exists k :: (0 <= k < |Records()| && Records()[k] == found.value &&
        Records()[k].id == Atoi(input) && forall j :: 0 <= j < k ==> Records()[j].id != Atoi(input))
    {
      var id := Atoi(input);
      var i := 0;
      while i < count
        invariant 0 <= i <= count
        invariant forall j :: 0 <= j < i ==> slots[j].id != id
      {
        if slots[i].id == id {
          assert Records()[i] == slots[i];
          return Some(slots[i]);
        }
        i := i + 1;
      }
      return None;
    }

    /** `trackCargo` by tracking number: exact (`strcmp`) match; the first record holding it, if any. */
    method TrackByTrackingNumber(code: string) returns (found: Option<Cargo>)
      requires Valid()
      ensures found.None? <==> forall k :: 0 <= k < |Records()| ==> Records()[k].trackingNumber != code
      ensures found.Some? ==> exists k :: (0 <= k < |Records()| && Records()[k] == found.value &&
        Records()[k].trackingNumber == code && forall j :: 0 <= j < k ==> Records()[j].trackingNumber != code)
    {
      var i := 0;
      while i < count
        invariant 0 <= i <= count
        invariant forall j :: 0 <= j < i ==> slots[j].trackingNumber != code
      {
        if slots[i].trackingNumber == code {
          assert Records()[i] == slots[i];
          return Some(slots[i]);
        }
        i := i + 1;
      }
      return None;
    }

    /** `saveToFile`: the lines written, one per record, in store order. */
    method Save() returns (lines: seq<string>)
      requires Valid()
      ensures lines == EncodeAll(Records())
    {
      lines := [];
      var i := 0;
      while i < count
        invariant 0 <= i <= count
        invariant lines == EncodeAll(slots[..i])
      {
        EncodeAllAppend(slots[..i], slots[i]);
        assert slots[..i + 1] == slots[..i] + [slots[i]];
        lines := lines + [EncodeLine(slots[i])];
        i := i + 1;
      }
    }

    /** One line of `loadFromFile`: store its record when it decodes, skip it otherwise. */
    method LoadLine(lines: seq<string>, i: nat)
      requires Valid() && count < MAX_CARGO && i < |lines|
      modifies this, slots
      ensures Valid() && slots == old(slots)
      ensures counter == old(counter) && issued == old(issued)
      ensures var d := DecodeRecord(lines[i]);
        Records() == if d.Some? then old(Records()) + [d.value] else old(Records())
      ensures LoadFrom(Records(), DecodeAll(lines)[i + 1..]) == LoadFrom(old(Records()), DecodeAll(lines)[i..])
    {
      LoadLineStep(Records(), lines, i);
      var decoded := DecodeRecord(lines[i]);
      if decoded.Some? {
        Append(decoded.value);
      }
    }

    /**
     * `loadFromFile` on the lines the file holds: start from no records and
     * take the lines in order while fewer than MAX_CARGO records are in,
     * skipping each line that does not decode. The counter is not touched.
     */
    method Load(lines: seq<string>)
      requires Valid()
      modifies this, slots
      ensures Valid() && slots == old(slots)
      ensures counter == old(counter) && issued == old(issued)
      ensures Records() == LoadRecords(lines)
    {
      count := 0;
      var i := 0;
      while i < |lines| && count < MAX_CARGO
        invariant 0 <= i <= |lines|
        invariant Valid() && slots == old(slots)
        invariant counter == old(counter) && issued == old(issued)
        invariant LoadFrom(Records(), DecodeAll(lines)[i..]) == LoadRecords(lines)
      {
        LoadLine(lines, i);
        i := i + 1;
      }
      LoadFromDone(Records(), DecodeAll(lines)[i..]);
    }
  }

  /** A record added with clean text fields, at any counter value, survives the file format. */
  lemma NewCargoIsClean(id: int, sender: string, senderAddress: string, destination: string,
                    entries: seq<CargoItem>, status: string, n: int)
    requires TextField(sender) && TextField(senderAddress) && TextField(destination) && TextField(status)
    requires forall i :: 0 <= i < |entries| ==> TextField(entries[i].name)
    ensures Clean(NewCargo(id, sender, senderAddress, destination, entries, status, TrackingNumber(n)))
  {
    TrackingNumberIsField(n);
    KeptItemsFrom(entries, MAX_ITEMS);
  }

  /**
   * The counter is not saved: after a restart and a reload, the next record
   * added is given the tracking number a loaded record already holds.
   */
  method RestartReissuesTrackingNumber(
    id: int, sender: string, senderAddress: string, destination: string,
    entries: seq<CargoItem>, status: string, nextId: int)
    returns (loaded: string, reissued: string)
    requires TextField(sender) && TextField(senderAddress) && TextField(destination) && TextField(status)
    requires forall i :: 0 <= i < |entries| ==> TextField(entries[i].name)
    requires nextId != id
    ensures loaded == reissued == TrackingNumber(FIRST_TRACKING_NUMBER)
  {
    var before := new Store();
    var first := before.AddCargo(id, sender, senderAddress, destination, entries, status);
    assert first.Added? by { assert !IdTaken([], id); }
    var c := first.cargo;
    NewCargoIsClean(id, sender, senderAddress, destination, entries, status, FIRST_TRACKING_NUMBER);
    var file := before.Save();
    assert before.Records() == [c];
    SaveLoadRoundTrip([c]);
    var after := new Store();
    after.Load(file);
    assert after.Records() == [Reloaded(c)] by {
      assert ReloadedAll([c]) == [Reloaded(c)] + ReloadedAll([]);
    }
    ghost var r := Reloaded(c);
    assert r.id == id && r.trackingNumber == TrackingNumber(FIRST_TRACKING_NUMBER);
    assert after.count == 1;
    assert after.Records()[0] == r;
    assert after.slots[0] == r;
    assert after.counter == FIRST_TRACKING_NUMBER;
    assert !IdTaken([r], nextId);
    loaded := after.slots[0].trackingNumber;
    var second := after.AddCargo(nextId, sender, senderAddress, destination, entries, status);
    assert second.Added?;
    reissued := second.cargo.trackingNumber;
  }
}
