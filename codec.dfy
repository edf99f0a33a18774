/**
 * The data-file line format of main.c: one record per line, each field
 * followed by '|', written by `saveToFile` and read back with `strtok`,
 * `atoi` and `atof` by `loadFromFile`. There is no escaping.
 */
module Codec {
  import opened Util
  import opened Numbers
  import opened CargoData

  predicate PipeFree(s: string)
  {
    forall i :: 0 <= i < |s| ==> s[i] != '|'
  }

  /** What `strtok` can return: a non-empty run without '|'. */
  predicate IsField(f: string)
  {
    |f| > 0 && PipeFree(f)
  }

  predicate AllFields(fs: seq<string>)
  {
    forall k :: 0 <= k < |fs| ==> IsField(fs[k])
  }

  /** Length of the run of characters before the first '|'. */
  function TokenLength(s: string): (n: nat)
    ensures n <= |s|
  {
    if s == [] || s[0] == '|' then 0 else 1 + TokenLength(s[1..])
  }

  /**
   * The tokens successive `strtok(…, "|")` calls return: the maximal runs
   * of characters other than '|', so empty fields vanish. Only '|' splits:
   * a line's trailing newline is a token of its own or part of the last one.
   */
  function Tokens(s: string): (ts: seq<string>)
    decreases |s|
  {
    if s == [] then []
    else if s[0] == '|' then Tokens(s[1..])
    else
      var n := TokenLength(s);
      [s[..n]] + Tokens(s[n..])
  }

  /** `TokenLength` stops at the first '|'. */
  lemma {:induction false} TokenLengthStops(s: string)
    ensures PipeFree(s[..TokenLength(s)])
    ensures TokenLength(s) < |s| ==> s[TokenLength(s)] == '|'
  {
    if s != [] && s[0] != '|' {
      TokenLengthStops(s[1..]);
      assert s[..TokenLength(s)] == [s[0]] + s[1..][..TokenLength(s[1..])];
    }
  }

  /** Every token is non-empty and free of '|'. */
  lemma {:induction false} TokensAreFields(s: string)
    ensures AllFields(Tokens(s))
    decreases |s|
  {
    if s != [] {
      if s[0] == '|' {
        TokensAreFields(s[1..]);
      } else {
        var n := TokenLength(s);
        TokenLengthStops(s);
        assert n > 0 by { assert TokenLength(s) == 1 + TokenLength(s[1..]); }
        TokensAreFields(s[n..]);
        assert Tokens(s) == [s[..n]] + Tokens(s[n..]);
      }
    }
  }

  lemma TokensOfNewline()
    ensures Tokens("\n") == ["\n"]
  {
    assert TokenLength("\n") == 1 by { assert "\n"[1..] == ""; }
    assert "\n"[..1] == "\n" && "\n"[1..] == "";
  }

  /** Each field followed by '|'. */
  function Join(fields: seq<string>): string
  {
    if fields == [] then "" else fields[0] + "|" + Join(fields[1..])
  }

  lemma {:induction false} TokenLengthOfField(f: string, rest: string)
    requires PipeFree(f)
    ensures TokenLength(f + ("|" + rest)) == |f|
  {
    if f != [] {
      assert (f + ("|" + rest))[1..] == f[1..] + ("|" + rest);
      TokenLengthOfField(f[1..], rest);
    } else {
      assert f + ("|" + rest) == "|" + rest;
    }
  }

  /** A non-empty, pipe-free field and its '|' give one token. */
  lemma TokensAfterField(f: string, rest: string)
    requires IsField(f)
    ensures Tokens(f + ("|" + rest)) == [f] + Tokens(rest)
  {
    var s := f + ("|" + rest);
    TokenLengthOfField(f, rest);
    assert s[0] != '|';
    assert s[..|f|] == f;
    assert s[|f|..] == "|" + rest;
    assert ("|" + rest)[1..] == rest;
  }

  /** Tokenising joined non-empty, pipe-free fields gives the fields back. */
  lemma {:induction false} TokensOfJoin(fields: seq<string>, tail: string)
    requires AllFields(fields)
    ensures Tokens(Join(fields) + tail) == fields + Tokens(tail)
  {
    if fields != [] {
      var rest := Join(fields[1..]) + tail;
      assert Join(fields) + tail == fields[0] + ("|" + rest);
      TokensAfterField(fields[0], rest);
      TokensOfJoin(fields[1..], tail);
      assert fields == [fields[0]] + fields[1..];
    } else {
      assert Join(fields) + tail == tail;
    }
  }

  /** The fields `saveToFile` writes for the items, three per item. */
  function ItemFields(items: seq<CargoItem>): (fs: seq<string>)
    ensures |fs| == 3 * |items|
  {
    if items == [] then []
    else [items[0].name, IntToDecimal(items[0].quantity), FormatFixed2(items[0].unitWeight)] + ItemFields(items[1..])
  }

  /** The fields `saveToFile` writes for a record, in file order. */
  function RecordFields(c: Cargo): seq<string>
  {
    [IntToDecimal(c.id), c.trackingNumber, c.sender, c.senderAddress, c.destination,
     c.status, FormatFixed2(c.totalWeight), IntToDecimal(c.itemCount)] + ItemFields(c.items)
  }

  /** One line of the data file, newline included. */
  function EncodeLine(c: Cargo): string
  {
    Join(RecordFields(c)) + "\n"
  }

  /**
   * One turn of the item loop of `loadFromFile`, on the tokens left: name,
   * quantity and unit weight from the next three tokens. When the tokens run
   * out the loop breaks, and the fields not reached keep their zero value.
   */
  function ReadItem(ts: seq<string>): CargoItem
  {
    if |ts| == 0 then BlankItem
    else if |ts| == 1 then BlankItem.(name := ts[0])
    else if |ts| == 2 then BlankItem.(name := ts[0], quantity := Atoi(ts[1]))
    else CargoItem(ts[0], Atoi(ts[1]), Atof(ts[2]))
  }

  /** The tokens after the first `n`, none when fewer are left. */
  function Skip(ts: seq<string>, n: nat): seq<string>
  {
    if n <= |ts| then ts[n..] else []
  }

  /**
   * The item loop of `loadFromFile`: fill `k` slots from the tokens `ts`,
   * three tokens per slot. After the loop breaks on a missing token every
   * later slot keeps its zero-initialised value, which is what reading
   * from no tokens gives.
   */
  function ReadItems(ts: seq<string>, k: nat): (items: seq<CargoItem>)
    ensures |items| == k
    decreases k
  {
    if k == 0 then [] else [ReadItem(ts)] + ReadItems(Skip(ts, 3), k - 1)
  }

  lemma SkipSkip(ts: seq<string>, i: nat)
    ensures Skip(Skip(ts, 3), 3 * i) == Skip(ts, 3 * (i + 1))
  {
  }

  /** Slot `i` is read from the tokens after the first `3 * i`. */
  lemma {:induction false} ReadItemsAt(ts: seq<string>, k: nat, i: nat)
    requires i < k
    ensures ReadItems(ts, k)[i] == ReadItem(Skip(ts, 3 * i))
    decreases i
  {
    if i > 0 {
      ReadItemsAt(Skip(ts, 3), k - 1, i - 1);
      SkipSkip(ts, i - 1);
    } else {
      assert Skip(ts, 0) == ts;
    }
  }

  /**
   * One line as `loadFromFile` decodes it: `None` when one of the eight
   * leading tokens is missing (the `continue`s); otherwise a record whose
   * item count is whatever `atoi` read, used as the loop bound unchecked.
   */
  function DecodeLine(line: string): Option<Cargo>
  {
    var ts := Tokens(line);
    if |ts| < 8 then None
    else
      var n := Atoi(ts[7]);
      Some(Cargo(Atoi(ts[0]), ReadItems(ts[8..], Filled(n)), n, Atof(ts[6]),
                 ts[2], ts[3], ts[4], ts[5], ts[1]))
  }

  /**
   * `DecodeLine` with the item count checked: a line declaring more than
   * MAX_ITEMS items is dropped like a short line. A negative count is kept,
   * as the source keeps it: its item loop runs zero times.
   */
  function DecodeRecord(line: string): (r: Option<Cargo>)
    ensures r.Some? ==> WellFormed(r.value)
  {
    match DecodeLine(line)
    case None => None
    case Some(c) => if c.itemCount <= MAX_ITEMS then Some(c) else None
  }

  /** A record decodes when its line has the eight leading tokens and at most MAX_ITEMS items. */
  lemma DecodeRecordAccepts(line: string)
    ensures DecodeRecord(line).Some? <==>
      |Tokens(line)| >= 8 && Atoi(Tokens(line)[7]) <= MAX_ITEMS
  {
  }

  /**
   * A line whose item tokens run out early still loads: the items with all
   * three tokens are read, the slots with none stay blank, and the declared
   * item count is kept.
   */
  lemma ItemsMayRunOut(line: string)
    requires |Tokens(line)| >= 8 && Atoi(Tokens(line)[7]) <= MAX_ITEMS
    ensures DecodeRecord(line).Some?
    ensures var ts, c := Tokens(line), DecodeRecord(line).value;
      c.itemCount == Atoi(ts[7]) &&
      forall i :: 0 <= i < c.itemCount ==>
        (8 + 3 * i + 2 < |ts| ==> c.items[i] == CargoItem(ts[8 + 3 * i], Atoi(ts[8 + 3 * i + 1]), Atof(ts[8 + 3 * i + 2]))) &&
        (8 + 3 * i >= |ts| ==> c.items[i] == BlankItem)
  {
    var ts, c := Tokens(line), DecodeRecord(line).value;
    forall i | 0 <= i < c.itemCount
      ensures 8 + 3 * i + 2 < |ts| ==> c.items[i] == CargoItem(ts[8 + 3 * i], Atoi(ts[8 + 3 * i + 1]), Atof(ts[8 + 3 * i + 2]))
      ensures 8 + 3 * i >= |ts| ==> c.items[i] == BlankItem
    {
      ReadItemsAt(ts[8..], c.itemCount, i);
    }
  }

  /**
   * A negative item count is kept: the item loop runs zero times, the record
   * loads with no items and the count as read.
   */
  lemma NegativeItemCountKept(line: string)
    requires |Tokens(line)| >= 8 && Atoi(Tokens(line)[7]) < 0
    ensures DecodeRecord(line).Some?
    ensures DecodeRecord(line).value.items == [] && DecodeRecord(line).value.itemCount == Atoi(Tokens(line)[7])
  {
  }

  /** A text field that survives the file format: non-empty, no '|', no newline. */
  predicate TextField(s: string)
  {
    |s| > 0 && PipeFree(s) && '\n' !in s
  }

  /** Every text field of the record survives the file format. */
  predicate Clean(c: Cargo)
  {
    TextField(c.trackingNumber) && TextField(c.sender) && TextField(c.senderAddress) &&
    TextField(c.destination) && TextField(c.status) &&
    forall i :: 0 <= i < |c.items| ==> TextField(c.items[i].name)
  }

  /** Generated tracking numbers survive the file format. */
  lemma TrackingNumberIsField(n: int)
    ensures TextField(TrackingNumber(n))
  {
    var t := TrackingNumber(n);
    assert t == "TRK" + IntToDecimal(n);
    forall i | 0 <= i < |t| ensures t[i] != '|' && t[i] != '\n' {
      if i >= 3 {
        assert t[i] == IntToDecimal(n)[i - 3];
      }
    }
  }

  /** A weight after the trip through `%.2f` and `atof`. */
  function Reread(w: real): real
  {
    Atof(FormatFixed2(w))
  }

  function RereadItems(items: seq<CargoItem>): (r: seq<CargoItem>)
    ensures |r| == |items|
  {
    if items == [] then [] else [items[0].(unitWeight := Reread(items[0].unitWeight))] + RereadItems(items[1..])
  }

  /** The record as it comes back from the file: every weight reread, all else as it was. */
  function Reloaded(c: Cargo): Cargo
  {
    c.(totalWeight := Reread(c.totalWeight), items := RereadItems(c.items))
  }

  lemma NumberField(s: string)
    requires 0 < |s| && NumberChars(s)
    ensures IsField(s)
  {
  }

  lemma {:induction false} ItemFieldsAreFields(items: seq<CargoItem>)
    requires forall i :: 0 <= i < |items| ==> TextField(items[i].name)
    ensures AllFields(ItemFields(items))
  {
    if items != [] {
      ItemFieldsAreFields(items[1..]);
      NumberField(IntToDecimal(items[0].quantity));
      NumberField(FormatFixed2(items[0].unitWeight));
      var head := [items[0].name, IntToDecimal(items[0].quantity), FormatFixed2(items[0].unitWeight)];
      assert ItemFields(items) == head + ItemFields(items[1..]);
      forall k | 0 <= k < |ItemFields(items)|
        ensures IsField(ItemFields(items)[k])
      {
        if k >= 3 {
          assert ItemFields(items)[k] == ItemFields(items[1..])[k - 3];
        }
      }
    }
  }

  lemma {:induction false} ReadItemsOfFields(items: seq<CargoItem>, tail: seq<string>)
    ensures ReadItems(ItemFields(items) + tail, |items|) == RereadItems(items)
  {
    if items != [] {
      var it := items[0];
      var ts := ItemFields(items) + tail;
      assert ts[0] == it.name && ts[1] == IntToDecimal(it.quantity) && ts[2] == FormatFixed2(it.unitWeight);
      assert Skip(ts, 3) == ItemFields(items[1..]) + tail;
      AtoiOfDecimal(it.quantity);
      ReadItemsOfFields(items[1..], tail);
    }
  }

  lemma RecordFieldsAreFields(c: Cargo)
    requires Clean(c)
    ensures AllFields(RecordFields(c))
  {
    ItemFieldsAreFields(c.items);
    NumberField(IntToDecimal(c.id));
    NumberField(FormatFixed2(c.totalWeight));
    NumberField(IntToDecimal(c.itemCount));
    var fs := RecordFields(c);
    forall k | 0 <= k < |fs| ensures IsField(fs[k]) {
      if k >= 8 {
        assert fs[k] == ItemFields(c.items)[k - 8];
      }
    }
  }

  /**
   * As `loadFromFile` decodes it (without the item-count check), an encoded
   * clean record comes back with every weight reread and all else unchanged,
   * whatever its item count.
   */
  lemma DecodeLineOfEncode(c: Cargo)
    requires Clean(c) && |c.items| == Filled(c.itemCount)
    ensures DecodeLine(EncodeLine(c)) == Some(Reloaded(c))
  {
    RecordFieldsAreFields(c);
    TokensOfJoin(RecordFields(c), "\n");
    TokensOfNewline();
    var ts := Tokens(EncodeLine(c));
    assert ts == RecordFields(c) + ["\n"];
    assert ts[8..] == ItemFields(c.items) + ["\n"];
    ReadItemsOfFields(c.items, ["\n"]);
    AtoiOfDecimal(c.id);
    AtoiOfDecimal(c.itemCount);
  }

  /**
   * Decoding an encoded well-formed record whose text fields are clean gives
   * back the same id, tracking number, sender, address, destination, status,
   * item count, item names and quantities; each weight comes back within
   * half a hundredth.
   */
  lemma RoundTrip(c: Cargo)
    requires Clean(c) && WellFormed(c)
    ensures DecodeRecord(EncodeLine(c)) == Some(Reloaded(c))
    ensures var d := Reloaded(c);
      d.id == c.id && d.trackingNumber == c.trackingNumber && d.sender == c.sender &&
      d.senderAddress == c.senderAddress && d.destination == c.destination &&
      d.status == c.status && d.itemCount == c.itemCount && |d.items| == |c.items| &&
      -0.005 <= d.totalWeight - c.totalWeight <= 0.005 &&
      forall i :: 0 <= i < |c.items| ==>
        d.items[i].name == c.items[i].name && d.items[i].quantity == c.items[i].quantity &&
        -0.005 <= d.items[i].unitWeight - c.items[i].unitWeight <= 0.005
  {
    DecodeLineOfEncode(c);
    Fixed2ReadsBack(c.totalWeight);
    forall i | 0 <= i < |c.items|
      ensures RereadItems(c.items)[i] == c.items[i].(unitWeight := Reread(c.items[i].unitWeight))
      ensures -0.005 <= Reread(c.items[i].unitWeight) - c.items[i].unitWeight <= 0.005
    {
      RereadItemsAt(c.items, i);
      Fixed2ReadsBack(c.items[i].unitWeight);
    }
  }

  lemma {:induction false} RereadItemsAt(items: seq<CargoItem>, i: nat)
    requires i < |items|
    ensures RereadItems(items)[i] == items[i].(unitWeight := Reread(items[i].unitWeight))
  {
    if i > 0 {
      RereadItemsAt(items[1..], i - 1);
    }
  }

  /** An empty field between '|'s leaves no token: the fields either side of it become neighbours. */
  lemma EmptyFieldVanishes(a: seq<string>, b: seq<string>, tail: string)
    requires AllFields(a) && AllFields(b)
    ensures Tokens(Join(a + [""] + b) + tail) == a + b + Tokens(tail)
  {
    JoinAppend(a, [""] + b);
    assert a + [""] + b == a + ([""] + b);
    assert ([""] + b)[1..] == b;
    var rest := Join(b) + tail;
    assert Join(a + [""] + b) + tail == Join(a) + ("|" + rest);
    TokensOfJoin(a, "|" + rest);
    assert Tokens("|" + rest) == Tokens(rest) by { assert ("|" + rest)[1..] == rest; }
    TokensOfJoin(b, tail);
  }

  lemma AllFieldsSlices(fs: seq<string>, i: nat)
    requires AllFields(fs) && i <= |fs|
    ensures AllFields(fs[..i]) && AllFields(fs[i..])
  {
  }

  /** Changing the sender changes field 2 of the record and no other. */
  lemma SenderIsFieldTwo(c: Cargo, x: string)
    ensures RecordFields(c)[..2] == RecordFields(c.(sender := x))[..2]
    ensures RecordFields(c)[3..] == RecordFields(c.(sender := x))[3..]
  {
  }

  /** The tokens of a line whose sender is empty: every field but the sender, then the newline. */
  lemma EmptySenderTokens(c: Cargo)
    requires c.sender == ""
    requires Clean(c.(sender := "x"))
    ensures Tokens(EncodeLine(c)) == RecordFields(c)[..2] + RecordFields(c)[3..] + ["\n"]
  {
    var fs, gs := RecordFields(c), RecordFields(c.(sender := "x"));
    RecordFieldsAreFields(c.(sender := "x"));
    SenderIsFieldTwo(c, "x");
    AllFieldsSlices(gs, 2);
    AllFieldsSlices(gs[2..], 1);
    assert gs[2..][1..] == gs[3..];
    assert fs == fs[..2] + [""] + fs[3..];
    EmptyFieldVanishes(fs[..2], fs[3..], "\n");
    TokensOfNewline();
  }

  /**
   * No escaping: an empty sender vanishes between two '|', so every later
   * field moves one place left and the address is read as the sender.
   */
  lemma EmptyFieldShiftsFields(c: Cargo)
    requires c.sender == ""
    requires Clean(c.(sender := "x"))
    ensures DecodeLine(EncodeLine(c)).Some?
    ensures DecodeLine(EncodeLine(c)).value.sender == c.senderAddress
    ensures DecodeLine(EncodeLine(c)).value.destination == c.status
  {
    EmptySenderTokens(c);
    var ts := Tokens(EncodeLine(c));
    var fs := RecordFields(c);
    assert |ts| >= 8 && ts[2] == fs[3] && ts[4] == fs[5];
  }

  lemma {:induction false} JoinAppend(a: seq<string>, b: seq<string>)
    ensures Join(a + b) == Join(a) + Join(b)
  {
    if a != [] {
      assert (a + b)[1..] == a[1..] + b;
      JoinAppend(a[1..], b);
    } else {
      assert a + b == b;
    }
  }

  /**
   * As written, the declared item count bounds the item loop unchecked: a
   * line declaring MAX_ITEMS + 1 items makes the loop fill slot index
   * MAX_ITEMS, one past the end of the item array.
   */
  lemma ItemCountOverflowsAsWritten()
    ensures exists line :: (DecodeLine(line).Some? &&
      DecodeLine(line).value.itemCount == MAX_ITEMS + 1 &&
      |DecodeLine(line).value.items| == MAX_ITEMS + 1 &&
      DecodeRecord(line).None?)
  {
    var items := seq(MAX_ITEMS + 1, _ => CargoItem("box", 1, 1.0));
    var c := Cargo(1, items, MAX_ITEMS + 1, 11.0, "a", "b", "c", "d", "TRK1000");
    assert Clean(c);
    var line := EncodeLine(c);
    DecodeLineOfEncode(c);
    var d := Reloaded(c);
    assert DecodeLine(line) == Some(d);
    assert d.itemCount == MAX_ITEMS + 1 && |d.items| == MAX_ITEMS + 1;
    assert DecodeRecord(line).None?;
  }
}
