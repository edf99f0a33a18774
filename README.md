# Cargo record store

This project models the record store of a small cargo management program written in C (`main.c`). It covers:

- the global array of shipment records and its count;
- adding a record: the capacity check, the id check, the item loop with its weight check and running total, the tracking-number counter, and the append;
- the total-weight sum;
- the case-insensitive exact comparison and the searches by destination and status built on it;
- tracking by id and by tracking number;
- the pipe-delimited file format written by `saveToFile` and read back with `strtok`, `atoi` and `atof` by `loadFromFile`.

Modules follow the parts of the program:

- `Util`: `Option` and `Take`.
- `Numbers`: text for `%d` and `%.2f`, and the `atoi` and `atof` readers.
- `Text`: `tolower` and `caseInsensitiveCompare`.
- `CargoData`:
  - the `CargoItem` and `Cargo` records;
  - `MAX_CARGO` = 100 and `MAX_ITEMS` = 10;
  - the item loop of `addCargo`;
  - `TRK<n>` tracking numbers starting at 1000.
- `Codec`:
  - the `strtok` tokeniser, which splits on '|' and drops empty tokens;
  - the line encoder;
  - the line decoder, in two forms: as written, and with the item count checked.
- `Registry`:
  - specification functions over sequences of records: matching, summing, saving and loading;
  - the class `Store`, holding the global array (`slots`), `cargoCount` (`count`) and the static counter of `generateTrackingNumber` (`counter`). Its methods carry the loops of the source.

Conventions of the model:

- Keyboard input arrives as parameters. What would be printed is returned.
- The data file is a sequence of lines, each with its trailing newline as `fgets` keeps it.
- Weights are exact `real` numbers.
- `%.2f` rounds to the nearest hundredth, with halves rounded up.
- `atof` reads optional white space, an optional sign, digits and an optional fraction.

A non-numeric field does not make a line fail to decode. Rejecting it would be the stricter reading, but the code reads such text with `atoi` and `atof` as 0 and loads the record, and the model does the same. A negative item count is likewise kept: the record loads with no items.

## Model

| member | source | states |
|---|---|---|
| Text.CaseInsensitiveCompare | main.c:266-273 | The pointer loop returns true exactly when both strings have the same length and agree at every position after `tolower` |
| Text.EqualIgnoringCaseIsLoweredEquality | main.c:266-273 | The comparison holds iff the two strings, folded to lower case, are equal (both directions) |
| Text.EqualIgnoringCaseIsEquivalence | main.c:266-273 | The comparison is reflexive, symmetric and transitive |
| Text.ProperPrefixNeverMatches | main.c:267-272 | A string never matches a strict extension of itself at either end (`a` against `a + rest` and against `rest + a`), in either argument order: neither a prefix nor a suffix is a match |
| Text.CaseIsIgnored | main.c:268 | "Depot" matches "DEPOT"; "Depot" does not match "Depot " |
| Text.ToLower | main.c:268 | `tolower` in the "C" locale: 'A'..'Z' map to 'a'..'z', every other character is kept |
| Text.LengthsMustAgree | main.c:267-272 | Strings of different lengths never match: the loop ends when one string does, and `*a == *b` then fails |
| Text.LoweredAt | main.c:268 | Folding a string folds each character in place |
| Numbers.IntToDecimal | main.c:451 | `%d` text is non-empty and starts with '-' or a digit |
| Numbers.Atoi | main.c:492 | `atoi`: skip leading white space, read an optional sign and the decimal digits that follow; text with no digits there reads as 0 |
| Numbers.AtoiOfDecimal | main.c:492 | `atoi` reads back exactly the integer `%d` wrote, negative numbers included |
| Numbers.DigitsValueOfDecimal | main.c:451 | The digits written for a natural number have that number as their value |
| Numbers.LeadingDigitsOfDigits | main.c:492 | The digit run `atoi` reads is exactly the digits before the first non-digit |
| Numbers.Hundredths | main.c:458 | The hundredths `%.2f` prints are `m * 100` rounded to nearest |
| Numbers.FormatFixed2 | main.c:458 | `%.2f` text is non-empty and uses only digits, '-' and '.', so it is one field of the file |
| Numbers.Fixed2MagnitudeReads | main.c:516 | `atof`'s unsigned reader turns the printed magnitude into exactly its hundredths over 100 |
| Numbers.Fixed2Sign | main.c:516 | `atof` of `%.2f` text is the printed magnitude, negated when the weight is negative |
| Numbers.Fixed2ReadsBack | main.c:458 | A weight written with `%.2f` and read with `atof` differs from the original by at most 0.005 |
| Numbers.Atof | main.c:516 | `atof` on fixed-point text: skip white space, optional sign, digits, optional '.' and fraction digits, read as an exact decimal; text with no digits reads as 0 |
| Numbers.AtofOfDigitsFirst | main.c:516 | Text starting with a digit is read by `atof` with no sign or leading blanks |
| Numbers.AtofOfNegated | main.c:516 | A '-' before such text negates the value read |
| CargoData.ValidWeight | main.c:571-573 | `validateWeight`: the weight is strictly positive |
| CargoData.KeptItems | main.c:166-204 | At most `room` items are kept, and every kept item has a positive unit weight |
| CargoData.KeptItemsArePositiveEntries | main.c:166-204 | The kept items are exactly the first `room` entries whose unit weight passes `validateWeight`, in order |
| CargoData.KeptItemsFrom | main.c:174-195 | Every kept item is one of the entries typed |
| CargoData.ItemsWeightAppend | main.c:191-193 | Adding an item adds its quantity times its unit weight to the sum |
| CargoData.BuildItems | main.c:166-204 | The loop keeps `KeptItems(entries, MAX_ITEMS)`, and its running total equals the sum of quantity times unit weight over the kept items |
| CargoData.NewCargo | main.c:129-216 | A new record's items are exactly the entries kept by the input loop (`KeptItems`: positive weight, at most MAX_ITEMS), `itemCount` equals their number, only positive unit weights, a total equal to the item weight sum, and the id and tracking number given |
| CargoData.TrackingNumber | main.c:591 | `sprintf("TRK%d", n)`: "TRK" followed by the `%d` text of n |
| CargoData.TrackingNumberSuffix | main.c:591 | A tracking number is "TRK" followed by text that `atoi` reads as the counter value |
| CargoData.TrackingNumberInjective | main.c:591 | Two tracking numbers are equal iff their counter values are |
| CargoData.IssuedDistinctAndIncreasing | main.c:589-592 | The numbers issued since start-up are pairwise distinct, and their numeric suffixes strictly increase in order of issue |
| Registry.Store.constructor | main.c:590 | At start the counter is seeded at 1000 (the static initialiser) and the store is empty (`cargoCount = 0`, main.c:34) |
| Registry.Store.Append | main.c:215-216 | Writing slot `cargoCount` and incrementing the count appends the record; earlier records and the counter are unchanged |
| Registry.Store.GenerateTrackingNumber | main.c:589-592 | Returns "TRK" and the current counter, then advances the counter by one; the counter is always 1000 plus the number of calls so far, so call k gets TRK(1000+k-1) |
| Registry.Store.IsIdUnique | main.c:561-568 | True exactly when no stored record has the id |
| Registry.Store.AddCargo | main.c:123-221 | Full store: CapacityReached. Otherwise a taken id: DuplicateId. Both refusals leave records and counter unchanged. Otherwise the record built from the kept items and the next tracking number is appended, earlier records are unchanged, and distinct ids stay distinct |
| Registry.SumWeights | main.c:256-260 | The sum of the records' `totalWeight`, 0 for no records |
| Registry.SumWeightsAppend | main.c:258-260 | One more record adds its total weight to the sum |
| Registry.Store.CalculateTotalWeight | main.c:255-263 | Returns the sum of `totalWeight` over the stored records (0 for an empty store) |
| Registry.Matching | main.c:294-306 | The records, in store order, whose destination (or status) passes `caseInsensitiveCompare` with the term |
| Registry.MatchingMembership | main.c:333-345 | A record is in a search result iff it is stored and its field matches the term case-insensitively |
| Registry.MatchingAppend | main.c:294-306 | Searching a concatenation concatenates the results, so results keep store order |
| Registry.ExactDestinationMatch | main.c:294-306 | Searching "Springfield" finds "Springfield" but not "springfield East": matching is exact, not by substring |
| Registry.Store.Search | main.c:294-345 | Returns exactly the stored records whose destination or status passes `caseInsensitiveCompare` with the term, in store order |
| Registry.Store.TrackById | main.c:371-403 | With the id `atoi` reads from the input, returns none iff no record has that id, else the first record that has it |
| Registry.Store.TrackByTrackingNumber | main.c:404-435 | Returns none iff no record's tracking number equals the code exactly, else the first record whose tracking number does |
| Codec.Tokens | main.c:489-534 | The successive results of `strtok` with the pipe as delimiter: the maximal runs of characters other than '|', so empty fields vanish; only '|' splits, so a trailing newline is a token of its own or part of the last one |
| Codec.TokenLengthStops | main.c:489 | A token ends at the first '|' and contains none |
| Codec.TokensAreFields | main.c:489-534 | Every token `strtok` returns is non-empty and free of '|' |
| Codec.TokensOfNewline | main.c:468 | The newline ending a line is a token of its own |
| Codec.TokenLengthOfField | main.c:489 | A pipe-free field followed by '|' is one token long |
| Codec.TokensAfterField | main.c:489-534 | A non-empty pipe-free field and its '|' yield that field as the next token |
| Codec.TokensOfJoin | main.c:489-534 | Tokenising non-empty pipe-free fields, each followed by '|', gives the fields back |
| Codec.RecordFields | main.c:451-466 | The fields `saveToFile` writes for a record, in file order: id, tracking number, sender, address, destination, status, `%.2f` total, item count, then name, quantity and `%.2f` unit weight per item |
| Codec.EncodeLine | main.c:451-468 | A record's line: each field followed by '|', then a newline |
| Codec.ItemFields | main.c:461-466 | Each item writes three fields |
| Codec.ReadItem | main.c:524-534 | One item slot from the next tokens: name, `atoi` quantity, `atof` weight; when the tokens run out the loop breaks and the fields not reached keep their zero value |
| Codec.ReadItems | main.c:523-535 | The item loop fills exactly as many slots as the count it is given |
| Codec.SkipSkip | main.c:523-535 | Skipping three tokens and then 3i more is skipping 3(i+1) |
| Codec.ReadItemsAt | main.c:523-535 | Item slot i is read from the tokens after the first 3i |
| CargoData.Filled | main.c:523 | The number of item slots the loop `for (i = 0; i < itemCount; i++)` visits: the count, or none when it is negative |
| Codec.DecodeLine | main.c:489-535 | The loader body as written: `None` when one of the eight leading tokens is missing (the `continue`s); otherwise id, tracking number, sender, address, destination, status, `atof` total and `atoi` item count from those tokens, and the item loop bounded by the count, unchecked |
| Codec.DecodeRecord | main.c:487-538 | A record the corrected loader accepts is well formed: itemCount <= MAX_ITEMS, with one item per slot the loop visits (none for a negative count) |
| Codec.DecodeRecordAccepts | main.c:489-520 | The corrected loader accepts a line iff it has the eight leading tokens and its item count reads at most MAX_ITEMS; a missing leading token drops it, as in the source |
| Codec.NegativeItemCountKept | main.c:520-537 | A line with a negative item count loads, as in the source: the item loop runs zero times, so the record has no items and keeps the count as read |
| Codec.ItemsMayRunOut | main.c:518-535 | A line whose item tokens run out still loads with its declared item count: items with all three tokens are read, and slots with no tokens stay blank |
| Codec.TrackingNumberIsField | main.c:591 | Generated tracking numbers are non-empty and contain no '|' or newline |
| Codec.NumberField | main.c:451 | Number text is a single field |
| Codec.ItemFieldsAreFields | main.c:461-466 | Item fields with clean names are all single fields |
| Codec.RecordFieldsAreFields | main.c:451-466 | Every field of a record with clean text fields is non-empty and free of '|' |
| Codec.ReadItemsOfFields | main.c:523-535 | Reading the items back from their fields gives the same names and quantities, with each unit weight reread |
| Codec.RereadItemsAt | main.c:534 | Rereading items changes each item's unit weight only |
| Codec.DecodeLineOfEncode | main.c:451-535 | Decoding the encoded line of a clean record, even with the unchecked loader, gives the record back with every weight reread and all else unchanged |
| Codec.RoundTrip | main.c:451-535 | Decoding an encoded clean, well-formed record gives back its id, tracking number, sender, address, destination, status, item count, item names and quantities; each weight comes back within 0.005 |
| Codec.EmptyFieldVanishes | main.c:489-534 | An empty field between two '|' yields no token; its neighbours become adjacent tokens |
| Codec.AllFieldsSlices | main.c:489-534 | Slices of a list of fields are lists of fields |
| Codec.SenderIsFieldTwo | main.c:451-454 | The sender is written as field 2; changing it changes no other field |
| Codec.EmptySenderTokens | main.c:489-512 | A record with an empty sender tokenises to its other fields and the newline |
| Codec.EmptyFieldShiftsFields | main.c:498-512 | With no escaping, an empty sender shifts the fields: the address is read as the sender and the status as the destination |
| Codec.JoinAppend | main.c:450-466 | Writing two lists of fields in turn writes their concatenation |
| Codec.ItemCountOverflowsAsWritten | main.c:520-535 | As written, a line declaring MAX_ITEMS+1 items is accepted and the item loop fills MAX_ITEMS+1 slots |
| Codec.RereadItems | main.c:534 | Rereading keeps the number of items |
| Registry.EncodeAll | main.c:450-469 | One line is written per record |
| Registry.EncodeAllAppend | main.c:450-469 | Saving one more record appends its line |
| Registry.Store.Save | main.c:442-473 | The lines written are the encoded records in store order |
| Registry.DecodeAll | main.c:487 | The decoding of each line of the file, in file order, by the corrected decoder `Codec.DecodeRecord` (a line declaring more than MAX_ITEMS items decodes to nothing) |
| Registry.LoadFrom | main.c:487-538 | The load loop after records `acc` are in, with the corrected decoder `Codec.DecodeRecord`: stop once MAX_CARGO records are in, skip a line that does not decode, append the record of one that does |
| Registry.LoadRecords | main.c:484-538 | The records `loadFromFile` leaves with the corrected decoder `Codec.DecodeRecord`, starting from none (`cargoCount = 0`) |
| Registry.LoadFromStep | main.c:487-537 | One turn of the load loop: skip a line that does not decode, append the record of one that does |
| Registry.LoadLineStep | main.c:487-537 | The same step, on line i of the file |
| Registry.LoadFromDone | main.c:487 | The load loop ends at end of file or once MAX_CARGO records are in |
| Registry.LoadFromIsTake | main.c:487-538 | Loading after records `acc` keeps the first MAX_CARGO of `acc` followed by every decoded record |
| Registry.LoadIsBoundedDecode | main.c:484-538 | Loading keeps exactly the first MAX_CARGO records of the lines that decode, in file order, so at most MAX_CARGO |
| Registry.DecodeAllAppend | main.c:487 | Decoding a concatenation of files decodes each part |
| Registry.PresentAppend | main.c:487-538 | The decoded records of a concatenation concatenate |
| Registry.PresentOfLines | main.c:487-538 | The decoded records of a file are those of its parts, in order |
| Registry.PresentOfLine | main.c:487-538 | A line contributes its record when it decodes, nothing otherwise |
| Registry.PresentSkipsNone | main.c:490-520 | A line that fails contributes no record |
| Registry.DecodeAllAround | main.c:487 | The decodings of a file split around line i |
| Registry.MalformedLineDropped | main.c:489-520 | A line that does not decode is dropped wherever it stands: the store loads as if it were absent |
| Registry.LoadKeepsDuplicateIds | main.c:487-538 | Loading does not check ids: a line repeated twice loads two records with the same id |
| Registry.PresentOfEncodeAll | main.c:487-538 | Decoding the saved lines of clean records gives the records back, with weights reread |
| Registry.SaveLoadRoundTrip | main.c:442-541 | For lines under 1000 characters (the `fgets` buffer, which the model does not split): saving up to MAX_CARGO clean records and loading them gives the same records in the same order, weights reread |
| Registry.ReloadedAll | main.c:442-541 | Reloading keeps the number of records |
| Registry.Store.LoadLine | main.c:489-537 | Below the MAX_CARGO cap, one line of the load loop appends exactly the record `Codec.DecodeRecord` gives for it, or leaves the records unchanged when the line does not decode; the counter is untouched, and the rest of the load proceeds as the load specification does |
| Registry.Store.Load | main.c:476-541 | Records after loading are `LoadRecords(lines)`; the counter and the array are unchanged |
| Registry.NewCargoIsClean | main.c:129-216 | A record added with clean text fields, whatever counter value its tracking number carries, survives the file format |
| Registry.RestartReissuesTrackingNumber | main.c:589-592 | The counter is not saved, so after restart and load the next record added is given TRK1000 again, which a loaded record already holds |

## Left out

- The menu loop and the `scanf`/`fgets`/`printf` I/O: `main`, `initializeSystem`, `displayMenu`, `viewAllCargo`, `displayCargoTableHeader`, `clearInputBuffer`. Inputs are parameters and results are returned.
- `exitProgram` ends the process. `toLowerCase` is never called.
- `fopen`/`fclose` and their failure branches. `Registry.Store.Load` takes the file's lines, and `Registry.Store.Save` returns them. When the file is missing, the source returns without touching the store.
- `fgets` line limits: the 1000-character load buffer and the 100-character input buffers. Longer input is split or truncated there. Here lines and fields are whole strings.
- `Registry.SaveLoadRoundTrip`: holds only for lines under 1000 characters. A record `addCargo` can build (ten items with 90-character names) saves to a longer line. The source's `fgets` would read it as two pieces: the first loads with its items cut short, and the second loads as a spurious record when it has eight tokens. The model does not split lines, so this break is not captured.
- `strncpy` truncation to 100 bytes and a possibly missing terminator.
- IEEE `float`: weights and sums are exact reals, so a total is never rounded.
- `Numbers.Atof`: exponents, hexadecimal, "inf" and "nan" are not read.
- `Numbers.FormatFixed2`: rounds exact halves up instead of following binary rounding.
- `Codec.RoundTrip`: promises weights only within 0.005 under exact arithmetic, not bit for bit.
- Integer overflow of `int` and `atoi`'s behaviour out of range: integers are unbounded.
- Parsing the id with `scanf("%d")` and its failure branch (main.c:137-141): `Registry.Store.AddCargo` receives the parsed id.
- `CargoData.BuildItems`: the entries stand for the items in the order typed, so the yes/no question between items is not modelled. An entry whose weight fails `validateWeight` is skipped, and the slot is asked for again. In the source, an invalid weight on the first item reaches the loop test with `addMore` still uninitialised.
- `Registry.Store.TrackById`: the input is whole text. In the source it is read into a 20-byte buffer. The option prompt of `trackCargo` is I/O and is not modelled.
- `Registry.Store.TrackByTrackingNumber`: the code is a parameter. In the source, `fgets` may write up to 100 bytes into that 20-byte buffer (main.c:361, 406).
- Slot contents after a dropped line: fields written before the `continue` stay in the slot, and the next line overwrites them. No slot beyond the count is ever read, so this is not modelled.
- Item slots that a short line does not fill appear as blank items. This is the zero-initialised global array `loadFromFile` sees at start-up.
- `Registry.Store.Load`: uses the corrected decoder, so a line whose item count reads above MAX_ITEMS is dropped, where the source writes past the item array (see Findings). Lines with a negative count load as in the source.
- Unchecked `scanf("%d", &quantity)` (main.c:178): on non-numeric input the source leaves the quantity uninitialised; the entries given to `Registry.Store.AddCargo` always carry a defined integer.
- `Registry.Store.Save` and `Registry.Store.Load` treat the file as a list of lines that is never re-split on newlines. A loaded item name can be the line's `"\n"` token when a short line runs out (`Codec.ReadItem`); saving that record writes a newline inside its line, and the source's `fgets` would reread it as two lines. The round-trip lemmas require clean text fields, so they do not cover such records.
- Id uniqueness is not part of `Registry.Store.Valid`: `loadFromFile` does not enforce it (see `Registry.LoadKeepsDuplicateIds`). `Registry.Store.AddCargo` preserves it.

## Findings

| source | as written | input that shows it | evidently intended | confidence | as-written member | corrected member |
|---|---|---|---|---|---|---|
| main.c:520-535 | `itemCount` is read with `atoi` and bounds the item loop unchecked. A count above MAX_ITEMS writes past `items[MAX_ITEMS - 1]`. | A line with the eight leading fields, item count `11`, and eleven items: the loop fills `items[10]` | Only counts up to MAX_ITEMS are accepted. The corrected loader drops a line declaring more, like a short line, so loaded records are always well formed; a negative count, which reads no items, is kept as in the source | not executed | Codec.ItemCountOverflowsAsWritten | Codec.DecodeRecord |
