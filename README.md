# Anonymizing room reserves

`anonymize_reserves.py` takes a JSON list of rooms. Each room has an optional
`room` identifier and an optional list of `entries`, and each entry may carry
an organization `title`. The script returns a copy of the list in which every
title is replaced by a short alphabetic label. It first collects every title
of every entry. It then sorts the distinct titles and gives them the labels
A, B, …, Z, AA, AB, … in that order. Finally it builds a new room for each
input room, holding exactly the keys `room` and `entries`. The `room` value
is copied, or is null when absent, and any other key of the room is dropped.
The entries are copied one by one. Each copy keeps every key of the entry and
has its title replaced.

This project models the three functions that do the work:

- `generate_labels` (module `Labels`). The inner `while True` loop is the
  method `EncodeLabel`. It is specified by the recursive function `Label`,
  and `Value`/`Decode` read a label back as bijective base 26. The outer
  `for` loop is `GenerateLabels`, specified by `LabelSeq`.
- `build_mapping` (modules `StringOrder`, `Sorting` and `Mapping`). Python's
  default string order is `LexLess`. `sorted(set(titles))` is
  `SortedUnique`, and `dict(zip(...))` is `Zip`. `BuildMapping` puts them
  together.
- `anonymize` (module `Anonymizer`). The title-collecting loop is
  `CollectTitles`, specified by `Titles`. The rebuilding loop is `Anonymize`,
  and its inner loop is `AnonymizeRoom`. What a correct output is gets stated
  once, as the predicate `IsAnonymization`. `AnonymizationUnique` shows that
  this predicate fixes the output completely.

The document arrives already parsed. A room is
`Room(room: Option<Json>, entries: Option<seq<Entry>>)`, where `None` means
the key is absent. An entry is `Entry(title: Option<string>, others: Fields)`,
which splits out its `title` key. `Fields` is a map whose keys exclude
`"title"`, so a title cannot hide among the other keys. An output room is
`OutRoom(room, entries)`, so it has exactly the keys `room` and `entries`.
Values are immutable in Dafny, so `anonymize` cannot change its argument.
The source gets the same effect by building new room dictionaries and
copying each entry with `dict(entry)`.

`Scenario` works through the documented example: one room "101" holding
entries titled "Acme Corp" (with a "note"), "Acme Corp" and "Beta LLC". The
proofs are done for any identifier, any two titles `a < b` and any other
fields. `SampleAnonymization` then applies them to those concrete values.

## Model

| member | source | states |
|---|---|---|
| Labels.Digit | anonymize_reserves.py:44 | `chr(ord("A") + k)` is a capital letter whose distance from 'A' is `k` |
| Labels.Label | anonymize_reserves.py:41-48 | every label is a non-empty string of letters 'A'..'Z' |
| Labels.EncodeLabel | anonymize_reserves.py:41-48 | the inner loop terminates for every `num >= 0` (`n` strictly decreases); it returns `Label(num)`, which decodes back to `num` |
| Labels.DecodeLabel | anonymize_reserves.py:44-48 | reading a label in bijective base 26 (digits 'A' = 1 … 'Z' = 26, minus one) gives back the index |
| Labels.LabelDecode | anonymize_reserves.py:44-48 | every non-empty string over 'A'..'Z' is the label of the index it decodes to, so the encoding is onto as well as one-to-one |
| Labels.LabelInjective | anonymize_reserves.py:40-49 | different indices get different labels |
| Labels.LabelOrder | anonymize_reserves.py:38-49 | a smaller index gets a label that is shorter, or of equal length and lexicographically smaller (A, …, Z, AA, AB, …) |
| Labels.LabelExamples | anonymize_reserves.py:38 | index 0, 25, 26, 27, 51, 52, 701 and 702 give "A", "Z", "AA", "AB", "AZ", "BA", "ZZ" and "AAA" |
| Labels.LabelSeq | anonymize_reserves.py:40-49 | `range(count)` gives `max(count, 0)` labels, the i-th being `Label(i)`; a count of zero or less gives none |
| Labels.GenerateLabels | anonymize_reserves.py:37-49 | the outer loop yields exactly `count` labels, in the order of `LabelSeq`; each is non-empty capital letters decoding to its index; they are pairwise distinct and strictly increasing in shortlex order |
| StringOrder.LexLessIrreflexive | anonymize_reserves.py:53 | under Python's string order no string is less than itself |
| StringOrder.LexLessAsymmetric | anonymize_reserves.py:53 | two strings are never each less than the other |
| StringOrder.LexLessTransitive | anonymize_reserves.py:53 | the string order is transitive |
| StringOrder.LexLessTotal | anonymize_reserves.py:53 | of two different strings, one is less than the other, so `sorted` has a single answer |
| Sorting.Insert | anonymize_reserves.py:53 | inserting into a strictly increasing sequence keeps it strictly increasing and adds exactly the new element |
| Sorting.SortedUnique | anonymize_reserves.py:53 | `sorted(set(titles))` is strictly increasing and holds exactly the distinct titles |
| Sorting.SortedEqual | anonymize_reserves.py:53 | two strictly increasing sequences with the same elements are equal, so any sorting algorithm gives the same list |
| Mapping.SortedIsDistinct | anonymize_reserves.py:53 | a strictly increasing sequence has no repeated element |
| Mapping.Zip | anonymize_reserves.py:55 | `dict(zip(keys, values))`: every key of the result is one of `keys`, and all of them are keys when there are at least as many values |
| Mapping.ZipAt | anonymize_reserves.py:55 | for distinct keys and at least as many values, the i-th key maps to the i-th value |
| Mapping.BuildMapping | anonymize_reserves.py:52-55 | the keys of the mapping are exactly the input titles (none for an empty input); the i-th smallest distinct title maps to `Label(i)` |
| Mapping.BuildMappingRank | anonymize_reserves.py:53-55 | for any strictly increasing listing of the distinct titles, the title at position i maps to the i-th label |
| Mapping.BuildMappingSetOnly | anonymize_reserves.py:53 | two title lists with the same set of titles give the same mapping, so duplicates and their positions change nothing |
| Mapping.BuildMappingInjective | anonymize_reserves.py:53-55 | different titles are given different labels |
| Mapping.BuildMappingMonotone | anonymize_reserves.py:53-55 | a smaller title gets an earlier label in shortlex order |
| Mapping.BuildMappingLabels | anonymize_reserves.py:54-55 | every value of the mapping is a non-empty string of capital letters |
| Anonymizer.EntriesOf | anonymize_reserves.py:61 | `room.get("entries", [])`: the room's entries when the key is present, otherwise none |
| Anonymizer.RoomId | anonymize_reserves.py:68 | `room.get("room")`: the room's identifier when the key is present, otherwise null |
| Anonymizer.EntryTitles | anonymize_reserves.py:61-63 | the titles collected from one room's entries: no more than there are entries, and every entry's title is among them |
| Anonymizer.Titles | anonymize_reserves.py:59-63 | the `titles` list of the first loop: the title of every entry of every room is among them |
| Anonymizer.TitleMapping | anonymize_reserves.py:64 | `build_mapping(titles)` has a key for the title of every entry of every room |
| Anonymizer.EntryTitlesElems | anonymize_reserves.py:61-63 | a string is among the titles collected from a room's entries exactly when some entry has it as its title |
| Anonymizer.TitlesElems | anonymize_reserves.py:59-63 | a string is among the collected titles exactly when some entry of some room has it as its title |
| Anonymizer.CollectTitles | anonymize_reserves.py:59-63 | the first loop collects the titles of every room's entries in document order, duplicates kept; a room without `entries` adds none; the result holds exactly the titles present |
| Anonymizer.AnonymizeRoom | anonymize_reserves.py:68-74 | the new room keeps the `room` value (null when absent) and has one entry per input entry, in order (none when `entries` is absent); each keeps every other key; a title in the mapping becomes its label, any other title stays, and no title is added |
| Anonymizer.CopiedIsRewritten | anonymize_reserves.py:59-73 | because the mapping covers every collected title, every entry copied this way has its title replaced, not left as it was |
| Anonymizer.AnonymizationUnique | anonymize_reserves.py:66-76 | two anonymized copies of the same document are equal, so the output is determined by the input |
| Anonymizer.RelabelingConsistent | anonymize_reserves.py:59-76 | in an anonymized copy every new title is non-empty capital letters, and two titled entries in any rooms get the same label exactly when they had the same title |
| Anonymizer.Anonymize | anonymize_reserves.py:58-76 | the output has one room per input room, in order, each with as many entries as its input room; it satisfies `IsAnonymization` (same identifier, every other key kept, no title added, every title replaced by its label); new titles are labels, equal exactly for equal old titles |
| Scenario.DocTitles | anonymize_reserves.py:59-63 | from the entries titled a, a, b the first loop collects `[a, a, b]` |
| Scenario.TwoTitlesMapping | anonymize_reserves.py:52-55 | whenever the distinct titles are `a < b`, the mapping is `{a: "A", b: "B"}` |
| Scenario.DocRoomRewritten | anonymize_reserves.py:66-76 | under `{a: "A", b: "B"}` the sample room becomes the room with titles A, A, B and the same other fields |
| Scenario.DocAnonymizedIsAnonymization | anonymize_reserves.py:58-76 | the room with titles A, A, B is an anonymized copy of the room with titles a, a, b |
| Scenario.DocAnonymization | anonymize_reserves.py:58-76 | every anonymized copy of the room with titles a, a, b is the room with titles A, A, B |
| Scenario.SampleAnonymization | anonymize_reserves.py:58-76 | every anonymized copy of the "101" room with "Acme Corp", "Acme Corp", "Beta LLC" has titles "A", "A", "B", and its note "x" is kept |

## Left out

- `load_json` and `save_json` (anonymize_reserves.py:23-34) are file I/O and JSON parsing and printing. The model starts from a parsed document and ends at the value `anonymize` returns.
- The `SystemExit` for a missing input file and `main` (anonymize_reserves.py:27-28, 79-87) are argument handling, I/O and `print`.
- Titles that are not strings are not modelled; an entry's `title` is `Option<string>`. With string and non-string titles mixed, Python's `sorted` fails. A `null` title is collected as `None`. If every title is `null`, the mapping is `{None: "A"}`. Then `entry.get("title")` also gives `None` for each entry without a `title` key, so each such entry gets `"title": "A"` added (anonymize_reserves.py:53-55, 71-73). The model's promise that no title is added holds only for documents whose titles are strings.
- Python strings may hold lone surrogates, which `json.load` accepts as `\ud800` escapes. A Dafny `char` is a Unicode scalar value and cannot hold one, so such titles are not modelled.
- A room's keys other than `room` and `entries` are not modelled, because `Room` has no field for them. The source drops them from the output (anonymize_reserves.py:68).
- An `entries` value that is not a list is not modelled; it is either a list or absent. An entry that is not an object is not modelled either.
- The contents of non-title values are not looked at. They are opaque `Json` values, and numbers are kept as their literal text. The order of keys in a JSON object is not modelled, since `map` has none.
- Python's sort algorithm is not modelled. `SortedUnique` builds the sorted distinct titles by insertion. `SortedEqual` shows that any strictly increasing list of the same titles is that list.
- `generate_labels` is a lazy generator; the model returns the finished sequence that `list(...)` makes of it.
- Copying each entry in place (`dict(entry)` and the later title write) is modelled on values. `Entry` is a datatype, so the model cannot show aliasing; there is nothing to alias.
