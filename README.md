# Daily Feels: a model of the mood-journal backend

This project models the core of the mood-journal service in `backend/server.py` in Dafny and proves properties about it. The service has three parts:

- **Entry store.** It keeps one mood entry per calendar date. A submission for a date that already has an entry updates that entry in place: the entry keeps its id and its creation time. Entries can be listed over an optional, inclusive date range, ascending by date. They can be deleted by id, and an unknown id is a 404.
- **Mood palette.** It is a single settings record. An empty or missing record reads as the seven built-in moods.
- **PDF export.** It holds a title, a timeframe line and a summary table. The summary counts entries per mood, sorted by descending count with ties in first-seen order, and is left out when there are no entries. Then comes a detail table with labels falling back to the raw mood value and notes cut to 200 characters, and finally a suggested file name.

Modules, one per file:

- `Basics` (`basics.dfy`): an option type, and Python's truthiness of an optional string (`x or fallback`). `None` and `""` both count as absent.
- `StringOrder` (`string_order.dfy`): the lexicographic string order that the store applies to ISO dates, proved to be a total order. It also holds `str(n)` for counts, with its inverse.
- `MoodConfig` (`mood_config.dfy`): `Mood`, the built-in palette, the active-palette rule, and the `ConfigStore` class for the `mood_config` record.
- `Entries` (`entries.dfy`): the entry record and the specification functions of upsert, range listing and deletion, with their lemmas. The `EntryStore` class holds the `mood_entries` collection as a `seq`, and its methods are proved against those functions.
- `Frequencies` (`frequencies.dfy`): the frequency dictionary as `(value, count)` items in insertion order, and the stable sort by descending count.
- `Report` (`report.dfy`): the label and colour maps, the cells and rows, the timeframe line, the file name and the report content. It also holds the methods with the export's loops (counting, appending rows), each proved to build exactly the content the specification functions define.

External effects are parameters:

- The clock (`datetime.now`) is a `Timestamp` argument.
- `uuid.uuid4()` is a `freshId` argument. `CreateOrUpdate` requires it to be unused when a new entry is inserted, which stands for the uniqueness of random UUIDs.

## Model

| member | source | states |
|---|---|---|
| StringOrder.StrLeReflexive | backend/server.py:191 | the date order is reflexive |
| StringOrder.StrLeAntisymmetric | backend/server.py:191 | two dates ordered both ways are equal |
| StringOrder.StrLeTransitive | backend/server.py:191 | the date order is transitive |
| StringOrder.StrLeTotal | backend/server.py:191 | any two dates are comparable, so sorting by date is well defined |
| StringOrder.StrLtIsStrictStrLe | backend/server.py:184-190 | "strictly before" is "before or equal, and different" |
| StringOrder.NatToString | backend/server.py:240 | `str(cnt)` is a non-empty run of decimal digits with no leading zero |
| StringOrder.NatToStringRoundTrip | backend/server.py:240 | the rendered count parses back to the count |
| StringOrder.NatToStringInjective | backend/server.py:240 | different counts render differently |
| MoodConfig.DefaultMoodsWellFormed | backend/server.py:104-112 | the built-in palette has seven moods with distinct values, each with a label and a colour |
| MoodConfig.ActiveMoods | backend/server.py:136-141 | the palette read is the stored list when the record exists and the list is non-empty, the built-in palette otherwise; it is never empty |
| MoodConfig.ReadAfterWrite | backend/server.py:136-151 | reading after a write returns the written list, or the built-in palette when the written list was empty |
| MoodConfig.ConfigStore.Get | backend/server.py:136-141 | returns the active palette of the stored record |
| MoodConfig.ConfigStore.Set | backend/server.py:144-151 | replaces the record wholesale with the given list and time, and echoes the list |
| Entries.FindByDate | backend/server.py:157 | finds the first entry stored for a date, or reports that there is none |
| Entries.FindById | backend/server.py:196 | finds the first entry carrying an id, or reports that there is none |
| Entries.FindByDateUnique | backend/server.py:157 | in a store with one entry per date, the date lookup finds that entry |
| Entries.FindByIdUnique | backend/server.py:196 | with unique ids, the id lookup finds the entry with that id |
| Entries.UpsertExistingDate | backend/server.py:158-169 | an existing date's entry keeps its id, date and creation time, takes the new mood, emoji, note (None included) and update time, and stays in place; the other entries do not change |
| Entries.UpsertNewDate | backend/server.py:170-180 | a new date appends exactly one entry with the fresh id, the submitted fields and `now` as both times, and nothing else changes |
| Entries.UpsertKeepsDatesUnique | backend/server.py:155-180 | an upsert never creates a second entry for a date |
| Entries.UpsertKeepsStoreInvariant | backend/server.py:155-180 | with a fresh id, an upsert keeps one entry per date and one entry per id |
| Entries.RepeatedUpsertsSameDate | backend/server.py:155-180 | after any sequence of submissions for one date there is exactly one entry for it, with the first id and creation time and the last submission's mood, emoji, note and update time |
| Entries.InRange | backend/server.py:184-190 | the date filter is `start <= date` when start is given and `date <= end` when end is given; empty-string bounds count as absent |
| Entries.Filter | backend/server.py:184-191 | keeps every stored entry whose date passes the filter, as often as it is stored, and no other |
| Entries.InsertByDate | backend/server.py:191 | inserting into the date-sorted sequence adds exactly the one entry |
| Entries.InsertByDateSorted | backend/server.py:191 | inserting into a date-sorted sequence keeps it sorted |
| Entries.SortByDate | backend/server.py:191 | sorting by date is a permutation |
| Entries.SortByDateSorted | backend/server.py:191 | sorting by date yields an ascending sequence |
| Entries.ListEntriesCorrect | backend/server.py:183-192 | the listing is ascending by date and holds exactly the stored entries in range, each as often as stored |
| Entries.ListWithoutBounds | backend/server.py:184-191 | with no bounds (or empty-string bounds) every stored entry is listed |
| Entries.ListInvertedRangeIsEmpty | backend/server.py:185-186 | a start after the end lists nothing and is not an error |
| Entries.SortedByDateUnique | backend/server.py:191 | two date-sorted arrangements of the same entries with distinct dates are equal, so the listing does not depend on how ties are broken |
| Entries.DeleteExisting | backend/server.py:195-199 | deleting a stored id succeeds, removes exactly that entry, and leaves no entry with that id |
| Entries.DeleteMissing | backend/server.py:196-198 | deleting an unknown id reports not found and changes nothing |
| Entries.DeleteTwice | backend/server.py:195-199 | a delete succeeds exactly when the id is stored; repeating it reports not found and changes nothing |
| Entries.DeleteKeepsStoreInvariant | backend/server.py:195-199 | deletion keeps one entry per date and one per id |
| Entries.EntryStore.CreateOrUpdate | backend/server.py:155-180 | updates the collection and returns the entry exactly as the upsert function says, keeping one entry per date and per id |
| Entries.EntryStore.List | backend/server.py:183-192 | returns the range listing of the collection, ascending by date |
| Entries.EntryStore.Delete | backend/server.py:195-199 | updates the collection and reports the outcome exactly as the delete function says, keeping the store invariant |
| Frequencies.Occurrences | backend/server.py:234-236 | a value's count is at most the number of values, and positive exactly when the value occurs |
| Frequencies.FirstSeen | backend/server.py:234-236 | the dictionary's keys are distinct and are exactly the counted values |
| Frequencies.FirstSeenFollowsFirstOccurrence | backend/server.py:234-236 | the keys are ordered by where each value first occurs |
| Frequencies.CountsOf | backend/server.py:234-236 | each key is paired with its number of occurrences, in key order |
| Frequencies.OccurrencesSnoc | backend/server.py:235-236 | counting one more value adds one to its count and leaves every other count unchanged |
| Frequencies.FirstSeenSnoc | backend/server.py:235-236 | counting one more value adds it as the last key exactly when it is new |
| Frequencies.TallySum | backend/server.py:234-236 | the counts add up to the number of entries |
| Frequencies.InsertByCount | backend/server.py:239 | insertion adds exactly the one item |
| Frequencies.SortByCountDesc | backend/server.py:239 | the sort by `-count` is a permutation of the items |
| Frequencies.SortByCountDescNonIncreasing | backend/server.py:239 | the sorted items come by non-increasing count |
| Frequencies.SortByCountDescStable | backend/server.py:239 | items with equal counts keep their dictionary order (stable sort) |
| Frequencies.SortByCountDescSum | backend/server.py:239 | sorting keeps the total |
| Frequencies.SortByCountDescDistinct | backend/server.py:239 | sorting keeps each value once |
| Frequencies.SortedTallyCoversValues | backend/server.py:234-240 | every summary item is a counted value with its number of occurrences, and every counted value has an item |
| Frequencies.SortedTallyEmpty | backend/server.py:234-237 | the summary items are empty exactly when there are no entries |
| Frequencies.SortedTallyFacts | backend/server.py:234-240 | the summary items: every value once with its count, total equal to the number of entries, non-increasing counts, ties in first-occurrence order |
| Frequencies.TallyExample | backend/server.py:234-240 | counting a, b, a gives a: 2 then b: 1 |
| Report.LookupMap | backend/server.py:218-219 | a dictionary comprehension over the palette has exactly the configured values as keys |
| Report.LookupMapLastWins | backend/server.py:218-219 | for a value configured more than once, the later mood wins |
| Report.LabelLookup | backend/server.py:219 | a configured value shows as its label; an unconfigured value shows as itself |
| Report.ColorLookup | backend/server.py:218 | a configured mood maps to its colour, or to `#999999` when the colour is missing or empty |
| Report.DefaultLabels | backend/server.py:104-112 | under the built-in palette "happy" shows as Happy and "sad" as Sad |
| Report.NoteCell | backend/server.py:261 | the note cell is a prefix of the note (empty for none) of at most 200 characters: the whole note when it fits, exactly 200 characters otherwise |
| Report.Timeframe | backend/server.py:229 | the line is "All time" exactly when neither bound is given |
| Report.Filename | backend/server.py:275 | the file name starts with `mood_report_` and ends with `.pdf` |
| Report.FilenameDeterminesBounds | backend/server.py:275 | when the start text has no underscore, equal file names mean equal bound texts |
| Report.SummaryAbsentIffNoEntries | backend/server.py:237 | the summary table is omitted exactly when there are no entries |
| Report.SummaryTableFacts | backend/server.py:237-240 | the summary is the header, then one row per distinct mood by descending count, with the label and a count that reads back as the number of entries with that mood |
| Report.DetailTableFacts | backend/server.py:257-261 | the detail table is the header, then one row per entry in order: date, label with raw-value fallback, emoji, note cut to 200 characters |
| Report.SummaryExample | backend/server.py:234-240 | happy, sad, happy gives the summary Happy 2, Sad 1 |
| Report.DefaultPaletteSummaryExample | backend/server.py:217-240 | the same under the built-in palette, in the report itself |
| Report.EmptyReport | backend/server.py:237-258 | with no entries there is no summary and the detail table is the header only |
| Report.CountKnownValue | backend/server.py:236 | `counts[mv] = counts.get(mv, 0) + 1` for a value already present keeps the keys and the per-value counts in step with the scanned entries |
| Report.CountNewValue | backend/server.py:236 | the same for a new value, which becomes the last key with count 1 |
| Report.ItemsOfTally | backend/server.py:234-239 | a dictionary in step with all the entries has the frequency table as its items |
| Report.CountMoods | backend/server.py:234-236 | the counting loop yields the frequency dictionary: keys in first-seen order with their counts |
| Report.SummaryTable | backend/server.py:238-240 | the row-append loop yields the header and one row per sorted item |
| Report.DetailTable | backend/server.py:257-261 | the row-append loop yields the header and one row per entry |
| Report.BuildReport | backend/server.py:217-275 | the export body builds exactly the specified report content for the fetched entries and palette |
| Report.ExportPdf | backend/server.py:203-275 | the export is the report of the range listing of the store under the active palette |

## Left out

- HTTP routing, CORS, logging, the `/` and `/status` endpoints, and `get_default_moods` are not modelled. The last one returns the built-in palette, whose facts `MoodConfig.DefaultMoodsWellFormed` states.
- Persistence is modelled as in-memory values: the settings record as an optional value, the collection as a sequence. `prepare_for_mongo` and `parse_from_mongo` only convert timestamps to and from ISO text, so timestamps are opaque integers here.
- Async execution and the accepted race between concurrent upserts to one date are left out: each operation is atomic in the model.
- Entries.EntryStore.CreateOrUpdate: requires the fresh id to be unused when a new entry is inserted. This stands for the uniqueness of `uuid.uuid4()`, which the model cannot generate.
- Entries.EntryStore.Delete: requires the store invariant (one entry per date and per id). The constructor and both state-changing methods keep that invariant.
- The store refreshes an existing entry by its id. The model refreshes it at the position the date lookup found, which is the same entry when ids are unique.
- Request validation is pydantic type checking only. The code does no calendar-date check on `date`, so the model accepts any date text and has no validation-error path.
- The database sort's order among entries with equal dates is unspecified. The model uses a stable insertion sort. `Entries.SortedByDateUnique` shows the order is fully determined in a store with one entry per date.
- PDF layout and bytes (reportlab styles, headings, spacing, column widths) are not modelled. The report is its text content: title, timeframe, tables as rows of cell strings, and file name.
- The per-row colour `colors.HexColor(color_map.get(mv, '#dddddd'))` (backend/server.py:260) is never placed in the document, but it is evaluated for every entry of the range. Colour parsing belongs to the PDF library and is not part of this model. A configured colour that the library cannot read as a hex or integer colour makes the export fail with a server error. The `Mood` record's own comment (backend/server.py:83) invites such values, for example a Tailwind hint such as `green-500`. `Report.ColorLookup` states the colour map itself, with the `#999999` fallback for configured moods without a colour.
- Report.BuildReport: does not model the failure above. It always returns a report, while the source raises on an entry whose configured mood colour the PDF library cannot parse.
- Report.ExportPdf: does not model that failure either. For such a range it returns the report where the source answers with an HTTP 500 error.
- `e.get('emoji', '')` falls back only for documents without an emoji. Every stored entry has one, so the fallback is not modelled.
- Report.FilenameDeterminesBounds: stated only for start texts without an underscore, because in general `_` in a bound makes two different bound pairs give the same file name.
