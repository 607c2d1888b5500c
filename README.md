# route-compare, modelled in Dafny

route-compare reads two snapshots of a router's routing table (the XML
reply of `show route`, taken before and after a change). From each
snapshot it extracts one flat record per route entry. It is meant to
report the records of the pre snapshot that have no match in the post
snapshot, and the records of the post snapshot that have no match in the
pre snapshot. As written, `main` computes pre minus post for both tables
(see Findings).

The model has seven modules:

- `RouteData` (`routedata.dfy`): the decoded reply document, holding only the
  elements the program reads. It also defines the flat `RtDestination` record.
- `Slices` (`slices.dfy`): `contains` and `isSameSlice`, as pure functions
  with their meaning stated as contracts.
- `Sequences` (`sequences.dfy`): a generic `FlatMap` and lemmas about it. The
  extraction specification and the difference are both stated with it.
- `Extractor` (`extractor.dfy`): `getRtDestinationEntries` as a method.
  - Its loops are kept as loops: over tables (with the routing-instance
    filter), over rts, over rt-entries, and over next hops.
  - It is proved equal to the recursive specification `DestinationEntries`.
  - Lemmas about that specification state the filter rule, the
    one-record-per-rt-entry count, document order and list alignment.
- `Differ` (`differ.dfy`): the scan in `createTable` as the method `OnlyIn`.
  - It keeps the found flag and the early exit.
  - It is proved equal to the specification `Unmatched`.
  - Lemmas about `Unmatched` state which entries are kept, the order they
    keep, and its boundary cases.
  - The module also compares two snapshots both ways, in two versions. One
    is as `main` calls it, the other is corrected (see Findings).
- `Whitespace` (`whitespace.dfy`): the pre-pass that removes double spaces,
  then newlines, from the raw snapshot text before it is decoded.
- `Scenarios` (`scenarios.dfy`): three end-to-end comparisons of small
  snapshots.

Two behaviours of the code worth knowing:

- One record is produced per rt-entry, not per rt. A destination with two
  rt-entries gives two records.
- The table name is carried in each record but is not compared. Two records
  that differ only in their table name match.

## Model

| member | source | states |
|---|---|---|
| Slices.Contains | routecompare.go:123-130 | the result is true exactly when `e` occurs in `s` |
| Slices.IsSameSlice | routecompare.go:142-152 | the result is true exactly when the two slices are equal: same length and equal element by element. It is therefore reflexive and symmetric |
| Extractor.NhColumns | routecompare.go:94-101 | the loop over the next hops of one rt-entry builds the `to`, `via` and `nh-local-interface` lists of that entry's next hops |
| Extractor.AppendRtEntries | routecompare.go:93-109 | the loop over the rt-entries of one rt appends, for each rt-entry, one record: the rt's destination, the table name and the entry's three next-hop lists |
| Extractor.GetRtDestinationEntries | routecompare.go:85-113 | the extracted list is exactly `DestinationEntries(reply, filter)`: the records of every retained table, in document order. A table is retained when the filter contains "ALL" or the table's name |
| Extractor.ColumnsAligned | routecompare.go:97-101 | the three next-hop lists have one element per next hop. Element i of each is the corresponding field of next hop i |
| Extractor.EntryRecordShape | routecompare.go:102-108 | a record copies the rt's destination and the table name, and its three lists are aligned with the entry's next hops |
| Extractor.RtRecordsAt | routecompare.go:93-109 | an rt yields exactly one record per rt-entry, in order. Record k is built from rt-entry k |
| Extractor.RecordsAppend | routecompare.go:87-111 | the records of a concatenation of table lists are the records of the first list followed by those of the second |
| Extractor.TableAt | routecompare.go:87-111 | in the extracted list, table i's records lie between the records of the tables before it and those after it. They are all of its records if the table is retained, and none otherwise |
| Extractor.RecordsLength | routecompare.go:87-111 | the number of records is the total number of rt-entries over the retained tables |
| Extractor.RecordsMembership | routecompare.go:87-111 | a record is extracted exactly when it is the record of some rt-entry of some rt of some retained table |
| Extractor.ExtractedRecordsWellFormed | routecompare.go:85-113 | every extracted record names a retained table, and its three next-hop lists have equal length |
| Extractor.FilterExtensional | routecompare.go:89-91 | two filters that retain the same tables extract the same records |
| Extractor.NothingRetained | routecompare.go:89-91 | when no table is retained, nothing is extracted |
| Differ.Matches | routecompare.go:179 | two records match exactly when they are equal apart from the table name |
| Differ.OnlyIn | routecompare.go:176-189 | the scan with its found flag and early exit keeps exactly `Unmatched(first, second)`: the entries of `first` with no match in `second`, in order |
| Differ.UnmatchedMembership | routecompare.go:176-189 | an entry is kept exactly when it occurs in the first list and no entry of the second list matches it |
| Differ.UnmatchedSubsequence | routecompare.go:176-189 | the kept entries form a subsequence of the first list, in their original order |
| Differ.UnmatchedSelf | routecompare.go:176-189 | comparing a list with itself keeps nothing |
| Differ.UnmatchedBoundaries | routecompare.go:176-189 | against an empty second list every entry is kept; an empty first list keeps nothing |
| Differ.UnmatchedIgnoresTableNames | routecompare.go:179 | renaming the tables of the second list does not change the result |
| Differ.CreateTablesAsWritten | routecompare.go:290-296 | as written, both tables are computed from (pre, post): both are pre minus post |
| Differ.AsWrittenMissesPostOnlyRoute | routecompare.go:294-296 | with no pre entries and one post entry e, pre minus post is empty, while post minus pre is [e]. So the as-written post table misses e |
| Differ.CreateTables | routecompare.go:196-198 | the corrected comparison: the pre table is pre minus post, and the post table is post minus pre |
| Differ.CreateTablesDisjoint | routecompare.go:176-198 | the corrected pre and post tables never hold the same entry, and an entry present in both snapshots is in neither table |
| Whitespace.RemoveCharIsDrop | routecompare.go:64 | removing a one-character pattern deletes exactly the occurrences of that character and keeps the rest in order |
| Whitespace.RemoveAll | routecompare.go:63-64 | its own contract only bounds the length (the result is never longer). Its meaning is stated by `RemoveCharIsDrop` for the newline, and by `RunOfSpaces` with `KeepsLeadingNonSpace` for the double space |
| Whitespace.RunOfSpaces | routecompare.go:63 | removing double spaces turns a run of k spaces (ended by a non-space or the end of the text) into k % 2 spaces and continues after the run. So a lone space survives, and an odd run leaves one space |
| Whitespace.StripWhitespace | routecompare.go:63-64 | the pre-pass is the double-space removal followed by deleting exactly the newlines, so no newline remains |
| Whitespace.NoDoubleSpaceAfterRemoval | routecompare.go:63 | after double spaces are removed, no two spaces are adjacent |
| Whitespace.RemovalKeepsNonSpaces | routecompare.go:63 | removing double spaces deletes only spaces: every other character survives, in order |
| Whitespace.StripKeepsContent | routecompare.go:63-64 | the pre-pass deletes only spaces and newlines: ignoring both, the text is unchanged |
| Whitespace.StripCanJoinSpaces | routecompare.go:63-64 | because newlines are removed second, the pre-pass can leave two adjacent spaces (" \n " becomes "  ") |
| Scenarios.SnapshotRecords | routecompare.go:85-113 | a snapshot with one table, one rt and one rt-entry yields exactly that entry's record under the filter "ALL" |
| Scenarios.ScenarioIdentical | routecompare.go:176-189 | the scenario snapshot (table "inet.0", 10.0.0.0/24 via one next hop) compared with itself reports nothing on either side |
| Scenarios.ScenarioAddedNextHop | routecompare.go:176-189 | when a next hop is added in post, the pre record and the post record are each reported on their own side |
| Scenarios.ScenarioMissingTable | routecompare.go:87-91 | a table missing from post is reported only on the pre side under "ALL". A filter naming neither table reports nothing |

## Left out

- Reading the snapshot files and decoding the XML (`parseXMLFile`) are not
  modelled. The model starts from the decoded document. A document that
  does not decode is an error reported before extraction, and that error
  path is not modelled.
- Elements the program decodes but never reads are not part of the data
  model: protocol name, preference, age, selected next hop, nh-type and
  character data. An absent `to`, `via` or `nh-local-interface` decodes to
  the empty string, which is how the model represents it.
- A nil slice and an empty slice are not distinguished. The program's
  comparison treats them as equal too, because it compares by length first.
- Command-line flags, output files and table rendering (`tablewriter`) are
  not modelled. `OnlyIn` returns the rows that `createTable` appends.
- Concurrency is not modelled. The goroutines that parse the two files and
  compute the two tables, and the channels joining them, are left out. So is
  the possibility that the two parse results are received in either order,
  which can swap pre and post. So is the wait on a channel that never
  receives when a parse fails.
- Whitespace.RemoveAll: modelled as a function on strings. It stands for the
  standard library replacement called with an empty replacement and no
  count limit. The library itself is not part of this model. The library
  works on bytes and the model on characters. For the two ASCII patterns
  the program uses, two spaces and a newline, the results are the same.
- Extractor.GetRtDestinationEntries: the two innermost loops are in the
  helper methods `NhColumns` and `AppendRtEntries`, one per source loop, so
  that each loop is verified on its own. The order of appends is unchanged.

## Findings

| source | as written | input that shows it | evidently intended | confidence | as-written member | corrected member |
|---|---|---|---|---|---|---|
| routecompare.go:294-296 | the POST table is computed with the arguments (pre, post), the same as the PRE table. So it lists pre entries missing from post | pre empty and post holding one record e. The POST table is empty although e is not in pre | the POST table is computed from (post, pre), matching its banner "Entries not found in the Pre Routing Table Output" (line 197) | high; not executed | Differ.AsWrittenMissesPostOnlyRoute | Differ.CreateTables |
