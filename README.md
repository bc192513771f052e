# DSpace curation scripts and the e-person search query builder

This project models the core of a DSpace repository's maintenance tooling in
Dafny and proves properties of that model. The core has two parts.

**Python scripts over the `metadatavalue` table.** The table is held in
memory, and an `item` set says which owners are items.

- `delete-metadata-values.py`, `ilri/fix-metadata-values.py` and
  `ilri/move-metadata-values.py` delete, rewrite or move the item values of
  one metadata field whose text matches a line of a CSV or text file.
  - Each value runs in its own transaction.
  - `--dry-run` only counts.
- `ilri/add-orcid-identifiers-csv.py` adds a `cg.creator.id` value to every
  item that has a given author name.
  - It skips an item that already holds a creator value with the same ORCID
    identifier.
  - It draws ids from `metadatavalue_seq`.
- `ilri/doi-to-handle.py` looks DOIs up in the table and writes title and
  handle rows.
- `ilri/resolve-orcids.py` collects ORCID identifiers from a file or from
  Solr and resolves them to names through the ORCID API.
- `ilri/resolve-addresses.py` resolves IP addresses through IPAPI and,
  optionally, AbuseIPDB.

**`EPersonSearchUtil.java`.** This model covers the SQL text and the
parameter array that `findSet` and `search` build: the member filter, the
ORDER BY clause, and paging for Oracle and for other databases.

## Layout

| module | file | role |
|---|---|---|
| `Wrappers` | `wrappers.dfy` | `Option` and `Result` |
| `Text` | `text.dfy` | Python `strip()`, `strip("\n")`, ASCII lower-casing, substring tests |
| `Lists` | `lists.dfy` | map, filter, and order-keeping de-duplication ("append if not present") |
| `Csv` | `csv.dfy` | a `csv.DictReader` table |
| `Decimal` | `decimal.dfy` | Java `int`: wrap-around addition, `append(int)`, `Integer.valueOf` |
| `Orcid` | `orcid.dfy` | the ORCID identifier pattern and `re.search` for it |
| `Reader` | `reader.dfy` | the reader shared by the file-reading scripts: strip, keep valid lines, drop repeats |
| `Store` | `store.dfy` | the table, the scripts' common WHERE clause, and the `MetadataStore` class with one method per SQL statement |
| `DeleteMetadataValues` | `delete_values.dfy` | the delete script |
| `FixMetadataValues` | `fix_values.dfy` | the fix script |
| `MoveMetadataValues` | `move_values.dfy` | the move script |
| `AddOrcidIdentifiers` | `add_orcid.dfy` | the ORCID-adding script |
| `DoiToHandle` | `doi_to_handle.dfy` | DOI to handle |
| `ResolveOrcids` | `resolve_orcids.dfy` | ORCID resolution |
| `ResolveAddresses` | `resolve_addresses.dfy` | IP address resolution |
| `EPersonSearch` | `eperson_search.dfy` | `findSet` and `search` |

**Scripts that change the table.** Each of these has three layers:

- **A `MetadataStore` object.** One method per SQL statement, and each
  method states its new `rows`.
- **A script method with the script's own loop.** Its `ensures` ties the new
  state and the printed notices to a function over the old state.
- **A left-recursive specification function**, processing one CSV row or
  line per step. The lemmas prove properties of this function:
  - dry runs change nothing;
  - the dry-run count is the commit's rowcount;
  - a commit touches only the matching rows;
  - re-running a committed file is a no-op;
  - inserted ids are fresh.

**Scripts that only read.** These follow the same pattern, with the HTTP
services and the file contents as parameters.

## Model

| member | source | states |
|---|---|---|
| Store.Selected | delete-metadata-values.py:130-131 | the dry-run SELECT returns only item rows of the field with exactly the text, drawn from the table, and every such row of the table |
| Store.Unselected | delete-metadata-values.py:143-144 | after the DELETE, exactly the rows the WHERE clause does not select remain |
| Store.Retexted | ilri/fix-metadata-values.py:184-192 | the text UPDATE keeps the table's length and order; selected rows get the new text with id, owner, field, place and confidence kept, and other rows are unchanged |
| Store.Refielded | ilri/move-metadata-values.py:132-140 | the field UPDATE changes only the field of the selected rows and leaves every other row as it was |
| Store.UnselectedRemovesSelected | delete-metadata-values.py:129-146 | the DELETE removes exactly as many rows as the dry-run SELECT with the same WHERE clause returns |
| Store.UnselectedTwice | delete-metadata-values.py:124-153 | deleting one set of values after another is deleting both sets at once |
| Store.SelectedAfterUnselected | delete-metadata-values.py:142-144 | after a value is deleted, the WHERE clause for it selects nothing |
| Store.UnselectedOfAbsent | delete-metadata-values.py:142-144 | a DELETE whose WHERE clause matches nothing leaves the table unchanged |
| Store.SelectedUnselectedPartition | delete-metadata-values.py:129-144 | the dry-run SELECT and the DELETE for one value split the table: each row, with its multiplicity, is either selected or kept |
| Store.RetextedCounts | ilri/fix-metadata-values.py:183-192 | after a text UPDATE between different values, no row selects the old value, and the new value gains exactly the rows that had the old one |
| Store.RefieldedCounts | ilri/move-metadata-values.py:131-140 | after a field UPDATE between different fields, no row selects the old field, and the new field gains exactly the moved rows |
| Store.SelectedOfAppend | ilri/add-orcid-identifiers-csv.py:141-144 | rows appended behind the table that the author query does not select leave its result unchanged |
| Store.RetextedOfAbsent | ilri/fix-metadata-values.py:183-192 | a text UPDATE that matches nothing leaves the table unchanged |
| Store.RefieldedOfAbsent | ilri/move-metadata-values.py:131-140 | a field UPDATE that matches nothing leaves the table unchanged |
| Store.RefieldedToSameField | ilri/move-metadata-values.py:131-140 | moving values into the field they are already in leaves the table unchanged |
| Store.MetadataStore.constructor | delete-metadata-values.py:110-122 | the connected store starts with the given table, items and sequence value |
| Store.MetadataStore.SelectRows | delete-metadata-values.py:130-131 | the dry-run SELECT returns the selected rows and changes nothing |
| Store.MetadataStore.DeleteRows | delete-metadata-values.py:143-144 | the table loses exactly the selected rows; the rowcount is their number |
| Store.MetadataStore.UpdateText | ilri/fix-metadata-values.py:184-192 | the table is rewritten as `Retexted`; the rowcount is the number of selected rows |
| Store.MetadataStore.UpdateField | ilri/move-metadata-values.py:132-140 | the table is rewritten as `Refielded`; the rowcount is the number of selected rows |
| Store.MetadataStore.NextVal | ilri/add-orcid-identifiers-csv.py:225-226 | `nextval` returns the value after the sequence's last one and advances the sequence to it |
| Store.MetadataStore.Insert | ilri/add-orcid-identifiers-csv.py:228-239 | the INSERT puts the new row behind every existing row and changes nothing else |
| Csv.Column | delete-metadata-values.py:124-131 | a column read row by row has one value per CSV row, in order, each being that row's cell |
| Text.StripChars | ilri/move-metadata-values.py:113 | `strip(chars)` keeps no stripped character at either end and never lengthens the string |
| Text.IsSpace | ilri/resolve-addresses.py:63 | the characters `str.strip()` removes: the ASCII whitespace, the four separators U+001C to U+001F, and the Unicode spaces and line separators |
| Text.Strip | ilri/resolve-addresses.py:63 | `strip()` is `StripChars` with the `IsSpace` characters, so it has that function's contract: no whitespace left at either end, never longer than the input |
| Text.StripNewlines | ilri/move-metadata-values.py:113 | `strip("\n")` never lengthens the line and leaves no newline at either end |
| Text.StripCharsIsInfix | ilri/move-metadata-values.py:113 | the stripped line is one contiguous piece of the input, and every character around it is a stripped character |
| Text.StripCharsKeepsTrimmed | ilri/move-metadata-values.py:110-113 | `strip` leaves a string that has no stripped character at its ends unchanged |
| Text.StripCharsIdempotent | ilri/doi-to-handle.py:49 | stripping twice is stripping once |
| Text.StripNewlinesKeepsSpaces | ilri/move-metadata-values.py:110-113 | `strip("\n")` leaves a line without newlines intact, spaces included |
| Text.StripOfLeadingSpace | ilri/resolve-orcids.py:193-203 | `strip()` removes the space that `line + " " + family` puts in front of a family name used alone |
| Text.StripNewlinesOfLine | ilri/move-metadata-values.py:109-113 | a file line read with its final newline strips back to the line's own text |
| Text.Lower | dspace/modules/additions/src/main/java/org/dspace/eperson/EPersonSearchUtil.java:162 | lower-casing keeps the length and maps each character on its own |
| Text.ContainsIgnoringCaseReflexive | ilri/doi-to-handle.py:84-91 | a case-insensitive containment test always finds a string inside itself |
| Lists.Dedup | ilri/doi-to-handle.py:47-53 | "append if not already present" yields no duplicates and only input elements, and keeps every input element |
| Lists.DedupKeepsFirstOccurrenceOrder | ilri/doi-to-handle.py:47-53 | collected elements appear in the order of their first occurrence in the input |
| Lists.DedupOfDistinct | ilri/resolve-orcids.py:92-94 | an input without repeats is collected unchanged |
| Lists.DedupIdempotent | ilri/resolve-orcids.py:92-94 | collecting an already-collected list changes nothing |
| Lists.DedupSnoc | ilri/resolve-orcids.py:93-94 | one loop step appends the element exactly when it is new |
| Lists.Filter | ilri/resolve-addresses.py:65-67 | skipping the lines that fail a test keeps only input elements that pass it, and every input element that passes |
| Lists.FilterMultiplicity | ilri/resolve-addresses.py:65-67 | the kept elements are exactly the passing ones, each as often as in the input |
| Decimal.AddInt32 | dspace/modules/additions/src/main/java/org/dspace/eperson/EPersonSearchUtil.java:81 | Java's `int` addition returns a 32-bit value; it equals the sum when the sum fits and differs from it by a multiple of 2^32 otherwise |
| Decimal.NatToDecimal | dspace/modules/additions/src/main/java/org/dspace/eperson/EPersonSearchUtil.java:37 | the decimal text of a natural number is non-empty, all digits, and has no leading zero |
| Decimal.IntToDecimal | dspace/modules/additions/src/main/java/org/dspace/eperson/EPersonSearchUtil.java:37 | `append(Integer)` writes a minus sign exactly for negative values and digits otherwise |
| Decimal.ParseInt | dspace/modules/additions/src/main/java/org/dspace/eperson/EPersonSearchUtil.java:243-247 | `Integer.valueOf` on the empty string or a lone sign, or with a non-digit after the optional sign, fails; digits alone, or after `+`, give their value when it is at most 2147483647; after `-` they give the negated value when it is at most 2147483648; otherwise it fails |
| Decimal.ParseIntOfDecimal | dspace/modules/additions/src/main/java/org/dspace/eperson/EPersonSearchUtil.java:243-247 | round trip: parsing the decimal text of any `int` gives it back |
| Orcid.FindOrcidFrom | ilri/add-orcid-identifiers-csv.py:157-160 | the scan finds the first identifier-shaped position at or after `i`, or reports none exists |
| Orcid.IsOrcid | ilri/add-orcid-identifiers-csv.py:157-159 | the pattern `[A-Z0-9]{4}-[A-Z0-9]{4}-[A-Z0-9]{4}-[A-Z0-9]{4}`: 19 characters, hyphens at positions 4, 9 and 14 and capital letters or digits elsewhere |
| Orcid.SearchOrcid | ilri/add-orcid-identifiers-csv.py:157-176 | `re.search(...).group(0)` is the leftmost identifier-shaped piece of the text, and there is none exactly when nothing matches |
| Orcid.SearchOrcidOfCreator | ilri/add-orcid-identifiers-csv.py:155-176 | from a creator text `"<name>: <id>"` with no identifier in the name, the search extracts `id` |
| Orcid.SearchOrcidOfOrcid | ilri/add-orcid-identifiers-csv.py:157-160 | an identifier on its own is found whole |
| Reader.ReadKeptLines | ilri/resolve-addresses.py:61-71 | the reading loop yields the stripped valid lines, de-duplicated in first-occurrence order |
| Reader.KeptLines | ilri/resolve-addresses.py:61-71 | the collected lines: every line stripped, invalid lines skipped, the rest de-duplicated in first-occurrence order |
| Reader.KeptLinesAreValidAndDistinct | ilri/resolve-addresses.py:61-71 | each collected line is valid, comes from the file and is collected once; every valid line is collected, in first-occurrence order |
| DeleteMetadataValues.DeleteValue | delete-metadata-values.py:128-153 | one CSV value: a dry run keeps the table, a commit deletes the matches; a notice appears exactly when not quiet and something matches, and it carries the match count |
| DeleteMetadataValues.DeleteValues | delete-metadata-values.py:124-153 | the CSV values in order, each deleted from the table the previous ones left, with their notices concatenated |
| DeleteMetadataValues.DryRunCountIsCommitRowcount | delete-metadata-values.py:129-153 | on the same table, the dry run's reported count equals the number of rows the commit deletes |
| DeleteMetadataValues.DryRunChangesNothing | delete-metadata-values.py:129-140 | a dry run over any CSV leaves the table unchanged |
| DeleteMetadataValues.CommitDeletesExactlyTheMatches | delete-metadata-values.py:124-153 | a commit over the whole CSV removes exactly the item rows of the field whose text is one of the CSV values; other rows stay, in order |
| DeleteMetadataValues.NoMatchesNoEffect | delete-metadata-values.py:124-153 | when no CSV value matches, the run changes nothing and prints nothing |
| DeleteMetadataValues.RerunIsNoOp | delete-metadata-values.py:124-153 | running a committed CSV again, dry or not, deletes nothing and prints nothing |
| DeleteMetadataValues.DeleteMetadataValues | delete-metadata-values.py:97-153 | a missing column is reported before the table is touched; otherwise the loop's final table and notices are those of the specification over the column |
| FixMetadataValues.FixValue | ilri/fix-metadata-values.py:140-201 | one correction: a skipped correction keeps the table, a commit rewrites the matches, and a count notice appears exactly when not quiet and something matches |
| FixMetadataValues.Skipped | ilri/fix-metadata-values.py:141-165 | a correction is skipped when its replacement equals the value or contains `\|` |
| FixMetadataValues.FixValues | ilri/fix-metadata-values.py:140-201 | the corrections in CSV order, each applied to the table the previous ones left, with their notices concatenated |
| FixMetadataValues.SkippedCorrectionChangesNothing | ilri/fix-metadata-values.py:141-165 | an identical replacement, or one containing `\|`, never changes the table and prints only its skip notice |
| FixMetadataValues.CommitRewritesOnlyTheMatches | ilri/fix-metadata-values.py:183-192 | a commit sets the text of exactly the selected rows, keeps all their other columns, and keeps all other rows |
| FixMetadataValues.CommitThenRerun | ilri/fix-metadata-values.py:183-201 | after a commit, the old value is gone; the replacement gained exactly the rewritten rows; running the correction again changes nothing and prints nothing |
| FixMetadataValues.DryRunCountIsCommitRowcount | ilri/fix-metadata-values.py:171-201 | the dry run reports the same count as the commit on the same table |
| FixMetadataValues.DryRunChangesNothing | ilri/fix-metadata-values.py:171-182 | a dry run over any corrections leaves the table unchanged |
| FixMetadataValues.Corrections | ilri/fix-metadata-values.py:140-141 | one correction per CSV row, holding that row's two cells |
| FixMetadataValues.FixMetadataValues | ilri/fix-metadata-values.py:104-201 | either missing column is reported, in the script's order, before the table is touched; otherwise the loop's final table and notices are those of the specification |
| MoveMetadataValues.MatchValueKeepsSpaces | ilri/move-metadata-values.py:110-113 | the match value is the stored value with all its spaces, whether or not the line still has its newline |
| MoveMetadataValues.MoveText | ilri/move-metadata-values.py:115-147 | one value: a dry run keeps the table, a commit moves the matches to the new field; a notice appears exactly when not quiet and something matches, and it carries the match count |
| MoveMetadataValues.MoveValue | ilri/move-metadata-values.py:109-147 | one line: the value matched is the line with only its newlines stripped; a commit moves those matches and a dry run keeps the table |
| MoveMetadataValues.MoveValues | ilri/move-metadata-values.py:109-147 | the lines in order, each moved in the table the previous ones left, with their notices concatenated |
| MoveMetadataValues.CommitMovesOnlyTheMatches | ilri/move-metadata-values.py:131-140 | a commit changes only the field of the selected rows; every other column and row stays |
| MoveMetadataValues.CommitThenRerun | ilri/move-metadata-values.py:131-147 | between different fields, no matching row is left in the old field; the new field gains exactly the moved rows; running the line again changes nothing and prints nothing |
| MoveMetadataValues.DryRunCountIsCommitRowcount | ilri/move-metadata-values.py:119-147 | the dry run reports the same count as the commit on the same table |
| MoveMetadataValues.DryRunChangesNothing | ilri/move-metadata-values.py:119-130 | a dry run over any file leaves the table unchanged |
| MoveMetadataValues.MoveLine | ilri/move-metadata-values.py:115-147 | one line's transaction leaves the table and notices of the one-value specification |
| MoveMetadataValues.MoveMetadataValues | ilri/move-metadata-values.py:109-147 | the loop over the file's lines leaves the table and notices of the specification |
| AddOrcidIdentifiers.Records | ilri/add-orcid-identifiers-csv.py:179-182 | one `(owner, place)` record per author row, in query order |
| AddOrcidIdentifiers.Entries | ilri/add-orcid-identifiers-csv.py:125-155 | one entry per CSV row, holding the row's author and creator cells |
| AddOrcidIdentifiers.Asserts | ilri/add-orcid-identifiers-csv.py:192-207 | the existence check's WHERE clause: an item value of the owner in the creator field, containing the identifier, with confidence -1 |
| AddOrcidIdentifiers.AddToRecord | ilri/add-orcid-identifiers-csv.py:192-239 | an asserted record changes and prints nothing; otherwise exactly one notice with the creator text and the owner; a dry run keeps the state; a commit draws the next id and appends exactly one creator value with confidence -1 at the record's place |
| AddOrcidIdentifiers.AddToRecords | ilri/add-orcid-identifiers-csv.py:179-248 | the records in query order, each checked against the table the previous ones left |
| AddOrcidIdentifiers.AddEntry | ilri/add-orcid-identifiers-csv.py:135-248 | a CSV row whose stripped creator text holds no identifier, or whose author has no item value, changes and prints nothing |
| AddOrcidIdentifiers.AddEntries | ilri/add-orcid-identifiers-csv.py:124-248 | the CSV rows in order, each against the state the previous ones left |
| AddOrcidIdentifiers.WouldAddNotices | ilri/add-orcid-identifiers-csv.py:192-216 | the dry-run notices: one `WouldAdd` with the creator text for each record whose item lacks the identifier, and none for any other |
| AddOrcidIdentifiers.DryRunNotices | ilri/add-orcid-identifiers-csv.py:209-216 | a dry run over an author's records keeps the state and prints exactly those notices, in record order |
| AddOrcidIdentifiers.AddToRecordsKeepsDistinct | ilri/add-orcid-identifiers-csv.py:192-239 | the values an author's records add leave no item with two new values naming the same identifier |
| AddOrcidIdentifiers.AddEntriesKeepsDistinct | ilri/add-orcid-identifiers-csv.py:124-248 | the same over any sequence of CSV rows |
| AddOrcidIdentifiers.CommitAddsOnePerItemAndIdentifier | ilri/add-orcid-identifiers-csv.py:124-248 | across a whole committed CSV, two new values of the same item name different identifiers |
| AddOrcidIdentifiers.AddFromCsv | ilri/add-orcid-identifiers-csv.py:122-248 | the run fails exactly when there is a row and a column is missing, with the author column checked first; a CSV without rows changes nothing |
| AddOrcidIdentifiers.ExtendsKeepsIdsUnique | ilri/add-orcid-identifiers-csv.py:224-239 | rows inserted with sequence ids keep ids unique and no larger than the sequence |
| AddOrcidIdentifiers.AddToRecordsExtends | ilri/add-orcid-identifiers-csv.py:179-248 | one author's records only append creator values with confidence -1 and consecutive fresh ids, each with the creator text and a record's owner and place; a dry run changes nothing, and a commit prints one notice per insert |
| AddOrcidIdentifiers.HasAssertionOfExtension | ilri/add-orcid-identifiers-csv.py:192-207 | appending rows never undoes an existence check that succeeded |
| AddOrcidIdentifiers.CommitAssertsEveryRecord | ilri/add-orcid-identifiers-csv.py:179-239 | after a commit, every item found for the author holds a creator value with the identifier |
| AddOrcidIdentifiers.CommitAddsOnePerItem | ilri/add-orcid-identifiers-csv.py:190-239 | an item named at several places under the author still gets only one new creator value per CSV row |
| AddOrcidIdentifiers.AssertedRecordsAreSkipped | ilri/add-orcid-identifiers-csv.py:240-248 | records whose items already hold the identifier add and print nothing |
| AddOrcidIdentifiers.AddEntryExtends | ilri/add-orcid-identifiers-csv.py:135-248 | one CSV row only appends creator values, and in a dry run changes nothing |
| AddOrcidIdentifiers.DryRunChangesNothing | ilri/add-orcid-identifiers-csv.py:209-216 | a dry run over any CSV leaves the table and the sequence unchanged |
| AddOrcidIdentifiers.CommitDrawsFreshIds | ilri/add-orcid-identifiers-csv.py:224-239 | a run only appends, draws one id per insert, and keeps ids unique |
| AddOrcidIdentifiers.SettledEntryIsSkipped | ilri/add-orcid-identifiers-csv.py:190-248 | a CSV row whose items all hold its identifier changes and prints nothing |
| AddOrcidIdentifiers.SelectedOfExtension | ilri/add-orcid-identifiers-csv.py:141-144 | creator values inserted outside the author field leave the author query's result unchanged |
| AddOrcidIdentifiers.SettledPersists | ilri/add-orcid-identifiers-csv.py:190-207 | inserting creator values keeps a settled row settled |
| AddOrcidIdentifiers.CommitSettlesEntry | ilri/add-orcid-identifiers-csv.py:179-239 | committing a CSV row settles it |
| AddOrcidIdentifiers.AllSettledMeansEach | ilri/add-orcid-identifiers-csv.py:124-248 | the recursive "all rows settled" predicate means each row is settled |
| AddOrcidIdentifiers.AllSettledPersists | ilri/add-orcid-identifiers-csv.py:190-207 | inserting creator values keeps every settled row settled |
| AddOrcidIdentifiers.CommitSettlesAll | ilri/add-orcid-identifiers-csv.py:124-248 | after a commit, every CSV row is settled |
| AddOrcidIdentifiers.SettledEntriesAreSkipped | ilri/add-orcid-identifiers-csv.py:124-248 | a CSV whose rows are all settled changes and prints nothing |
| AddOrcidIdentifiers.RerunIsNoOp | ilri/add-orcid-identifiers-csv.py:124-248 | running a committed CSV again adds nothing and prints nothing, when the creator field is not the author field |
| AddOrcidIdentifiers.ProcessRecord | ilri/add-orcid-identifiers-csv.py:192-248 | one record's existence check, notice, `nextval` and INSERT leave the state of the one-record specification |
| AddOrcidIdentifiers.ProcessRecords | ilri/add-orcid-identifiers-csv.py:179-248 | the loop over an author's records leaves the state of the specification |
| AddOrcidIdentifiers.ProcessEntry | ilri/add-orcid-identifiers-csv.py:135-248 | one CSV row's transaction leaves the state of the one-row specification |
| AddOrcidIdentifiers.ProcessEntries | ilri/add-orcid-identifiers-csv.py:124-248 | the loop over the CSV rows leaves the state of the specification |
| AddOrcidIdentifiers.AddOrcidIdentifiers | ilri/add-orcid-identifiers-csv.py:121-248 | the script ends in the state and notices of `AddFromCsv`; on a missing column nothing changes |
| DoiToHandle.ReadDoisFromFile | ilri/doi-to-handle.py:45-53 | the reading loop yields the stripped lines, de-duplicated |
| DoiToHandle.ReadDois | ilri/doi-to-handle.py:45-53 | the DOI list: every line stripped, then de-duplicated in first-occurrence order |
| DoiToHandle.DoisAreDistinctStrippedLines | ilri/doi-to-handle.py:47-53 | every stripped line is read once and nothing else is, in first-occurrence order |
| DoiToHandle.MatchesDoi | ilri/doi-to-handle.py:84-91 | the DOI query's WHERE clause: a value in field 220 whose text contains the DOI, ignoring case |
| DoiToHandle.DoiMatches | ilri/doi-to-handle.py:84-91 | the DOI query returns only rows of field 220 containing the DOI (case-insensitively), and all of them |
| DoiToHandle.FirstText | ilri/doi-to-handle.py:103-110 | `fetchone()` gives the text of the first row with the field and owner, and nothing exactly when no such row exists |
| DoiToHandle.Classify | ilri/doi-to-handle.py:93-101 | the rowcount branches: no match, one match with its owner, or several |
| DoiToHandle.Messages | ilri/doi-to-handle.py:77-101 | two progress lines per DOI; under `--quiet` the second one always reads "Not found" |
| DoiToHandle.OutputRow | ilri/doi-to-handle.py:112-116 | the CSV row has exactly the three header columns, holding its arguments |
| DoiToHandle.LookUp | ilri/doi-to-handle.py:84-116 | a DOI without exactly one matching value gives an empty title and handle; a unique match gives the first title (field 64) and handle (field 25) of its owner, and fails, naming the owner and the missing field, exactly when one of them is absent; every row has the three columns and its own DOI |
| DoiToHandle.Step | ilri/doi-to-handle.py:79-118 | one DOI adds its two progress lines, then its row, or the error that stops the run |
| DoiToHandle.Resolved | ilri/doi-to-handle.py:76-118 | the DOIs in order; after the first error, later DOIs add nothing |
| DoiToHandle.ResolvedStops | ilri/doi-to-handle.py:103-110 | after the first failed title or handle fetch, the remaining DOIs add nothing |
| DoiToHandle.ResolvedStep | ilri/doi-to-handle.py:76-118 | each further DOI appends its row, records its error, or finds the run already stopped |
| DoiToHandle.RowsAreLookUps | ilri/doi-to-handle.py:76-118 | every written row is the lookup of its own DOI; the run stops exactly at the first DOI whose lookup fails |
| DoiToHandle.QuietWritesTheSameRows | ilri/doi-to-handle.py:95-101 | in the model, `--quiet` changes neither the CSV nor where the run stops |
| DoiToHandle.TwoNoticesPerDoi | ilri/doi-to-handle.py:77-101 | two progress lines are printed for each DOI looked up |
| DoiToHandle.ResolveDoi | ilri/doi-to-handle.py:77-116 | one DOI's queries give the specified progress lines and lookup result |
| DoiToHandle.ResolveNext | ilri/doi-to-handle.py:79-118 | one loop pass is one specification step |
| DoiToHandle.ResolveDois | ilri/doi-to-handle.py:61-118 | the loop over the DOIs produces the output of `Resolved` |
| DoiToHandle.AsWritten | ilri/doi-to-handle.py:76-118 | as written, a run writes at most one row per DOI |
| DoiToHandle.AsWrittenStep | ilri/doi-to-handle.py:95-116 | as written, one DOI rebinds the owner only for a unique match with `--quiet` off, and always reads title and handle from whatever owner is bound |
| DoiToHandle.SampleLookUps | ilri/doi-to-handle.py:84-110 | the queries on the sample table: one DOI is found and the other is not |
| DoiToHandle.AsWrittenFirstDoi | ilri/doi-to-handle.py:95-106 | as written, the first sample DOI binds item 7, except under `--quiet`, where it crashes on the unbound variable |
| DoiToHandle.AsWrittenSecondDoi | ilri/doi-to-handle.py:95-106 | as written, the second DOI, which nothing contains, is given item 7's title and handle |
| DoiToHandle.StaleOwnerCounterexample | ilri/doi-to-handle.py:95-106 | as written, the sample run writes a wrong row for the second DOI and, under `--quiet`, stops at the first DOI |
| DoiToHandle.SampleRows | ilri/doi-to-handle.py:84-116 | the lookups of the two sample DOIs |
| DoiToHandle.CorrectedSampleRows | ilri/doi-to-handle.py:76-118 | on the sample input, the model writes the found row and then an empty row for the unknown DOI |
| DoiToHandle.FirstSampleRun | ilri/doi-to-handle.py:76-118 | on the first sample DOI alone, the model writes item 7's row and does not stop |
| ResolveOrcids.ReadIdentifiersFromFile | ilri/resolve-orcids.py:43-60 | the reading loop yields the stripped lines that are exactly one identifier, de-duplicated |
| ResolveOrcids.FileIdentifiersAreValidAndDistinct | ilri/resolve-orcids.py:47-60 | every identifier read is valid and read once, and no identifier line is missed |
| ResolveOrcids.ReadIdentifiersFromSolr | ilri/resolve-orcids.py:86-99 | the documents' identifiers, de-duplicated; under `--extract-only`, each one written as a line |
| ResolveOrcids.SolrIdentifiers | ilri/resolve-orcids.py:92-94 | the documents' identifiers, each once, in first-occurrence order |
| ResolveOrcids.MapAddNewlineKeepsDistinct | ilri/resolve-orcids.py:96-99 | distinct identifiers give distinct output lines |
| ResolveOrcids.ExtractOnlyCoversDocuments | ilri/resolve-orcids.py:92-99 | every document's identifier has its line in the extract-only file |
| ResolveOrcids.ExtractOnlyLinesAreDocuments | ilri/resolve-orcids.py:96-99 | each extract-only line is a document's identifier followed by a newline |
| ResolveOrcids.ExtractOnlyWritesEachIdentifierOnce | ilri/resolve-orcids.py:92-111 | the extract-only file holds each document identifier exactly once, and nothing else |
| ResolveOrcids.DisplayName | ilri/resolve-orcids.py:164-200 | a non-blank credit name wins; otherwise the name is the usable given names, then `" "` and the family name if that is usable |
| ResolveOrcids.ComposeLine | ilri/resolve-orcids.py:201-211 | no line exactly when the name is empty; otherwise the stripped name, `": "` and the identifier |
| ResolveOrcids.ComposeLineCases | ilri/resolve-orcids.py:164-211 | a line is written exactly when there is a credit name, a usable family name or non-empty given names, and it ends in `": "` and the identifier |
| ResolveOrcids.ComposedLineYieldsIdentifier | ilri/resolve-orcids.py:201-203 | a written line, read back as a creator text by the ORCID-adding script, yields its identifier |
| ResolveOrcids.ResolveOne | ilri/resolve-orcids.py:152-253 | one identifier's request with the stripped identifier and the status branches: 200 composes the name, 404 and 409 skip, any other status fails |
| ResolveOrcids.ResolveOneOutcome | ilri/resolve-orcids.py:152-253 | one identifier fails exactly when its status is not 200, 404 or 409, and then carries that status; 404 and 409 give no line; 200 with a name gives the composed line |
| ResolveOrcids.AllToleratedMeansEach | ilri/resolve-orcids.py:144-253 | the one-at-a-time "every status is 200, 404 or 409" predicate means each identifier's status is one of them |
| ResolveOrcids.NoFailureIffAllTolerated | ilri/resolve-orcids.py:231-253 | the run ends without failure exactly when every identifier gets 200, 404 or 409 |
| ResolveOrcids.FirstRejectedIndex | ilri/resolve-orcids.py:249-253 | a failed run names an identifier with a status other than 200, 404 and 409, all of whose predecessors got one of them, and reports its status |
| ResolveOrcids.Step | ilri/resolve-orcids.py:213-253 | a failure records its status; a line goes to the file with a newline, and to the screen unless quiet; no line adds nothing |
| ResolveOrcids.Resolved | ilri/resolve-orcids.py:144-253 | the identifiers in order; after the first failure, later identifiers add nothing |
| ResolveOrcids.FailsAtFirstRejectedStatus | ilri/resolve-orcids.py:231-253 | the run fails exactly when some identifier gets a status other than 200, 404 and 409, and it reports the status of the first such identifier |
| ResolveOrcids.SkippedStatusAddsNothing | ilri/resolve-orcids.py:231-248 | one more identifier answered 404 or 409 leaves the whole output unchanged |
| ResolveOrcids.ResolvedStops | ilri/resolve-orcids.py:249-253 | after a failed request the remaining identifiers add nothing |
| ResolveOrcids.ResolvedStopsAt | ilri/resolve-orcids.py:249-253 | a run that fails at position `n` is the run over the first `n` identifiers |
| ResolveOrcids.ScreenMirrorsFile | ilri/resolve-orcids.py:213-218 | the screen shows exactly the file's lines without newlines, or nothing under `--quiet`; at most one line per identifier |
| ResolveOrcids.QuietWritesTheSameFile | ilri/resolve-orcids.py:213-218 | `--quiet` changes neither the file nor where the run stops |
| ResolveOrcids.ComposedLineNamesIdentifier | ilri/resolve-orcids.py:203-218 | a written file line ends with `": "`, the identifier and a newline |
| ResolveOrcids.WrittenLineNamesIdentifier | ilri/resolve-orcids.py:144-218 | each identifier appends at most one line to the file, ending with that identifier |
| ResolveOrcids.ResolveIdentifier | ilri/resolve-orcids.py:152-253 | one identifier's request, status branches and name composition give the specified outcome |
| ResolveOrcids.ResolveNext | ilri/resolve-orcids.py:144-253 | one loop pass is one specification step |
| ResolveOrcids.ResolveOrcidIdentifiers | ilri/resolve-orcids.py:119-256 | the loop over the identifiers produces the output of `Resolved` |
| ResolveOrcids.FamilyOnlyLine | ilri/resolve-orcids.py:187-203 | a record with only a family name composes `"<family>: <id>"` |
| ResolveOrcids.AsWrittenCompose | ilri/resolve-orcids.py:164-211 | as written, the name composition reads the `line` variable the previous identifier left, and crashes when it was never bound |
| ResolveOrcids.AsWritten | ilri/resolve-orcids.py:144-253 | as written, the identifiers in order, with `line` carried from one to the next and the run ending at a crash or a failed request |
| ResolveOrcids.UnboundLineCounterexample | ilri/resolve-orcids.py:164-203 | as written, a first record with only a family name crashes on the unbound `line`; the model writes its line |
| ResolveAddresses.ReadAddressesFromFile | ilri/resolve-addresses.py:56-76 | the reading loop yields the stripped valid addresses, de-duplicated |
| ResolveAddresses.FieldNamesShape | ilri/resolve-addresses.py:81-84 | the header starts with the four IPAPI columns, has the score column exactly when a key is given, and repeats no column |
| ResolveAddresses.FieldNames | ilri/resolve-addresses.py:81-84 | the header: address, organisation, ASN and country, then the score column when a non-empty key is given |
| ResolveAddresses.BaseRow | ilri/resolve-addresses.py:112-124 | the row of a 200 IPAPI answer: the address and the answer's three members |
| ResolveAddresses.Lookup | ilri/resolve-addresses.py:100-152 | one address: a non-200 IPAPI answer gives no row; with a key, a 200 AbuseIPDB answer adds the score column and its progress line |
| ResolveAddresses.LookupRow | ilri/resolve-addresses.py:100-152 | a row exists exactly for a 200 answer and holds the address and the answer's members; it has the score exactly when a key is given and AbuseIPDB answers 200, and the text of a 32-bit score reads back as the score; no column lies outside the header |
| ResolveAddresses.LookupWithoutKey | ilri/resolve-addresses.py:126-127 | without a key, only IPAPI is asked and no score column is written |
| ResolveAddresses.ResolvedStops | ilri/resolve-addresses.py:154-157 | after the exit on a failed request, the remaining addresses add nothing |
| ResolveAddresses.Step | ilri/resolve-addresses.py:100-157 | one address adds its progress lines, then its row or the failure that ends the run |
| ResolveAddresses.Resolved | ilri/resolve-addresses.py:100-157 | the addresses in order; after the first failed request, later addresses add nothing |
| ResolveAddresses.RowsAreLookups | ilri/resolve-addresses.py:100-157 | the rows are the lookups of the addresses before the first failed request, in order; the run fails exactly when a request fails |
| ResolveAddresses.RowsFitHeaderAndAreDistinct | ilri/resolve-addresses.py:86-152 | each row fits the header, and distinct addresses give rows with distinct `ip` cells |
| ResolveAddresses.NoKeyNoAbuseLookups | ilri/resolve-addresses.py:100-127 | without a key, every progress line is an IPAPI lookup |
| ResolveAddresses.ResolveAddress | ilri/resolve-addresses.py:101-152 | one address's requests give the specified notices and row |
| ResolveAddresses.ResolveNext | ilri/resolve-addresses.py:100-157 | one loop pass is one specification step |
| ResolveAddresses.ResolveAddressList | ilri/resolve-addresses.py:79-157 | the header and the loop over the addresses produce the output of `Resolved` |
| EPersonSearch.SelectAllPlaceholders | dspace/modules/additions/src/main/java/org/dspace/eperson/EPersonSearchUtil.java:29 | the `findSet` head has no placeholder |
| EPersonSearch.ListFragmentPlaceholders | dspace/modules/additions/src/main/java/org/dspace/eperson/EPersonSearchUtil.java:34-40 | the IN-list delimiters have no placeholder |
| EPersonSearch.SearchHeadPlaceholders | dspace/modules/additions/src/main/java/org/dspace/eperson/EPersonSearchUtil.java:164 | the `search` head has the one identifier placeholder |
| EPersonSearch.NameMatchPlaceholders | dspace/modules/additions/src/main/java/org/dspace/eperson/EPersonSearchUtil.java:167 | the name match has three placeholders, one per compared column |
| EPersonSearch.RowNumPlaceholders | dspace/modules/additions/src/main/java/org/dspace/eperson/EPersonSearchUtil.java:72-78 | the row-number wrapper has no placeholder; the row-number bound has one |
| EPersonSearch.OffsetWrapPlaceholders | dspace/modules/additions/src/main/java/org/dspace/eperson/EPersonSearchUtil.java:87-88 | the offset wrapper has no placeholder; the offset bound has one |
| EPersonSearch.ClausePlaceholders | dspace/modules/additions/src/main/java/org/dspace/eperson/EPersonSearchUtil.java:91-96 | `LIMIT ?` and `OFFSET ?` have one placeholder each |
| EPersonSearch.SortColumn | dspace/modules/additions/src/main/java/org/dspace/eperson/EPersonSearchUtil.java:45-63 | the sort switch: identifier, email, language and netid have their own column; every other code sorts by last name |
| EPersonSearch.OrderBy | dspace/modules/additions/src/main/java/org/dspace/eperson/EPersonSearchUtil.java:64-65 | the ORDER BY clause: the sort column, then the direction as given |
| EPersonSearch.SortColumnMapping | dspace/modules/additions/src/main/java/org/dspace/eperson/EPersonSearchUtil.java:45-63 | the five sort codes select five columns, and any other code sorts by last name; no column name has a placeholder |
| EPersonSearch.OrderByPlaceholders | dspace/modules/additions/src/main/java/org/dspace/eperson/EPersonSearchUtil.java:64-65 | the ORDER BY clause adds no placeholder beyond any in the direction |
| EPersonSearch.InList | dspace/modules/additions/src/main/java/org/dspace/eperson/EPersonSearchUtil.java:35-39 | the subset's identifiers in decimal, separated by commas, in iteration order |
| EPersonSearch.InListSplits | dspace/modules/additions/src/main/java/org/dspace/eperson/EPersonSearchUtil.java:35-39 | split at commas, the IN list gives back each identifier's decimal, in order, with no empty trailing piece |
| EPersonSearch.InListRoundTrip | dspace/modules/additions/src/main/java/org/dspace/eperson/EPersonSearchUtil.java:35-39 | parsing the IN list's pieces gives back the subset's identifiers |
| EPersonSearch.InListPlaceholders | dspace/modules/additions/src/main/java/org/dspace/eperson/EPersonSearchUtil.java:35-39 | the IN list adds no placeholder |
| EPersonSearch.AppendInList | dspace/modules/additions/src/main/java/org/dspace/eperson/EPersonSearchUtil.java:35-39 | the iterator loop appends exactly the IN list |
| EPersonSearch.Paged | dspace/modules/additions/src/main/java/org/dspace/eperson/EPersonSearchUtil.java:68-98 | on Oracle, row-number subqueries around the body, bounded by the limit and the offset when positive; elsewhere `LIMIT ?` and `OFFSET ?`, each only when positive |
| EPersonSearch.PageParams | dspace/modules/additions/src/main/java/org/dspace/eperson/EPersonSearchUtil.java:76-111 | the limit, then the offset, each only when positive; on Oracle with both, the row limit is `limit + offset` |
| EPersonSearch.PagedPlaceholders | dspace/modules/additions/src/main/java/org/dspace/eperson/EPersonSearchUtil.java:68-98 | paging adds exactly one placeholder per paging parameter, on Oracle and elsewhere |
| EPersonSearch.PageParamsOrder | dspace/modules/additions/src/main/java/org/dspace/eperson/EPersonSearchUtil.java:103-111 | one parameter each for a positive limit and a positive offset, the limit first, as `limit + offset` on Oracle when both are given |
| EPersonSearch.PagedKeepsBody | dspace/modules/additions/src/main/java/org/dspace/eperson/EPersonSearchUtil.java:68-98 | the query body survives paging intact; off Oracle it is a prefix |
| EPersonSearch.Paginate | dspace/modules/additions/src/main/java/org/dspace/eperson/EPersonSearchUtil.java:68-98 | the paging branch builds the paged text and the row limit |
| EPersonSearch.ParamArray | dspace/modules/additions/src/main/java/org/dspace/eperson/EPersonSearchUtil.java:103-111 | the array holds the row limit and the offset, or one of them, or nothing, by which of limit and offset are positive |
| EPersonSearch.FindSetPlan | dspace/modules/additions/src/main/java/org/dspace/eperson/EPersonSearchUtil.java:25-111 | an empty subset returns no rows without a query; otherwise the paged head and ORDER BY with the paging parameters |
| EPersonSearch.FindSet | dspace/modules/additions/src/main/java/org/dspace/eperson/EPersonSearchUtil.java:25-111 | `findSet` builds the specified plan |
| EPersonSearch.FindSetHeadPlaceholders | dspace/modules/additions/src/main/java/org/dspace/eperson/EPersonSearchUtil.java:28-41 | the `findSet` text before ORDER BY has no placeholder |
| EPersonSearch.FindSetPlaceholders | dspace/modules/additions/src/main/java/org/dspace/eperson/EPersonSearchUtil.java:28-111 | `findSet` returns the empty result exactly for a non-null empty subset, and otherwise a query with one placeholder per parameter, when the sort direction holds no `?` |
| EPersonSearch.FindSetSelectsSubset | dspace/modules/additions/src/main/java/org/dspace/eperson/EPersonSearchUtil.java:30-41 | with a subset, the query contains the IN filter over exactly the subset's identifiers, in iteration order |
| EPersonSearch.LikePattern | dspace/modules/additions/src/main/java/org/dspace/eperson/EPersonSearchUtil.java:162 | the LIKE pattern is the lower-cased query between two `%` |
| EPersonSearch.IdParam | dspace/modules/additions/src/main/java/org/dspace/eperson/EPersonSearchUtil.java:241-247 | the identifier parameter is the parsed query, or -1 when parsing fails |
| EPersonSearch.IdParamOfDecimal | dspace/modules/additions/src/main/java/org/dspace/eperson/EPersonSearchUtil.java:241-247 | a query that is an identifier's decimal looks up that identifier; a query that is not a number looks up -1 |
| EPersonSearch.SearchParams | dspace/modules/additions/src/main/java/org/dspace/eperson/EPersonSearchUtil.java:241-250 | the identifier parameter, then the LIKE pattern three times |
| EPersonSearch.SearchPlan | dspace/modules/additions/src/main/java/org/dspace/eperson/EPersonSearchUtil.java:159-257 | an empty subset returns no rows without a query; otherwise the paged name match and ORDER BY, with the search parameters before the paging parameters |
| EPersonSearch.Search | dspace/modules/additions/src/main/java/org/dspace/eperson/EPersonSearchUtil.java:159-257 | `search` builds the specified plan |
| EPersonSearch.SearchHeadPlaceholders4 | dspace/modules/additions/src/main/java/org/dspace/eperson/EPersonSearchUtil.java:164-179 | the `search` text before ORDER BY has four placeholders, with or without a subset |
| EPersonSearch.SearchPlaceholders | dspace/modules/additions/src/main/java/org/dspace/eperson/EPersonSearchUtil.java:159-257 | `search` returns the empty result exactly for a non-null empty subset; otherwise the parameters are the identifier, the pattern three times and the paging parameters, with one placeholder per parameter, when the sort direction holds no `?` |
| EPersonSearch.AsWrittenAgreesWithoutOverflow | dspace/modules/additions/src/main/java/org/dspace/eperson/EPersonSearchUtil.java:76-111 | when `limit + offset` fits in an `int`, the code as written builds the intended parameters |
| EPersonSearch.AsWrittenPageParams | dspace/modules/additions/src/main/java/org/dspace/eperson/EPersonSearchUtil.java:76-111 | as written, `limit += offset` wraps in 32 bits and the updated limit then chooses the parameter array |
| EPersonSearch.OverflowCounterexample | dspace/modules/additions/src/main/java/org/dspace/eperson/EPersonSearchUtil.java:76-111 | on Oracle with `limit = 2147483647` and `offset = 1`, the query has two paging placeholders but the array as written holds one parameter |

## Left out

- Database connections, transactions, cursors and SQL execution are not modelled as such. The table is the `MetadataStore` object. Each `with conn:` block is one call of a method that changes it, and each block commits.
- Every HTTP service is a function parameter: Solr, the ORCID API, IPAPI and AbuseIPDB. So are the file contents (a sequence of lines) and `ipaddress.ip_address` (the parameter `valid`). The response caches (`requests_cache`) have no effect on results and are left out.
- Standard error output is not modelled: `--debug` messages, "Connected to database.", the error text before `exit(1)`. The fix script's skip messages are kept as notices, because they are the only thing those branches do. SIGINT handlers and the closing of files are not modelled either.
- `EPersonSearchUtil` does not run the query. The result arrays, the e-person cache, and the count query built by stripping the paging text (lines 113-146 and 259-291) are not part of this model.
- `EPerson.java` is not part of this model. Its sort-code constants are taken as DSpace's values: `EMAIL` 1, `LASTNAME` 2, `ID` 3, `NETID` 4, `LANGUAGE` 5.
- `EPersonSearch.Search`: a `null` query, which fails when lower-cased at line 162, cannot be expressed, because the query is a `string`.
- `EPersonSearch.LikePattern`: Java's `toLowerCase()` is modelled on ASCII letters only. `Text.Lower` is the same.
- `Decimal.ParseInt`: `Integer.valueOf` also accepts non-ASCII Unicode digits. The model accepts ASCII digits only.
- `EPersonSearch.FindSet`: `limit` and `offset` are unbounded integers. The intended row limit `limit + offset` is not truncated to 32 bits. The 32-bit behaviour as written is `AsWrittenPageParams`, listed under Findings.
- The subset `HashSet<Integer>` is its iteration order, given as a sequence. `null` is `None`. The hash order itself is not modelled.
- `DoiToHandle.MatchesDoi`: the `~* '.*doi.*'` regular expression is read as case-insensitive containment (ASCII folding). Regular-expression characters in a DOI, such as `.`, are matched literally, so the model matches fewer rows than PostgreSQL would. The DOI query is not restricted to items, as in the source.
- `AddOrcidIdentifiers.Asserts`: the source passes the one-element row `fetchall()[0]` as `metadata_field_id` (line 188). The model uses the field id it holds. The creator field is a parameter rather than the result of the registry query at line 186.
- `AddOrcidIdentifiers.Asserts`: `LIKE '%' \|\| id \|\| '%'` is read as containment. An identifier has no `%` or `_`.
- `AddOrcidIdentifiers.AddToRecord`: the INSERT at line 228 lists six columns but seven `%s`, and passes six values. It is modelled as the evidently intended six-column insert.
- `AddOrcidIdentifiers.AddFromCsv`: the guard `len(...) >= 0` at line 146 always holds, so it is not a branch.
- The debug-only `"Found N items"` count and the registry lookup are not modelled.
- `ResolveAddresses.Lookup`: the `org`, `asn` and `country` members are taken as strings. A JSON `null` or a missing member (a `KeyError`) is not modelled. The same holds for a missing `data.abuseConfidenceScore`.
- `ResolveOrcids.ResolveOne`: a 200 answer whose `name` element lacks `credit-name`, `given-names` or `family-name` (a `KeyError` or `TypeError` in the script) is not modelled. `null` sub-elements are.

## Findings

| source | as written | input that shows it | evidently intended | confidence | as-written member | corrected member |
|---|---|---|---|---|---|---|
| ilri/doi-to-handle.py:95-106 | `dspace_object_id` is assigned only for a unique match with `--quiet` off. Yet the title and handle are always fetched with it. A DOI without a unique match reuses the previous DOI's item, or raises `NameError` when it is the first. | Item 7 holds DOI `10.1/a`, title `A` and handle `10568/1`. The input is `10.1/a` then `10.22/bb`. Without `--quiet`, the second DOI gets item 7's title and handle. With `--quiet`, the first DOI crashes. | Each DOI is classified on its own. A DOI without a unique match gets an empty title and handle, whatever `--quiet` says. | not executed | DoiToHandle.StaleOwnerCounterexample | DoiToHandle.CorrectedSampleRows |
| ilri/resolve-orcids.py:164-203 | `line` is assigned only from a credit name or the given names. `line + " " + family` then reads a variable that is unbound on the first identifier (`NameError`), or `None` after a written line (`TypeError`). | The ORCID API answers 200 with only a family name (`Orth`) for the first identifier. | The family name alone gives the line `"Orth: <id>"`. | not executed | ResolveOrcids.UnboundLineCounterexample | ResolveOrcids.ComposeLineCases |
| dspace/modules/additions/src/main/java/org/dspace/eperson/EPersonSearchUtil.java:76-111 | On Oracle, `limit += offset` wraps around in 32-bit arithmetic. The parameter array is then chosen by the wrapped `limit`. | Oracle, `limit = 2147483647`, `offset = 1`. The query has `rownum<=?` and `rnum>?`, but the array holds only the offset. | The array holds the row limit and the offset whenever both were positive, one parameter per placeholder. | not executed | EPersonSearch.OverflowCounterexample | EPersonSearch.PagedPlaceholders |
