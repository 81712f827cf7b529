# EspoCRM CSV import, modelled in Dafny

This project models the CSV import service of EspoCRM,
`application/Espo/Services/Import.php`, and proves properties of it. The model has five parts.

- **Row tokenizer.** `readCsvString` reads one row from the front of a text buffer and hands back the rest of the buffer. It honours the configured separator and quote character. Module `Csv` holds the character state machine as a method with loop invariants, plus the function that specifies it. Module `CsvLaws` holds what is proved about it: how much it consumes, how quoting behaves, and the shape of the row it returns.
- **Value coercion and name parsing.**
  - `parseValue` and `prepareAttributeValue` are in module `Coerce`. That includes the date and time format tables, the decimal-mark handling, the bool, int and json-array readings and the varchar truncation.
  - `parsePersonName` is in module `PersonNames`, for the formats `f l`, `l f`, `l, f`, `f m l` and `l f m`.
  - Module `PhpStrings` gives the PHP string functions these rely on: `trim`, `strpos`, `explode`/`implode`, `str_replace`, `strtolower`, `intval` and `empty()`.
- **Row import.** `importRow` turns one tokenized row into a created or updated record. Module `ImportRows` holds it as a specification function `ImportRowSpec` and as a method `ImportRow` that follows the PHP loop by loop. Module `ImportRowLaws` proves when it gives up and which flags it reports. It also proves what the column loop and the currency backfill may write.
  - The record is a value: an id, a map from attribute to value, and the email and phone lists.
  - The repository lookups, the ACL edit check, the duplicate check and the save are fields of a `Store` passed in.
  - The entity's metadata is a `Schema` value.
- **Run driver.** `import` and `importById` are in module `ImportRun`.
  - `ImportRecord` is a class whose `status` and `lastIndex` the methods update in place. It also keeps a ghost field `checkpoints`, the history of saved `lastIndex` values, so that their order can be stated; the Import entity has no such field.
  - `Import` resolves the delimiter and quote, drops forbidden columns, checks the file, and opens or resumes the Import record. It then either returns early (manual or idle mode) or runs the row loop.
  - The loop is `RunRows`. It is proved equal to the fold `RunOver` over the rows the tokenizer returns. `RunLog` proves the fold's invariant `Inv`, under the model's reading that an exception comes before any effect of its row (so no save of the Import or of an ImportEntity row throws):
    - the saved `lastIndex` values strictly increase;
    - each one has its ImportEntity row;
    - every logged row belongs to this import;
    - no row is both imported and updated;
    - the created count is the number of imported rows.
- **Outcome log.** `revert`, `removeDuplicates` and `unmarkAsDuplicate` are in module `ImportLog`.
  - They act on a `Database` class that holds the ImportEntity rows, a record table and the set of existing imports, as they stand when the operation is called. A record in the table is `Active` or `SoftDeleted`; it is absent once deleted from the database. The run driver only appends ImportEntity rows to it (see "## Left out").
  - The removal loop is proved against the fold `RemoveFirst`.
  - `RemoveOutcome` states the result record by record.

Behaviours of the code a reader may not expect, which the model follows:

- A run that throws mid-loop is set to `Failed` and then, unconditionally, to `Complete`, so `Import` always ends in `Complete` (Import.php:632, 635).
- A blank line in the file ends the import loop, because the tokenizer returns `[]` for it and the `while` condition treats that as the end (Import.php:583). The same holds for a line of separators only.
- A save that throws inside `importRow` is caught there. `importRow` then returns an empty object, which is truthy. So the loop still advances `lastIndex` and logs an ImportEntity row with no id and no flags (Import.php:955-959, 600-628).
- `idleMode` is unset only for a new import in manual mode. A resumed import with `idleMode` set goes to the job again with status `In Process` (Import.php:516-570).

## Model

| member | source | states |
|---|---|---|
| Csv.Scan | application/Espo/Services/Import.php:170-210 | the characters left unread are a suffix of the input, and a non-empty input loses at least one character |
| Csv.ReadRow | application/Espo/Services/Import.php:160-222 | the buffer handed back is a proper suffix of a non-empty buffer (the reader always makes progress) |
| Csv.ReadCsvString | application/Espo/Services/Import.php:160-222 | the character loop and the padding loop return exactly the row and rest buffer ReadRow specifies |
| Csv.Consume | application/Espo/Services/Import.php:171-208 | one character outside the break branch updates fields, column, esc and escesc as Step specifies |
| Csv.PadMissing | application/Espo/Services/Import.php:213-219 | the padding loop yields the written fields plus "" at every lower unwritten index |
| CsvLaws.ScanStopsAtFirstBreak | application/Espo/Services/Import.php:170-178 | reading stops right after the first line break met outside quotes, with the state reached before it, or consumes everything when there is none |
| CsvLaws.ReadRowStopsAtFirstBreak | application/Espo/Services/Import.php:164-211 | the new buffer is the input minus the prefix ending at the first unquoted line break, or is empty (an unterminated quote runs to the end) |
| CsvLaws.ScanValid | application/Espo/Services/Import.php:179-208 | written column indices are increasing, none beyond the current column, and no written field is empty |
| CsvLaws.PadKeys | application/Espo/Services/Import.php:213-219 | padding up to the highest written key gives exactly the keys 0..last and keeps the last field |
| CsvLaws.ReadRowShape | application/Espo/Services/Import.php:213-221 | every row has keys exactly 0..count-1 and its last field is non-empty (trailing empty fields are dropped) |
| CsvLaws.SingleFieldRowIsNotBlank | application/Espo/Services/Import.php:213-221 | a one-field row never holds "", so the loop's lone-empty-cell skip only fires for "0" |
| CsvLaws.BlankLine | application/Espo/Services/Import.php:172-178 | a line break at the front yields the empty row and consumes only that character |
| CsvLaws.SeparatorsOnly | application/Espo/Services/Import.php:179-186 | a line of separators only yields the empty row and consumes the line |
| CsvLaws.SpecialInsideQuotes | application/Espo/Services/Import.php:172-186 | inside quotes a separator or line break is appended to the current field |
| CsvLaws.DoubledQuote | application/Espo/Services/Import.php:187-198 | inside a quoted field a doubled quote contributes exactly one quote character |
| CsvLaws.ScanDoubled | application/Espo/Services/Import.php:187-198 | a value with every quote doubled is read back as the value itself inside quotes |
| CsvLaws.QuotedField | application/Espo/Services/Import.php:187-198 | a quoted field with doubled quotes is read back as the original value |
| CsvLaws.ReadQuotedRow | application/Espo/Services/Import.php:170-221 | a line of quoted, escaped fields joined by the separator reads back as those fields with trailing empty ones dropped, leaving the next line |
| PhpStrings.ImplodeExplode | application/Espo/Services/Import.php:1124 | exploding on a non-empty delimiter and imploding with it gives the input back |
| PhpStrings.ExplodeOnce | application/Espo/Services/Import.php:1096-1100 | text with exactly one delimiter explodes into the two sides |
| PhpStrings.IntValOfIntToString | application/Espo/Services/Import.php:1104-1105 | intval of a decimal integer's text is that integer |
| Coerce.FormatFor | application/Espo/Services/Import.php:1062-1074 | the chosen format is the fallback or one of the table's formats |
| Coerce.KnownFormat | application/Espo/Services/Import.php:1062-1067 | a known format key selects its own table entry |
| Coerce.UnknownFormat | application/Espo/Services/Import.php:1062-1074 | a missing or unknown format key falls back ('Y-m-d' for dates, 'H:i' for times) |
| Coerce.TablesHaveNoEmptyEntries | application/Espo/Services/Import.php:56-74 | no key or format in the date and time tables is PHP-empty, so every key in them is honoured |
| Coerce.DecimalMark | application/Espo/Services/Import.php:1057-1060 | the decimal mark is never empty ('.' by default) |
| Coerce.StripNumber | application/Espo/Services/Import.php:1097 | the integer part keeps only letters, digits and '-' and never grows |
| Coerce.StripNumberKeeps | application/Espo/Services/Import.php:1097 | text of letters, digits and '-' passes the strip unchanged |
| Coerce.FloatTextOneMark | application/Espo/Services/Import.php:1096-1100 | with one decimal mark, the number text is the stripped integer part, '.', and the fraction |
| Coerce.ThousandsGrouping | application/Espo/Services/Import.php:1096-1100 | with decimal mark ',' the text "1.234,56" is read as "1234.56" |
| Coerce.BoolIgnoresCase | application/Espo/Services/Import.php:1107-1111 | the bool reading does not depend on letter case |
| Coerce.FalseSpellings | application/Espo/Services/Import.php:1107-1111 | a cell reads as false exactly when it is '', '0' or any casing of 'false' |
| Coerce.JsonArrayValue | application/Espo/Services/Import.php:1117-1126 | a json-array cell is null exactly when it is empty |
| Coerce.JsonArrayPieces | application/Espo/Services/Import.php:1123-1125 | a cell not starting with '[' becomes comma-free pieces that rejoin with ',' to the cell |
| Coerce.PrepareAttributeValue | application/Espo/Services/Import.php:962-973 | the result is a prefix of the value; it is cut only for a varchar with a len, and then to exactly len |
| Coerce.PrepareIdempotent | application/Espo/Services/Import.php:962-973 | preparing a prepared value changes nothing |
| Coerce.ParseValue | application/Espo/Services/Import.php:1055-1132 | text results come exactly from varchar and untyped attributes and equal the prepared value; bool attributes always get a boolean |
| PersonNames.SplitAt | application/Espo/Services/Import.php:983-989 | both halves of a split are trimmed |
| PersonNames.FormatOf | application/Espo/Services/Import.php:982-1052 | each of the five format labels selects its own case and nothing else does |
| PersonNames.ParseAs | application/Espo/Services/Import.php:975-1053 | a middle name comes only with a first name; without a first name the whole value is the last name; all parts are trimmed |
| PersonNames.ParsePersonName | application/Espo/Services/Import.php:1049-1052 | an unknown or null format gives no first name and the whole value as last name |
| PersonNames.FirstMiddleLastFallsBack | application/Espo/Services/Import.php:1005-1025 | 'f m l' without a middle name is the 'f l' result |
| PersonNames.LastFirstMiddleFallsBack | application/Espo/Services/Import.php:1027-1047 | 'l f m' without a middle name is the 'l f' result |
| PersonNames.LeadingSpaceIsNotSplit | application/Espo/Services/Import.php:983-996 | a separator at position 0 is not a split point, so a value starting with a space is all last name |
| PersonNames.SplitJoined | application/Espo/Services/Import.php:985-988 | splitting trimmed a, separator, trimmed b at the separator gives a and b |
| PersonNames.FirstLastRoundTrip | application/Espo/Services/Import.php:983-989 | 'f l' parses "first last" back into its parts |
| PersonNames.LastFirstRoundTrip | application/Espo/Services/Import.php:990-996 | 'l f' parses "last first" back into its parts |
| PersonNames.LastCommaFirstRoundTrip | application/Espo/Services/Import.php:997-1003 | 'l, f' parses "last, first" back into its parts |
| PersonNames.FirstMiddleLastRoundTrip | application/Espo/Services/Import.php:1005-1025 | 'f m l' parses "first middle last" back into its three parts |
| PersonNames.LastFirstMiddleRoundTrip | application/Espo/Services/Import.php:1027-1047 | 'l f m' parses "last first middle" back into its three parts |
| ImportRows.MappedCount | application/Espo/Services/Import.php:655-657 | the attribute list is empty exactly when every column was removed |
| ImportRows.LookupCount | application/Espo/Services/Import.php:659-670 | no update-by attribute is found exactly when no updateBy index names a remaining column |
| ImportRows.LookupWhere | application/Espo/Services/Import.php:659-670 | every attribute in the where clause is an update-by column, with that column's cell |
| ImportRows.PhoneFieldNames | application/Espo/Services/Import.php:712-724 | one typed phone column per phone type, in order |
| ImportRows.UpdateByLoop | application/Espo/Services/Import.php:659-670 | the updateBy loop builds the count and where clause LookupOf specifies |
| ImportRows.ValueMapLoop | application/Espo/Services/Import.php:726-735 | the value-map loop builds ValueMapOf |
| ImportRows.ColumnsLoop | application/Espo/Services/Import.php:737-868 | the column loop applies every column in order (ApplyFirst over all columns) |
| ImportRows.CurrencyLoop | application/Espo/Services/Import.php:870-883 | the currency loop backfills every currency field in order |
| ImportRows.PrepareRecord | application/Espo/Services/Import.php:703-883 | defaults, columns and currency backfill give the record Prepared specifies |
| ImportRows.Save | application/Espo/Services/Import.php:927-957 | the result object is Outcome: id and flags on a successful save, empty on a failed one |
| ImportRows.ImportRow | application/Espo/Services/Import.php:646-960 | importRow returns what ImportRowSpec specifies |
| ImportRowLaws.SkippedExactly | application/Espo/Services/Import.php:655-699 | null exactly for: no columns; an update action with no update-by column, or a found record the user may not edit, or nothing found in update-only mode |
| ImportRowLaws.OutcomeFlags | application/Espo/Services/Import.php:944-953 | never both imported and updated; duplicate only with imported; an id exactly when one of them is set |
| ImportRowLaws.UpdateNeverCreates | application/Espo/Services/Import.php:674-699 | action 'update' never reports an imported or duplicate row |
| ImportRowLaws.CreateNeverUpdates | application/Espo/Services/Import.php:651-699 | a create action never reports an updated row |
| ImportRowLaws.DuplicateOnlyWhenChecked | application/Espo/Services/Import.php:927-953 | a saved row is a duplicate exactly when it is new, checking is on and the check matched |
| ImportRowLaws.ColumnsKeepId | application/Espo/Services/Import.php:745-750 | unless the action is literally 'create' the columns never change the id |
| ImportRowLaws.BackfillKeepsId | application/Espo/Services/Import.php:870-883 | the currency backfill never changes the id |
| ImportRowLaws.IdOnlyForLiteralCreate | application/Espo/Services/Import.php:745-750 | unless the action is literally 'create' the prepared record keeps its target's id |
| ImportRowLaws.IdColumnSetsId | application/Espo/Services/Import.php:745-750 | with action 'create' the last present id column sets the id |
| ImportRowLaws.SetIfUnsetKeepsTruthy | application/Espo/Services/Import.php:787-805 | a name part never overwrites a truthy attribute |
| ImportRowLaws.PersonNameFillsOnlyUnset | application/Espo/Services/Import.php:781-807 | a person-name column never overwrites a truthy attribute |
| ImportRowLaws.PersonNameFillsLastName | application/Espo/Services/Import.php:781-807 | an unset last-name part receives the parsed last name, prepared for its attribute |
| ImportRowLaws.EmptyCellChangesNothing | application/Espo/Services/Import.php:810-815 | an empty cell of a non-bool, non-id column changes nothing |
| ImportRowLaws.EmptyBoolCellIsFalse | application/Espo/Services/Import.php:810-817 | an empty cell of a bool column sets it to false |
| ImportRowLaws.ContactListsGrow | application/Espo/Services/Import.php:757-865 | the columns only append to the email and phone lists |
| ImportRowLaws.BackfillKeepsTruthy | application/Espo/Services/Import.php:870-883 | the backfill never overwrites a truthy value and never removes an attribute |
| ImportRowLaws.BackfillFills | application/Espo/Services/Import.php:870-883 | after the backfill every set currency field has a truthy currency or the backfill currency |
| ImportLog.RemoveOutcome | application/Espo/Services/Import.php:254-285 | per record: an active record named by a selected row is deleted (purge) or soft-deleted; every other record is unchanged |
| ImportLog.FirstMatch | application/Espo/Services/Import.php:1136-1143 | the index found names a row of this import, type and id; none is found exactly when no row matches |
| ImportLog.Database.constructor | application/Espo/Services/Import.php:224-241 | the database holds the given records, repositories, ImportEntity rows and imports |
| ImportLog.Database.RemoveSelected | application/Espo/Services/Import.php:254-285 | the loop leaves the records RemoveFirst specifies and changes nothing else |
| ImportLog.Database.Revert | application/Espo/Services/Import.php:224-292 | not found or forbidden changes nothing; otherwise imported rows' records are removed, purged exactly when the import is under 172800 seconds old, and the import is removed |
| ImportLog.Database.RemoveDuplicates | application/Espo/Services/Import.php:294-343 | not found or forbidden changes nothing; otherwise duplicate rows' records are always purged and the import is kept |
| ImportLog.Database.UnmarkAsDuplicate | application/Espo/Services/Import.php:1134-1151 | the first matching row loses its duplicate flag; with no match it fails with nothing changed |
| ImportLog.UnmarkedRowIsSpared | application/Espo/Services/Import.php:1134-1151 | an unmarked row is no longer selected by removeDuplicates |
| ImportLog.RevertSparesOthers | application/Espo/Services/Import.php:235-241 | revert leaves alone a record no imported row of this import names |
| ImportRun.Enclosure | application/Espo/Services/Import.php:467-470 | the quote is never empty and defaults to '"' |
| ImportRun.NoEscape | application/Espo/Services/Import.php:472 | a delimiter without a backslash passes the tab replacement unchanged |
| ImportRun.DelimiterChoice | application/Espo/Services/Import.php:463-472 | the delimiter defaults to ',', a literal \t becomes a tab, and a value without a backslash is kept |
| ImportRun.WithoutForbidden | application/Espo/Services/Import.php:478-485 | same length; forbidden columns are unset in place and every other column keeps its index |
| ImportRun.RemoveForbidden | application/Espo/Services/Import.php:478-485 | the unset loop yields WithoutForbidden |
| ImportRun.InitialStatus | application/Espo/Services/Import.php:516-532 | a new import starts Standby exactly in manual mode, Pending exactly in idle non-manual mode, else In Process |
| ImportRun.StoredParams | application/Espo/Services/Import.php:523-530 | the stored params drop idleMode exactly in manual mode and are otherwise the given ones |
| ImportRun.NormalisedUnixText | application/Espo/Services/Import.php:581 | text without carriage returns is read as it is |
| ImportRun.ImportRowIsConsistent | application/Espo/Services/Import.php:946-953 | no row result is both imported and updated |
| ImportRun.RunCountsRows | application/Espo/Services/Import.php:583-584 | the row index grows by one per non-empty row read, and by the full count when nothing throws |
| ImportRun.BlankLineEndsRun | application/Espo/Services/Import.php:583 | text starting with a blank line yields no rows |
| ImportRun.SkippedRowChangesNothing | application/Espo/Services/Import.php:586-601 | a header, lone-empty-cell, already-imported or null-result row only advances the index |
| ImportRun.TallyInv | application/Espo/Services/Import.php:603-628 | saving lastIndex and logging a row result keeps the run invariant |
| ImportRun.RowStepInv | application/Espo/Services/Import.php:584-628 | each row keeps the run invariant |
| ImportRun.RunInv | application/Espo/Services/Import.php:583-629 | the whole loop keeps the run invariant |
| ImportRun.RunLog | application/Espo/Services/Import.php:583-629 | from the start of a run: saved lastIndex values strictly increase and are importable, lastIndex is the last of them, each has one logged row of this import, and the created count counts the imported rows, when no save of the Import or of an ImportEntity row throws |
| ImportRun.ImportRecord.constructor | application/Espo/Services/Import.php:516-531 | a new Import holds its id, type, file, status, params and columns, and no lastIndex |
| ImportRun.AdmitRow | application/Espo/Services/Import.php:584-598 | the checks before anything is saved: only the row index and the failed flag change, and tallying the returned result is exactly RowStep |
| ImportRun.LogIfDone | application/Espo/Services/Import.php:600-628 | a null result changes nothing; any other is tallied on the Import and the ImportEntity table, as Tally specifies |
| ImportRun.LogRowResult | application/Espo/Services/Import.php:603-628 | lastIndex is saved before the ImportEntity row is created, as Tally specifies |
| ImportRun.RunRows | application/Espo/Services/Import.php:583-629 | the loop's result, lastIndex and logged rows are RunOver of the rows the tokenizer returns |
| ImportRun.ContextFor | application/Espo/Services/Import.php:598 | the loop's row results are importRow's |
| ImportRun.ImportRecord.Finish | application/Espo/Services/Import.php:630-635 | the status ends Complete even when the catch set Failed, and nothing else on the Import changes |
| ImportRun.RunImport | application/Espo/Services/Import.php:572-643 | the run ends Complete, even after a throw, with the counts of imported and updated rows |
| ImportRun.OpenImport | application/Espo/Services/Import.php:463-534 | the error cases, the delimiter and quote, the columns, and the resumed (In Process) or new Import |
| ImportRun.Import | application/Espo/Services/Import.php:459-644 | each error exactly when its check fails; manual and idle returns with zero counts; otherwise Complete with the run's counts, lastIndex and log |
| ImportRun.RunAllowed | application/Espo/Services/Import.php:384-394 | Standby runs; In Process and Failed run exactly when forced; Pending and Complete never run |
| ImportRun.ImportById | application/Espo/Services/Import.php:376-405 | a missing import or a forbidding status fails with nothing changed; otherwise the import runs with its own settings |

## Left out

- `readCsvString` works on bytes and the model on characters. Separator, quote and line break are compared as whole strings against one character, as PHP compares `$string[$i]`; no multibyte encoding is modelled.
- Date and datetime parsing by `DateTime::createFromFormat` and the timezone conversion (Import.php:1079-1093): the model keeps the format chosen from the tables and the raw text (`DateValue`, `DateTimeValue`). It does not evaluate them.
- `floatval` (Import.php:1100-1102) is floating point: the model keeps the normalised number text only.
- `Json::decode` for jsonObject cells and for '['-prefixed jsonArray cells (Import.php:1114, 1121) is a foreign parser: the raw text is kept (`JsonValue`).
- Coerce.ParseValue: `intval` is modelled as leading whitespace, an optional sign and the longest run of decimal digits, without 64-bit saturation and without the exponent of a numeric string: PHP 7.1 and later read `intval("1e3")` as 1000 and `intval("1.5e2")` as 150, where the model gives 1.
- ImportRows.ColumnsLoop: `is_numeric` on the suffix of an `emailAddressN` column (Import.php:845) is modelled as "all decimal digits", so spellings such as " 3" or "3.0" are not accepted as alternative email columns.
- Coerce.PrepareAttributeValue: the multibyte mismatch between `mb_strlen` and byte `substr` (Import.php:967-968) is not modelled; strings are single-unit characters.
- Relation-by-name lookup (Import.php:885-923) is a repository query ending in a TODO. It is not part of this model, and the link fields it would set stay unset.
- `checkIsDuplicate` (Import.php:931), the ACL edit check, the repository `find`, and whether a save succeeds are uninterpreted: they are fields of the `Store` value (`isDuplicate`, `canEdit`, `find`, `saves`).
- `deleteFromDb($entity->id, true)` before the save (Import.php:934-936) is not modelled. Its meaning lives in the repository class, which is not part of this model.
- The id a saved new record receives is `Store.generatedId`.
- The metadata lookups (field types, phone types, currency fields, default currency) are the `Schema` value and the `Store` value.
- The generated id of a new Import is the `newId` parameter. The repository lookups of the Import and the Attachment are parameters (`existing`, `attachment`). The file contents are the attachment's text.
- The ACL checks are booleans passed in: `isAdmin`, `canCreate`, `canDelete`, and the forbidden-attribute set.
- The run's saves do not reach `Database`: a record that importRow creates or updates (Import.php:937) is not added to `Database.records`, and a new Import saved at Import.php:534 is not added to `Database.imports`. The run only appends ImportEntity rows; `revert`, `removeDuplicates` and `unmarkAsDuplicate` act on the tables they are given.
- `revert` takes the current time as a parameter `now`. `createdAt` is in integer seconds. PHP's `$dayDiff < 2` on a float day count is the same as `now - createdAt < 172800`.
- ImportRows.PrepareRecord: the record keeps `id`, `emailAddressData` and `phoneNumberData` outside its attribute map, where the code treats them as ordinary entity attributes (`$entity->set` at Import.php:709 and 817, `$entity->get` at Import.php:758, 770, 821 and 853). A default value or a column named `id`, `emailAddressData` or `phoneNumberData` is put into the attribute map only; the model does not merge it into the id or the email and phone lists.
- ImportRowLaws.IdOnlyForLiteralCreate: true of the model, not of the code, for a default value named `id`: in the code `$entity->set($params['defaultValues'])` (Import.php:709) sets the id, so the prepared record need not keep its target's id.
- ImportRowLaws.ContactListsGrow: true of the model, not of the code, for a default value or a column named `emailAddressData` or `phoneNumberData`: in the code these replace the list (Import.php:709, 817) rather than append to it.
- ImportRows.CurrencyValue: `$this->getConfig('defaultCurrency')` (Import.php:870) is read as the configured default currency string, `Store.defaultCurrency`. The base class that defines `getConfig` is not part of this model.
- ImportRun.AdmitRow: an exception thrown while a row is imported is modelled by `throws(i)` for row i. It is taken to happen before any effect of that row. A throw ends the loop, as the `catch` outside the loop does, with the earlier rows' effects kept.
- ImportRun.RunLog: the clauses "each saved lastIndex has its ImportEntity row" and "the created count is the number of imported rows" assume that neither the save of the Import (Import.php:606) nor the creation of the ImportEntity row (Import.php:621) throws. In the code such a throw, caught at Import.php:630, leaves a saved lastIndex without its ImportEntity row, and after Import.php:612 an id counted at Import.php:641 without a logged row.
- ImportRun.ImportById: the JSON round trip of the stored params (Import.php:399-400) is the identity here; the params are kept as a value.
- ImportRun.ImportById: its contract on the run path states the summary's id, the kept params and the final status. The full run state is stated by ImportRun.Import, which it calls.
- ImportLog.Database.UnmarkAsDuplicate: `findOne` without an order is modelled as the first matching row.
- ImportLog.Database.Revert: the record table is keyed by type and id. A record is found only while it is Active, and `removeEntity` makes it SoftDeleted.
- The `noStream`, `noNotifications`, `silent` and `skipHooks` save options, logging through `$GLOBALS['log']`, and `processActionHistoryRecord` have no effect on the modelled state.
- The Job that an idle run creates (Import.php:550-563) is not modelled beyond the early return. `jobRunIdleImport` and the other job and read-model functions (`findLinked`, `loadAdditionalFields`, `uploadFile`, `importFileWithParamsId`) are not part of this model.
- PHP loose comparison (`in_array`, `switch`, `==` on the status and format strings) is modelled as string equality on the values the import stores.
